/** PostgreSQL session-level advisory locks as src/scheduler.ts and src/db/migrate.ts use
    them: owned by a session, re-entrant, and freed when the session ends. */
module AdvisoryLock {

  type Session = nat

  /** A lock that is held, and how often its owner has taken it. */
  datatype Held = Held(owner: Session, count: nat)

  type Locks = map<int, Held>

  ghost predicate Valid(t: Locks) {
    forall k | k in t :: t[k].count > 0
  }

  /** May the session take the lock now? */
  predicate Grantable(t: Locks, s: Session, key: int) {
    key !in t || t[key].owner == s
  }

  /** pg_try_advisory_lock when it returns true, pg_advisory_lock when it returns. */
  function Take(t: Locks, s: Session, key: int): Locks
    requires Grantable(t, s, key)
  {
    t[key := Held(s, if key in t then t[key].count + 1 else 1)]
  }

  /** pg_advisory_unlock; a session that does not hold the lock changes nothing. */
  function Unlock(t: Locks, s: Session, key: int): Locks {
    if key !in t || t[key].owner != s then t
    else if t[key].count <= 1 then t - {key}
    else t[key := Held(s, t[key].count - 1)]
  }

  /** The end of a session frees everything it holds. */
  function Close(t: Locks, s: Session): Locks {
    map k | k in t && t[k].owner != s :: t[k]
  }

  /** Taking and giving back is neutral, also when the session held the lock before. */
  lemma TakeUnlock(t: Locks, s: Session, key: int)
    requires Valid(t) && Grantable(t, s, key)
    ensures Valid(Take(t, s, key)) && Unlock(Take(t, s, key), s, key) == t
  {
    if key !in t {
      assert t[key := Held(s, 1)] - {key} == t;
    }
  }
}
