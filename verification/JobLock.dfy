/** src/scheduler.ts: `withJobLock`, run by any number of tasks on any number of instances
    that share one database. Each instance has a pool of sessions (src/config/database.ts);
    a task checks one out, tries the lock, runs its job and hands the session back. The database may
    end a session that is checked out; the process logs the error (src/index.ts) and the task runs on. */
module JobLock {
  import opened AdvisoryLock

  type Instance = nat
  type TaskId = nat

  datatype Pc =
    | Start
    | Trying(session: Session)    // checked out, about to try the lock
    | Running(session: Session)   // the job's body is executing
    | Ending(session: Session)    // the body returned or threw; the inner finally
    | Leaving(session: Session)   // the outer finally
    | Done
    | Crashed

  /** `key` is hashtext of the job's name; different jobs may share one key. */
  datatype Task = Task(instance: Instance, job: string, key: int, pc: Pc)

  /** `pool` maps each session to its instance, `out` each checked-out one to its task; `dead` are the
      checked-out sessions that the database has ended. */
  datatype State = State(
    tasks: map<TaskId, Task>,
    pool: map<Session, Instance>,
    out: map<Session, TaskId>,
    dead: set<Session>,
    locks: Locks)

  datatype Event =
    | Spawn(t: TaskId, instance: Instance, job: string)
    | Checkout(t: TaskId, s: Session)   // an idle session of the instance, or a new one
    | TryLock(t: TaskId)
    | TryFails(t: TaskId)               // the query throws, taking nothing
    | SessionLost(s: Session)           // the database ends a checked-out session
    | BodyEnds(t: TaskId)               // normally or by an exception
    | UnlockRuns(t: TaskId)
    | Release(t: TaskId)
    | Evict(s: Session)                 // the pool closes an idle session
    | CrashInstance(i: Instance)

  predicate Working(pc: Pc) {
    pc.Trying? || pc.Running? || pc.Ending? || pc.Leaving?
  }

  /** The task holds its lock. */
  predicate Holding(pc: Pc) {
    pc.Running? || pc.Ending?
  }

  predicate Enabled(st: State, e: Event) {
    match e
    case Spawn(t, _, _) => t !in st.tasks
    case Checkout(t, s) => t in st.tasks && st.tasks[t].pc.Start? && s !in st.out
                           && (s in st.pool ==> st.pool[s] == st.tasks[t].instance)
    case TryLock(t) => t in st.tasks && st.tasks[t].pc.Trying? && st.tasks[t].pc.session !in st.dead
    case TryFails(t) => t in st.tasks && st.tasks[t].pc.Trying?
    case SessionLost(s) => s in st.out && s !in st.dead
    case BodyEnds(t) => t in st.tasks && st.tasks[t].pc.Running?
    case UnlockRuns(t) => t in st.tasks && st.tasks[t].pc.Ending?
    case Release(t) => t in st.tasks && st.tasks[t].pc.Leaving?
    case Evict(s) => s in st.pool && s !in st.out
    case CrashInstance(_) => true
  }

  function Goto(st: State, t: TaskId, pc: Pc): State
    requires t in st.tasks
  {
    st.(tasks := st.tasks[t := st.tasks[t].(pc := pc)])
  }

  function After(hash: map<string, int>, st: State, e: Event): State
    requires Enabled(st, e)
  {
    match e
    case Spawn(t, i, job) =>
      st.(tasks := st.tasks[t := Task(i, job, if job in hash then hash[job] else 0, Start)])
    case Checkout(t, s) =>
      Goto(st.(pool := st.pool[s := st.tasks[t].instance], out := st.out[s := t]), t, Trying(s))
    case TryLock(t) =>
      var s, k := st.tasks[t].pc.session, st.tasks[t].key;
      if Grantable(st.locks, s, k) then Goto(st.(locks := Take(st.locks, s, k)), t, Running(s)) else Goto(st, t, Leaving(s))
    case TryFails(t) => Goto(st, t, Leaving(st.tasks[t].pc.session))
    case SessionLost(s) => st.(dead := st.dead + {s}, locks := Close(st.locks, s))
    case BodyEnds(t) => Goto(st, t, Ending(st.tasks[t].pc.session))
    case UnlockRuns(t) =>
      var s := st.tasks[t].pc.session;
      Goto(st.(locks := Unlock(st.locks, s, st.tasks[t].key)), t, Leaving(s))
    case Release(t) => Goto(HandBack(st, st.tasks[t].pc.session), t, Done)
    case Evict(s) => st.(pool := st.pool - {s}, locks := Close(st.locks, s))
    case CrashInstance(i) => Crash(st, i)
  }

  /** The pool keeps a session that still works and drops one that does not. */
  function HandBack(st: State, s: Session): State {
    if s in st.dead then st.(out := st.out - {s}, pool := st.pool - {s}, dead := st.dead - {s})
    else st.(out := st.out - {s})
  }

  /** All tasks of the instance stop where they are and all its sessions end. */
  function Crash(st: State, i: Instance): State {
    State(
      map t | t in st.tasks :: (if st.tasks[t].instance == i && st.tasks[t].pc != Done then st.tasks[t].(pc := Crashed) else st.tasks[t]),
      map s | s in st.pool && st.pool[s] != i :: st.pool[s],
      map s | s in st.out && !(s in st.pool && st.pool[s] == i) :: st.out[s],
      set s | s in st.dead && !(s in st.pool && st.pool[s] == i),
      map k | k in st.locks && !(st.locks[k].owner in st.pool && st.pool[st.locks[k].owner] == i) :: st.locks[k])
  }

  ghost predicate Init(st: State) {
    st.tasks == map[] && st.pool == map[] && st.out == map[] && st.dead == {} && st.locks == map[]
  }

  ghost predicate Possible(hash: map<string, int>, st: State, events: seq<Event>)
    decreases |events|
  {
    events == [] || (Enabled(st, events[0]) && Possible(hash, After(hash, st, events[0]), events[1..]))
  }

  ghost function Final(hash: map<string, int>, st: State, events: seq<Event>): State
    requires Possible(hash, st, events)
    decreases |events|
  {
    if events == [] then st else Final(hash, After(hash, st, events[0]), events[1..])
  }

  // --- The invariant ---

  /** The task runs its job and its session still stands. */
  ghost predicate Covered(st: State, t: TaskId) {
    t in st.tasks && Holding(st.tasks[t].pc) && st.tasks[t].pc.session !in st.dead
  }

  /** A session is checked out exactly to the working task that has it. */
  ghost predicate Sessions(st: State) {
    && st.dead <= st.out.Keys
    && (forall s | s in st.out :: s in st.pool && st.out[s] in st.tasks)
    && (forall s | s in st.out :: var task := st.tasks[st.out[s]]; Working(task.pc) && task.pc.session == s && st.pool[s] == task.instance)
    && (forall t | t in st.tasks && Working(st.tasks[t].pc) :: st.tasks[t].pc.session in st.out && st.out[st.tasks[t].pc.session] == t)
  }

  /** A lock is held exactly by the standing session of the task that runs under it, and once. */
  ghost predicate LocksInv(st: State) {
    && (forall t | Covered(st, t) ::
          st.tasks[t].key in st.locks && st.locks[st.tasks[t].key] == Held(st.tasks[t].pc.session, 1))
    && (forall k | k in st.locks ::
          var s := st.locks[k].owner;
          s in st.out && Covered(st, st.out[s]) && st.tasks[st.out[s]].key == k)
  }

  /** Tasks of the same job have the same key. */
  ghost predicate KeysInv(hash: map<string, int>, st: State) {
    forall t | t in st.tasks :: st.tasks[t].key == if st.tasks[t].job in hash then hash[st.tasks[t].job] else 0
  }

  ghost predicate Inv(hash: map<string, int>, st: State) {
    Sessions(st) && LocksInv(st) && KeysInv(hash, st)
  }

  lemma SpawnKeeps(hash: map<string, int>, st: State, e: Event)
    requires Inv(hash, st) && Enabled(st, e) && e.Spawn?
    ensures Inv(hash, After(hash, st, e))
  {
  }

  lemma CheckoutKeeps(hash: map<string, int>, st: State, e: Event)
    requires Inv(hash, st) && Enabled(st, e) && e.Checkout?
    ensures Inv(hash, After(hash, st, e))
  {
    CheckoutSessions(hash, st, e.t, e.s);
    CheckoutLocks(hash, st, e.t, e.s);
    hide Sessions, LocksInv;
  }

  lemma CheckoutSessions(hash: map<string, int>, st: State, t: TaskId, s: Session)
    requires Sessions(st) && Enabled(st, Checkout(t, s))
    ensures Sessions(After(hash, st, Checkout(t, s)))
    ensures s !in st.out && s !in st.dead
  {
  }

  lemma CheckoutLocks(hash: map<string, int>, st: State, t: TaskId, s: Session)
    requires Sessions(st) && LocksInv(st) && Enabled(st, Checkout(t, s))
    ensures LocksInv(After(hash, st, Checkout(t, s)))
  {
  }

  /** A task that moves on with its session keeps it. */
  lemma MoveSessions(st: State, t: TaskId, pc: Pc, locks: Locks)
    requires Sessions(st) && t in st.tasks && Working(st.tasks[t].pc) && Working(pc) && st.tasks[t].pc.session == pc.session
    ensures Sessions(Goto(st.(locks := locks), t, pc))
  {
  }

  lemma TryKeeps(hash: map<string, int>, st: State, e: Event)
    requires Inv(hash, st) && Enabled(st, e) && e.TryLock?
    ensures Inv(hash, After(hash, st, e))
  {
    var end := After(hash, st, e);
    MoveSessions(st, e.t, end.tasks[e.t].pc, end.locks);
    TryLocks(hash, st, e);
    hide Sessions, LocksInv;
  }

  lemma TryLocks(hash: map<string, int>, st: State, e: Event)
    requires Sessions(st) && LocksInv(st) && Enabled(st, e) && e.TryLock?
    ensures LocksInv(After(hash, st, e))
  {
    var s, k := st.tasks[e.t].pc.session, st.tasks[e.t].key;
    assert k in st.locks ==> st.locks[k].owner != s;
  }

  lemma MoveKeeps(hash: map<string, int>, st: State, e: Event)
    requires Inv(hash, st) && Enabled(st, e) && (e.TryFails? || e.BodyEnds?)
    ensures Inv(hash, After(hash, st, e))
  {
    var end := After(hash, st, e);
    MoveSessions(st, e.t, end.tasks[e.t].pc, end.locks);
    MoveLocks(hash, st, e);
    hide Sessions, LocksInv;
  }

  lemma MoveLocks(hash: map<string, int>, st: State, e: Event)
    requires Sessions(st) && LocksInv(st) && Enabled(st, e) && (e.TryFails? || e.BodyEnds?)
    ensures LocksInv(After(hash, st, e))
  {
  }

  lemma LostKeeps(hash: map<string, int>, st: State, e: Event)
    requires Inv(hash, st) && Enabled(st, e) && e.SessionLost?
    ensures Inv(hash, After(hash, st, e))
  {
  }

  lemma UnlockKeeps(hash: map<string, int>, st: State, e: Event)
    requires Inv(hash, st) && Enabled(st, e) && e.UnlockRuns?
    ensures Inv(hash, After(hash, st, e))
  {
    var end := After(hash, st, e);
    MoveSessions(st, e.t, end.tasks[e.t].pc, end.locks);
    UnlockLocks(hash, st, e);
    hide Sessions, LocksInv;
  }

  lemma UnlockLocks(hash: map<string, int>, st: State, e: Event)
    requires Sessions(st) && LocksInv(st) && Enabled(st, e) && e.UnlockRuns?
    ensures LocksInv(After(hash, st, e))
  {
  }

  lemma ReleaseKeeps(hash: map<string, int>, st: State, e: Event)
    requires Inv(hash, st) && Enabled(st, e) && e.Release?
    ensures Inv(hash, After(hash, st, e))
  {
    ReleaseSessions(hash, st, e);
    ReleaseLocks(hash, st, e);
    hide Sessions, LocksInv;
  }

  lemma ReleaseSessions(hash: map<string, int>, st: State, e: Event)
    requires Sessions(st) && Enabled(st, e) && e.Release?
    ensures Sessions(After(hash, st, e))
  {
  }

  lemma ReleaseLocks(hash: map<string, int>, st: State, e: Event)
    requires Sessions(st) && LocksInv(st) && Enabled(st, e) && e.Release?
    ensures LocksInv(After(hash, st, e))
  {
  }

  lemma EvictKeeps(hash: map<string, int>, st: State, e: Event)
    requires Inv(hash, st) && Enabled(st, e) && e.Evict?
    ensures Inv(hash, After(hash, st, e))
    ensures After(hash, st, e).locks == st.locks
  {
    forall k | k in st.locks ensures st.locks[k].owner != e.s { assert st.locks[k].owner in st.out; }
    assert Close(st.locks, e.s) == st.locks;
  }

  lemma CrashKeeps(hash: map<string, int>, st: State, i: Instance)
    requires Inv(hash, st)
    ensures Inv(hash, Crash(st, i))
  {
  }

  lemma InvStep(hash: map<string, int>, st: State, e: Event)
    requires Inv(hash, st) && Enabled(st, e)
    ensures Inv(hash, After(hash, st, e))
  {
    hide *;
    match e
    case Spawn(_, _, _) => SpawnKeeps(hash, st, e);
    case Checkout(_, _) => CheckoutKeeps(hash, st, e);
    case TryLock(_) => TryKeeps(hash, st, e);
    case TryFails(_) => MoveKeeps(hash, st, e);
    case SessionLost(_) => LostKeeps(hash, st, e);
    case BodyEnds(_) => MoveKeeps(hash, st, e);
    case UnlockRuns(_) => UnlockKeeps(hash, st, e);
    case Release(_) => ReleaseKeeps(hash, st, e);
    case Evict(_) => EvictKeeps(hash, st, e);
    case CrashInstance(i) => CrashKeeps(hash, st, i); CrashIs(hash, st, i);
  }

  lemma CrashIs(hash: map<string, int>, st: State, i: Instance)
    ensures Enabled(st, CrashInstance(i)) && After(hash, st, CrashInstance(i)) == Crash(st, i)
  {
  }

  lemma {:induction false} InvRun(hash: map<string, int>, st: State, events: seq<Event>)
    requires Inv(hash, st) && Possible(hash, st, events)
    ensures Inv(hash, Final(hash, st, events))
    decreases |events|
  {
    hide Inv, After;
    if events != [] {
      InvStep(hash, st, events[0]);
      InvRun(hash, After(hash, st, events[0]), events[1..]);
    }
  }

  // --- Main results ---

  /** Two tasks that exclude each other: the same job, or jobs whose hashes collide. */
  predicate Rivals(a: Task, b: Task) {
    a.key == b.key || a.job == b.job
  }

  /** In every reachable state: when two tasks run rival jobs at once, one of them has lost its session,
      so while no session is lost at most one task runs a job; and a session that is not checked out, or
      has been lost, holds no lock. */
  lemma OneTaskPerKey(hash: map<string, int>, st: State, events: seq<Event>)
    requires Init(st) && Possible(hash, st, events)
    ensures var end := Final(hash, st, events);
            && (forall t, u | Covered(end, t) && Covered(end, u) && Rivals(end.tasks[t], end.tasks[u]) :: t == u)
            && (forall k | k in end.locks :: end.locks[k].owner in end.out && end.locks[k].owner !in end.dead)
  {
    InvRun(hash, st, events);
    var end := Final(hash, st, events);
    forall t, u | Covered(end, t) && Covered(end, u) && Rivals(end.tasks[t], end.tasks[u]) ensures t == u {
      OwnersEqual(hash, end, t, u);
    }
  }

  lemma OwnersEqual(hash: map<string, int>, st: State, t: TaskId, u: TaskId)
    requires Inv(hash, st) && Covered(st, t) && Covered(st, u) && Rivals(st.tasks[t], st.tasks[u])
    ensures t == u
  {
    assert st.locks[st.tasks[t].key] == Held(st.tasks[t].pc.session, 1);
    assert st.locks[st.tasks[u].key] == Held(st.tasks[u].pc.session, 1);
  }

  /** A task skips its tick if and only if another task that still has its session runs under the same
      key. A running task that has lost its session stops nobody. */
  lemma SkipsExactly(hash: map<string, int>, st: State, t: TaskId)
    requires Inv(hash, st) && Enabled(st, TryLock(t))
    ensures After(hash, st, TryLock(t)).tasks[t].pc.Leaving?
            <==> exists u :: u != t && Covered(st, u) && st.tasks[u].key == st.tasks[t].key
  {
    var s, k := st.tasks[t].pc.session, st.tasks[t].key;
    if k in st.locks {
      var u := st.out[st.locks[k].owner];
      assert Covered(st, u) && st.tasks[u].key == k && u != t;
    }
  }

  /** A tick of the job by a new task `t` on a new session `s`. */
  function Tick(t: TaskId, s: Session, instance: Instance, job: string): seq<Event> {
    [Spawn(t, instance, job), Checkout(t, s), TryLock(t)]
  }

  /** While `u` runs its job, the next tick of that job runs beside it if and only if `u` has lost its
      session and no rival has taken the lock since. */
  lemma TickOverlaps(hash: map<string, int>, st: State, u: TaskId, t: TaskId, s: Session, instance: Instance)
    requires Inv(hash, st) && u in st.tasks && Holding(st.tasks[u].pc)
    requires t !in st.tasks && s !in st.pool
    ensures var tick := Tick(t, s, instance, st.tasks[u].job);
            && Possible(hash, st, tick)
            && var end := Final(hash, st, tick);
            && t in end.tasks && u in end.tasks && end.tasks[u] == st.tasks[u]
            && (Holding(end.tasks[t].pc) <==> st.tasks[u].pc.session in st.dead && forall v | Covered(st, v) :: st.tasks[v].key != st.tasks[u].key)
  {
    var job := st.tasks[u].job;
    var mid := AtTry(hash, st, t, s, instance, job);
    TickStarts(hash, st, t, s, instance, job);
    AtTryCovered(hash, st, u, t, s, instance);
    TryOutcome(hash, mid, t, u);
    hide *;
    SkipsExactly(hash, mid, t);
  }

  /** One database with its clients, driven step by step. */
  class Cluster {
    var st: State
    const hash: map<string, int>

    constructor (hash: map<string, int>)
      ensures this.hash == hash && Init(st) && Inv(hash, st)
    {
      this.hash := hash;
      st := State(map[], map[], map[], {}, map[]);
    }

    method Perform(e: Event)
      requires Enabled(st, e)
      modifies this
      ensures st == After(hash, old(st), e)
    {
      st := After(hash, st, e);
    }

    /** One call of `withJobLock` that no other task interrupts, on an idle or a new session. Whether the
        lock query throws, is refused, or the job runs and its session is lost or not: the lock table and
        the checked-out sessions end as they began, no other task is touched, and a lost session leaves
        the pool. */
    method WithJobLock(t: TaskId, s: Session, queryThrows: bool, sessionLost: bool) returns (ran: bool)
      requires Inv(hash, st) && Enabled(st, Checkout(t, s))
      modifies this
      ensures Inv(hash, st)
      ensures ran <==> !queryThrows && old(st.tasks[t].key !in st.locks)
      ensures st.locks == old(st.locks) && st.out == old(st.out) && st.dead == old(st.dead)
      ensures st.pool == if ran && sessionLost then old(st.pool) - {s} else old(st.pool)[s := old(st.tasks[t].instance)]
      ensures st.tasks == old(st.tasks)[t := old(st.tasks[t]).(pc := Done)]
    {
      hide Inv, Take, Unlock, Close, Valid;
      ghost var st0 := st;
      ran := false;
      InvStep(hash, st, Checkout(t, s));
      FreshHoldsNothing(hash, st0, t, s);
      Perform(Checkout(t, s));
      if queryThrows {
        InvStep(hash, st, TryFails(t));
        Perform(TryFails(t));
      } else {
        InvStep(hash, st, TryLock(t));
        Perform(TryLock(t));
        if st.tasks[t].pc.Running? {
          ran := true;
          ValidLocks(hash, st0);
          TakeUnlock(st0.locks, s, st0.tasks[t].key);
          TakeClose(st0.locks, s, st0.tasks[t].key);
          if sessionLost {
            InvStep(hash, st, SessionLost(s));
            Perform(SessionLost(s));
          }
          InvStep(hash, st, BodyEnds(t));
          Perform(BodyEnds(t));
          InvStep(hash, st, UnlockRuns(t));
          Perform(UnlockRuns(t));
        }
      }
      assert st.out - {s} == st0.out;
      InvStep(hash, st, Release(t));
      Perform(Release(t));
    }
  }

  lemma FreshHoldsNothing(hash: map<string, int>, st: State, t: TaskId, s: Session)
    requires Inv(hash, st) && Enabled(st, Checkout(t, s))
    ensures s !in st.dead && (forall k | k in st.locks :: st.locks[k].owner != s)
    ensures Grantable(st.locks, s, st.tasks[t].key) <==> st.tasks[t].key !in st.locks
  {
  }

  /** Losing the session that took a lock frees it, and giving it back afterwards changes nothing. */
  lemma TakeClose(locks: Locks, s: Session, key: int)
    requires key !in locks && forall k | k in locks :: locks[k].owner != s
    ensures Close(Take(locks, s, key), s) == locks && Unlock(locks, s, key) == locks
  {
    var closed := Close(Take(locks, s, key), s);
    assert forall k :: k in closed <==> k in locks;
    assert closed == locks;
  }

  lemma ValidLocks(hash: map<string, int>, st: State)
    requires Inv(hash, st)
    ensures Valid(st.locks)
  {
    forall k | k in st.locks ensures st.locks[k].count > 0 {
      var t := st.out[st.locks[k].owner];
      assert st.tasks[t].key == k && st.locks[k] == Held(st.tasks[t].pc.session, 1);
    }
  }

  // --- One tick, step by step ---

  /** The state in which the tick tries the lock. */
  function AtTry(hash: map<string, int>, st: State, t: TaskId, s: Session, instance: Instance, job: string): State {
    st.(tasks := st.tasks[t := Task(instance, job, if job in hash then hash[job] else 0, Trying(s))],
        pool := st.pool[s := instance],
        out := st.out[s := t])
  }

  lemma TickStarts(hash: map<string, int>, st: State, t: TaskId, s: Session, instance: Instance, job: string)
    requires Inv(hash, st) && t !in st.tasks && s !in st.pool
    ensures var mid := AtTry(hash, st, t, s, instance, job);
            && Inv(hash, mid) && Enabled(mid, TryLock(t))
            && Possible(hash, st, Tick(t, s, instance, job))
            && Final(hash, st, Tick(t, s, instance, job)) == After(hash, mid, TryLock(t))
  {
    assert Sessions(st);
    hide *;
    var st1 := TickSpawn(hash, st, t, s, instance, job);
    InvStep(hash, st, Spawn(t, instance, job));
    TickCheckout(hash, st, st1, t, s, instance, job);
    InvStep(hash, st1, Checkout(t, s));
    TickIs(t, s, instance, job);
    var mid := AtTry(hash, st, t, s, instance, job);
    Empty(hash, After(hash, mid, TryLock(t)));
    StepThen(hash, mid, TryLock(t), []);
    StepThen(hash, st1, Checkout(t, s), [TryLock(t)]);
    StepThen(hash, st, Spawn(t, instance, job), [Checkout(t, s), TryLock(t)]);
  }

  lemma TickIs(t: TaskId, s: Session, instance: Instance, job: string)
    ensures Tick(t, s, instance, job) == [Spawn(t, instance, job)] + ([Checkout(t, s)] + ([TryLock(t)] + []))
    ensures [TryLock(t)] + [] == [TryLock(t)] && [Checkout(t, s)] + [TryLock(t)] == [Checkout(t, s), TryLock(t)]
  {
  }

  lemma TickSpawn(hash: map<string, int>, st: State, t: TaskId, s: Session, instance: Instance, job: string) returns (st1: State)
    requires Sessions(st) && t !in st.tasks && s !in st.pool
    ensures Enabled(st, Spawn(t, instance, job)) && st1 == After(hash, st, Spawn(t, instance, job))
    ensures s !in st1.out && s !in st.dead
    ensures st1 == st.(tasks := st.tasks[t := Task(instance, job, if job in hash then hash[job] else 0, Start)])
  {
    st1 := After(hash, st, Spawn(t, instance, job));
  }

  lemma TickCheckout(hash: map<string, int>, st: State, st1: State, t: TaskId, s: Session, instance: Instance, job: string)
    requires s !in st1.pool && s !in st1.out
    requires st1 == st.(tasks := st.tasks[t := Task(instance, job, if job in hash then hash[job] else 0, Start)])
    requires s !in st.dead
    ensures Enabled(st1, Checkout(t, s)) && After(hash, st1, Checkout(t, s)) == AtTry(hash, st, t, s, instance, job)
    ensures Enabled(AtTry(hash, st, t, s, instance, job), TryLock(t))
  {
    var mid := After(hash, st1, Checkout(t, s));
    assert mid.tasks == AtTry(hash, st, t, s, instance, job).tasks;
  }

  lemma Empty(hash: map<string, int>, st: State)
    ensures Possible(hash, st, []) && Final(hash, st, []) == st
  {
  }

  lemma StepThen(hash: map<string, int>, st: State, e: Event, rest: seq<Event>)
    requires Enabled(st, e) && Possible(hash, After(hash, st, e), rest)
    ensures Possible(hash, st, [e] + rest) && Final(hash, st, [e] + rest) == Final(hash, After(hash, st, e), rest)
  {
    hide Enabled, After;
    assert ([e] + rest)[0] == e && ([e] + rest)[1..] == rest;
  }

  lemma AtTryCovered(hash: map<string, int>, st: State, u: TaskId, t: TaskId, s: Session, instance: Instance)
    requires Inv(hash, st) && u in st.tasks && t !in st.tasks && Holding(st.tasks[u].pc)
    ensures var mid := AtTry(hash, st, t, s, instance, st.tasks[u].job);
            && u in mid.tasks && t in mid.tasks && mid.tasks[u] == st.tasks[u] && mid.tasks[t].key == st.tasks[u].key
            && !Covered(mid, t) && !Covered(st, t)
            && (forall v | v != t :: Covered(mid, v) <==> Covered(st, v))
            && (forall v | Covered(st, v) :: v in mid.tasks && mid.tasks[v] == st.tasks[v])
    ensures Covered(st, u) <==> st.tasks[u].pc.session !in st.dead
  {
  }

  lemma TryOutcome(hash: map<string, int>, mid: State, t: TaskId, u: TaskId)
    requires Enabled(mid, TryLock(t)) && u in mid.tasks && u != t
    ensures var end := After(hash, mid, TryLock(t));
            && t in end.tasks && u in end.tasks && end.tasks[u] == mid.tasks[u]
            && (Holding(end.tasks[t].pc) <==> !end.tasks[t].pc.Leaving?)
  {
  }
}
