/** src/db/migrate.ts: any number of `up` runs against one database, in any interleaving,
    with a failure or a crash at any step. Other users of the advisory-lock space take and
    release arbitrary locks in between, also ones that collide with the migrate lock. */
module Migrate {
  import opened AdvisoryLock
  import opened Lists

  type File = string
  type RunId = Session   // each run holds one dedicated session

  /** Where a run stands. `rest` is what the loop still has to do after `file`; in `Record` the
      file has been executed and is not yet in the tracking table. */
  datatype Pc =
    | Start
    | Blocked                  // waiting in pg_advisory_lock
    | Schema                   // about to run SCHEMA_SQL
    | Track                    // about to create the tracking table
    | Read                     // about to read the applied set
    | Apply(file: File, rest: seq<File>)   // about to run psql on the file
    | Record(file: File, rest: seq<File>)  // about to insert its row
    | Unlocking(ok: bool)      // in the finally block
    | Closing(ok: bool)        // the pool is about to end
    | Finished(ok: bool)
    | Crashed

  datatype Run = Run(files: seq<File>, pc: Pc)

  /** `executed` counts the successful psql runs of each file, `lost` those whose run failed
      or died before it recorded the file. */
  datatype State = State(
    runs: map<RunId, Run>,
    locks: Locks,
    recorded: set<File>,
    executed: multiset<File>,
    lost: multiset<File>)

  datatype Event =
    | Connect(p: RunId)
    | Acquire(p: RunId)
    | Step(p: RunId)      // the statement at the run's program counter succeeds
    | Fail(p: RunId)      // ... or throws
    | Unlocked(p: RunId)  // the unlock query succeeds
    | UnlockLost(p: RunId)// ... or fails and the failure is swallowed
    | Ended(p: RunId)
    | Crash(p: RunId)
    | OtherTakes(s: Session, key: int)
    | OtherUnlocks(s: Session, key: int)
    | OtherEnds(s: Session)

  function Pending(files: seq<File>, recorded: set<File>): seq<File> {
    if files == [] then []
    else (if files[0] in recorded then [] else [files[0]]) + Pending(files[1..], recorded)
  }

  predicate Inside(pc: Pc) {
    pc.Schema? || pc.Track? || pc.Read? || pc.Apply? || pc.Record?
  }

  predicate Over(pc: Pc) {
    pc.Finished? || pc.Crashed?
  }

  predicate Enabled(lockKey: int, st: State, e: Event) {
    match e
    case Connect(p) => p in st.runs && st.runs[p].pc.Start?
    case Acquire(p) => p in st.runs && st.runs[p].pc.Blocked? && Grantable(st.locks, p, lockKey)
    case Step(p) => p in st.runs && Inside(st.runs[p].pc)
    case Fail(p) => p in st.runs && (Inside(st.runs[p].pc) || st.runs[p].pc.Blocked?)
    case Unlocked(p) => p in st.runs && st.runs[p].pc.Unlocking?
    case UnlockLost(p) => p in st.runs && st.runs[p].pc.Unlocking?
    case Ended(p) => p in st.runs && st.runs[p].pc.Closing?
    case Crash(p) => p in st.runs && !Over(st.runs[p].pc)
    case OtherTakes(s, key) => s !in st.runs && Grantable(st.locks, s, key)
    case OtherUnlocks(s, _) => s !in st.runs
    case OtherEnds(s) => s !in st.runs
  }

  function Goto(st: State, p: RunId, pc: Pc): State
    requires p in st.runs
  {
    st.(runs := st.runs[p := st.runs[p].(pc := pc)])
  }

  /** The next file, or the end of the loop. */
  function Loop(todo: seq<File>): Pc {
    if todo == [] then Unlocking(true) else Apply(todo[0], todo[1..])
  }

  /** A run that leaves `Record` without inserting the row has executed its file for nothing. */
  function Lose(st: State, p: RunId): State
    requires p in st.runs
  {
    if st.runs[p].pc.Record? then st.(lost := st.lost + multiset{st.runs[p].pc.file}) else st
  }

  function After(lockKey: int, st: State, e: Event): State
    requires Enabled(lockKey, st, e)
  {
    match e
    case Connect(p) => Goto(st, p, Blocked)
    case Acquire(p) => Goto(st.(locks := Take(st.locks, p, lockKey)), p, Schema)
    case Step(p) =>
      (match st.runs[p].pc
       case Schema => Goto(st, p, Track)
       case Track => Goto(st, p, Read)
       case Read => Goto(st, p, Loop(Pending(st.runs[p].files, st.recorded)))
       case Apply(f, rest) => Goto(st.(executed := st.executed + multiset{f}), p, Record(f, rest))
       case Record(f, rest) => Goto(st.(recorded := st.recorded + {f}), p, Loop(rest))
       case _ => st)
    case Fail(p) => Goto(Lose(st, p), p, Unlocking(false))
    case Unlocked(p) => Goto(st.(locks := Unlock(st.locks, p, lockKey)), p, Closing(st.runs[p].pc.ok))
    case UnlockLost(p) => Goto(st, p, Closing(st.runs[p].pc.ok))
    case Ended(p) => Goto(st.(locks := Close(st.locks, p)), p, Finished(st.runs[p].pc.ok))
    case Crash(p) => Goto(Lose(st, p).(locks := Close(st.locks, p)), p, Crashed)
    case OtherTakes(s, key) => st.(locks := Take(st.locks, s, key))
    case OtherUnlocks(s, key) => st.(locks := Unlock(st.locks, s, key))
    case OtherEnds(s) => st.(locks := Close(st.locks, s))
  }

  /** A sequence of events that the protocol allows from `st`. */
  ghost predicate Possible(lockKey: int, st: State, events: seq<Event>)
    decreases |events|
  {
    events == [] || (Enabled(lockKey, st, events[0]) && Possible(lockKey, After(lockKey, st, events[0]), events[1..]))
  }

  ghost function Final(lockKey: int, st: State, events: seq<Event>): State
    requires Possible(lockKey, st, events)
    decreases |events|
  {
    if events == [] then st else Final(lockKey, After(lockKey, st, events[0]), events[1..])
  }

  /** No run has begun, no run's session holds a lock, nothing was executed yet. */
  ghost predicate Init(st: State) {
    && (forall p | p in st.runs :: st.runs[p].pc.Start? && Distinct(st.runs[p].files))
    && Valid(st.locks) && (forall k | k in st.locks :: st.locks[k].owner !in st.runs)
    && st.executed == multiset{} && st.lost == multiset{}
  }

  // --- The invariant ---

  /** The migrate lock is with every run that is inside, and with no run that is not. */
  ghost predicate LockInv(lockKey: int, st: State) {
    && Valid(st.locks)
    && (forall p | p in st.runs && Inside(st.runs[p].pc) :: lockKey in st.locks && st.locks[lockKey] == Held(p, 1))
    && (forall k | k in st.locks && st.locks[k].owner in st.runs ::
          var pc := st.runs[st.locks[k].owner].pc; Inside(pc) || pc.Unlocking? || pc.Closing?)
  }

  /** The files a run has still to record. */
  function Todo(pc: Pc): seq<File> {
    if pc.Apply? || pc.Record? then [pc.file] + pc.rest else []
  }

  /** What a run knows: its pending list is exact, and after success nothing is left. */
  ghost predicate RunInv(st: State, r: Run) {
    && Distinct(r.files)
    && (r.pc.Apply? || r.pc.Record? ==>
          && Distinct(Todo(r.pc))
          && (forall f | f in Todo(r.pc) :: f in r.files && f !in st.recorded)
          && (forall f | f in r.files :: f in st.recorded || f in Todo(r.pc)))
    && ((r.pc.Unlocking? || r.pc.Closing? || r.pc.Finished?) && r.pc.ok ==> AllRecorded(r.files, st.recorded))
  }

  ghost predicate AllRecorded(files: seq<File>, recorded: set<File>) {
    forall f | f in files :: f in recorded
  }

  /** Some run has executed the file and is about to record it. */
  ghost predicate InFlight(st: State, f: File) {
    exists p :: p in st.runs && st.runs[p].pc.Record? && st.runs[p].pc.file == f
  }

  /** Conservation: every successful execution of a file is recorded, lost or in flight. */
  ghost predicate Balanced(st: State, before: set<File>, f: File) {
    st.executed[f] == st.lost[f] + (if f in st.recorded && f !in before then 1 else 0) + (if InFlight(st, f) then 1 else 0)
  }

  ghost predicate Inv(lockKey: int, st: State, before: set<File>) {
    && LockInv(lockKey, st)
    && before <= st.recorded
    && (forall f | f in before :: st.executed[f] == 0)
    && (forall p | p in st.runs :: RunInv(st, st.runs[p]))
    && (forall f :: Balanced(st, before, f))
  }

  // --- The invariant holds in every reachable state ---

  lemma InitInv(lockKey: int, st: State)
    requires Init(st)
    ensures Inv(lockKey, st, st.recorded)
  {
  }

  /** At most one run is inside the lock. */
  lemma MutualExclusion(lockKey: int, st: State, p: RunId, q: RunId)
    requires LockInv(lockKey, st) && p in st.runs && q in st.runs
    requires Inside(st.runs[p].pc) && Inside(st.runs[q].pc)
    ensures p == q
  {
  }

  /** May a session hold locks while its run stands here? */
  predicate MayHold(pc: Pc) {
    Inside(pc) || pc.Unlocking? || pc.Closing?
  }

  lemma LockMove(lockKey: int, st: State, p: RunId, pc: Pc)
    requires LockInv(lockKey, st) && p in st.runs
    requires Inside(pc) ==> Inside(st.runs[p].pc)
    requires MayHold(st.runs[p].pc) ==> MayHold(pc)
    ensures LockInv(lockKey, Goto(st, p, pc))
  {
  }

  lemma LockTaken(lockKey: int, st: State, p: RunId)
    requires LockInv(lockKey, st) && Enabled(lockKey, st, Acquire(p))
    ensures LockInv(lockKey, After(lockKey, st, Acquire(p)))
  {
    assert lockKey !in st.locks;
  }

  lemma LockClosed(lockKey: int, st: State, p: RunId, pc: Pc)
    requires LockInv(lockKey, st) && p in st.runs && !Inside(pc)
    ensures LockInv(lockKey, Goto(st.(locks := Close(st.locks, p)), p, pc))
  {
  }

  lemma LockOther(lockKey: int, st: State, e: Event)
    requires LockInv(lockKey, st) && Enabled(lockKey, st, e) && (e.OtherTakes? || e.OtherUnlocks? || e.OtherEnds?)
    ensures LockInv(lockKey, After(lockKey, st, e))
  {
  }

  lemma LockStep(lockKey: int, st: State, e: Event)
    requires LockInv(lockKey, st) && Enabled(lockKey, st, e)
    ensures LockInv(lockKey, After(lockKey, st, e))
  {
    hide LockInv, Close, Take, Unlock, Pending;
    var st' := After(lockKey, st, e);
    match e
    case Connect(p) => LockMove(lockKey, st, p, Blocked);
    case Acquire(p) => LockTaken(lockKey, st, p);
    case Step(p) => LockMove(lockKey, st, p, st'.runs[p].pc); LockFields(lockKey, Goto(st, p, st'.runs[p].pc), st');
    case Fail(p) => LockMove(lockKey, st, p, Unlocking(false)); LockFields(lockKey, Goto(st, p, Unlocking(false)), st');
    case Unlocked(p) => LockUnlocked(lockKey, st, p);
    case UnlockLost(p) => LockMove(lockKey, st, p, st'.runs[p].pc);
    case Ended(p) => LockClosed(lockKey, st, p, st'.runs[p].pc);
    case Crash(p) => LockClosed(lockKey, st, p, Crashed); LockFields(lockKey, Goto(st.(locks := Close(st.locks, p)), p, Crashed), st');
    case _ => LockOther(lockKey, st, e);
  }

  lemma LockUnlocked(lockKey: int, st: State, p: RunId)
    requires LockInv(lockKey, st) && Enabled(lockKey, st, Unlocked(p))
    ensures LockInv(lockKey, After(lockKey, st, Unlocked(p)))
  {
  }

  /** The lock invariant looks at the runs and the lock table only. */
  lemma LockFields(lockKey: int, st: State, st': State)
    requires LockInv(lockKey, st) && st'.runs == st.runs && st'.locks == st.locks
    ensures LockInv(lockKey, st')
  {
  }

  lemma {:induction false} PendingExact(files: seq<File>, recorded: set<File>)
    requires Distinct(files)
    ensures Distinct(Pending(files, recorded))
    ensures forall f :: f in Pending(files, recorded) <==> f in files && f !in recorded
  {
    if files != [] {
      var rest := files[1..];
      assert forall f :: f in files <==> f == files[0] || f in rest;
      assert forall i | 0 <= i < |rest| :: rest[i] == files[i + 1];
      PendingExact(rest, recorded);
      assert files[0] !in rest;
    }
  }

  lemma RunStep(lockKey: int, st: State, before: set<File>, e: Event)
    requires Inv(lockKey, st, before) && Enabled(lockKey, st, e)
    ensures var st' := After(lockKey, st, e); forall p | p in st'.runs :: RunInv(st', st'.runs[p])
  {
    var st' := After(lockKey, st, e);
    forall p | p in st'.runs ensures RunInv(st', st'.runs[p]) {
      if e == Step(p) {
        OwnStep(lockKey, st, before, p);
      } else {
        OtherStep(lockKey, st, before, e, p);
      }
    }
  }

  /** What a run knows stays true when another run moves, since the table changes only under the lock. */
  lemma OtherStep(lockKey: int, st: State, before: set<File>, e: Event, p: RunId)
    requires Inv(lockKey, st, before) && Enabled(lockKey, st, e) && p in st.runs && e != Step(p)
    ensures p in After(lockKey, st, e).runs && RunInv(After(lockKey, st, e), After(lockKey, st, e).runs[p])
  {
    assert RunInv(st, st.runs[p]);
    OtherChange(lockKey, st, e, p);
    hide Balanced, After, Enabled, LockInv;
  }

  predicate EndsWell(pc: Pc) {
    (pc.Unlocking? || pc.Closing? || pc.Finished?) && pc.ok
  }

  lemma OtherChange(lockKey: int, st: State, e: Event, p: RunId)
    requires LockInv(lockKey, st) && Enabled(lockKey, st, e) && p in st.runs && e != Step(p)
    ensures var st' := After(lockKey, st, e);
            && p in st'.runs && st'.runs[p].files == st.runs[p].files && st.recorded <= st'.recorded
            && (st'.runs[p].pc.Apply? || st'.runs[p].pc.Record? ==> st'.runs[p].pc == st.runs[p].pc && st'.recorded == st.recorded)
            && (EndsWell(st'.runs[p].pc) ==> EndsWell(st.runs[p].pc))
  {
    hide Take, Close, Unlock, Pending, Loop;
    if e.Step? {
      var q := e.p;
      assert After(lockKey, st, e).runs[p] == st.runs[p];
      if Inside(st.runs[p].pc) {
        MutualExclusion(lockKey, st, p, q);
      }
    } else {
      hide LockInv;
      assert After(lockKey, st, e).recorded == st.recorded;
    }
  }

  lemma OwnStep(lockKey: int, st: State, before: set<File>, p: RunId)
    requires Inv(lockKey, st, before) && Enabled(lockKey, st, Step(p))
    ensures RunInv(After(lockKey, st, Step(p)), After(lockKey, st, Step(p)).runs[p])
  {
    hide LockInv, Balanced, Pending;
    var r, st' := st.runs[p], After(lockKey, st, Step(p));
    assert RunInv(st, r);
    match r.pc
    case Read =>
      PendingExact(r.files, st.recorded);
      LoopInv(st', r.files, Pending(r.files, st.recorded));
    case Record(f, rest) =>
      RestTodo(st, r);
      hide RunInv;
      LoopInv(st', r.files, rest);
    case _ =>
  }

  /** The loop at a list that holds exactly what is not recorded. */
  lemma LoopInv(st: State, files: seq<File>, todo: seq<File>)
    requires Distinct(files) && Distinct(todo)
    requires (forall f | f in todo :: f in files && f !in st.recorded) && (forall f | f in files :: f in st.recorded || f in todo)
    ensures RunInv(st, Run(files, Loop(todo)))
  {
    LoopTodo(todo);
  }

  /** With its file recorded, the rest of the list is what is left. */
  lemma RestTodo(st: State, r: Run)
    requires RunInv(st, r) && r.pc.Record?
    ensures Distinct(r.pc.rest) && Distinct(r.files)
    ensures forall f | f in r.pc.rest :: f in r.files && f !in st.recorded && f != r.pc.file
    ensures forall f | f in r.files :: f in st.recorded || f == r.pc.file || f in r.pc.rest
  {
    var todo := Todo(r.pc);
    assert todo[0] == r.pc.file && forall i | 0 <= i < |r.pc.rest| :: todo[i + 1] == r.pc.rest[i];
    assert forall f | f in r.pc.rest :: f in todo;
  }

  lemma LoopTodo(todo: seq<File>)
    ensures if todo == [] then Loop(todo) == Unlocking(true) else Loop(todo).Apply? && Todo(Loop(todo)) == todo
  {
  }

  /** While a run is inside, a file in flight is its own. */
  lemma FlightOfInside(lockKey: int, st: State, p: RunId, f: File)
    requires LockInv(lockKey, st) && p in st.runs && Inside(st.runs[p].pc)
    ensures InFlight(st, f) <==> st.runs[p].pc.Record? && st.runs[p].pc.file == f
  {
    if q :| q in st.runs && st.runs[q].pc.Record? && st.runs[q].pc.file == f {
      MutualExclusion(lockKey, st, p, q);
    }
  }

  /** Moving one run changes what is in flight through that run only. */
  lemma FlightMove(st: State, st': State, p: RunId, pc: Pc, f: File)
    requires p in st.runs && st'.runs == st.runs[p := st.runs[p].(pc := pc)]
    ensures !pc.Record? && !st.runs[p].pc.Record? ==> (InFlight(st', f) <==> InFlight(st, f))
    ensures pc.Record? && pc.file == f ==> InFlight(st', f)
    ensures InFlight(st', f) ==> (pc.Record? && pc.file == f) || InFlight(st, f)
  {
    if q :| q in st.runs && st.runs[q].pc.Record? && st.runs[q].pc.file == f && q != p {
      assert q in st'.runs && st'.runs[q] == st.runs[q];
    }
    if pc.Record? && pc.file == f {
      assert p in st'.runs && st'.runs[p].pc == pc;
    }
    if q :| q in st'.runs && st'.runs[q].pc.Record? && st'.runs[q].pc.file == f && q != p {
      assert q in st.runs;
    }
  }

  lemma BalanceStep(lockKey: int, st: State, before: set<File>, e: Event, f: File)
    requires Inv(lockKey, st, before) && Enabled(lockKey, st, e)
    ensures Balanced(After(lockKey, st, e), before, f)
  {
    var st' := After(lockKey, st, e);
    assert Balanced(st, before, f);
    match e
    case Step(p) => BalanceInside(lockKey, st, before, e, p, f);
    case Fail(p) => BalanceInside(lockKey, st, before, e, p, f);
    case Crash(p) => BalanceInside(lockKey, st, before, e, p, f);
    case Connect(p) => FlightMove(st, st', p, st'.runs[p].pc, f);
    case Acquire(p) => FlightMove(st, st', p, st'.runs[p].pc, f);
    case Unlocked(p) => FlightMove(st, st', p, st'.runs[p].pc, f);
    case UnlockLost(p) => FlightMove(st, st', p, st'.runs[p].pc, f);
    case Ended(p) => FlightMove(st, st', p, st'.runs[p].pc, f);
    case _ => assert InFlight(st', f) <==> InFlight(st, f);
  }

  lemma BalanceInside(lockKey: int, st: State, before: set<File>, e: Event, p: RunId, f: File)
    requires Inv(lockKey, st, before) && Enabled(lockKey, st, e) && (e == Step(p) || e == Fail(p) || e == Crash(p))
    ensures Balanced(After(lockKey, st, e), before, f)
  {
    hide LockInv, Pending;
    var st' := After(lockKey, st, e);
    assert Balanced(st, before, f);
    assert RunInv(st, st.runs[p]);
    FlightMove(st, st', p, st'.runs[p].pc, f);
    if Inside(st.runs[p].pc) {
      FlightOfInside(lockKey, st, p, f);
      if st.runs[p].pc.Record? { assert Todo(st.runs[p].pc)[0] == st.runs[p].pc.file; }
      LockStep(lockKey, st, e);
      if Inside(st'.runs[p].pc) { FlightOfInside(lockKey, st', p, f); }
      else { FlightGone(lockKey, st, st', p, f); }
    }
  }

  lemma FlightGone(lockKey: int, st: State, st': State, p: RunId, f: File)
    requires LockInv(lockKey, st) && p in st.runs && Inside(st.runs[p].pc)
    requires st'.runs.Keys == st.runs.Keys && (forall q | q in st.runs && q != p :: st'.runs[q] == st.runs[q])
    requires !st'.runs[p].pc.Record?
    ensures !InFlight(st', f)
  {
    if q :| q in st'.runs && st'.runs[q].pc.Record? && st'.runs[q].pc.file == f {
      MutualExclusion(lockKey, st, p, q);
    }
  }

  lemma InvStep(lockKey: int, st: State, before: set<File>, e: Event)
    requires Inv(lockKey, st, before) && Enabled(lockKey, st, e)
    ensures Inv(lockKey, After(lockKey, st, e), before)
  {
    hide LockInv, RunInv, Balanced;
    LockStep(lockKey, st, e);
    RunStep(lockKey, st, before, e);
    forall f ensures Balanced(After(lockKey, st, e), before, f) { BalanceStep(lockKey, st, before, e, f); }
    UntouchedStep(lockKey, st, before, e);
  }

  /** Files recorded before the first run are never executed. */
  lemma UntouchedStep(lockKey: int, st: State, before: set<File>, e: Event)
    requires Inv(lockKey, st, before) && Enabled(lockKey, st, e)
    ensures var st' := After(lockKey, st, e); before <= st'.recorded && forall f | f in before :: st'.executed[f] == 0
  {
    hide LockInv, Balanced, Pending;
    if e.Step? && st.runs[e.p].pc.Apply? {
      var pc := st.runs[e.p].pc;
      assert RunInv(st, st.runs[e.p]) && Todo(pc)[0] == pc.file;
    }
  }

  lemma {:induction false} InvRun(lockKey: int, st: State, before: set<File>, events: seq<Event>)
    requires Inv(lockKey, st, before) && Possible(lockKey, st, events)
    ensures Inv(lockKey, Final(lockKey, st, events), before)
    decreases |events|
  {
    if events != [] {
      InvStep(lockKey, st, before, events[0]);
      InvRun(lockKey, After(lockKey, st, events[0]), before, events[1..]);
    }
  }

  // --- Main results ---

  /** Safety of `up`, in every state that any interleaving of runs, failures and crashes can
      reach: one run at a time, no file executed that was recorded before, and a file newly recorded
      was executed once more than it was lost by a run that failed or died between executing and
      recording it: exactly once, as the header of the file promises, if and only if that never happened. */
  lemma UpIsSafe(lockKey: int, st: State, events: seq<Event>)
    requires Init(st) && Possible(lockKey, st, events)
    ensures var end := Final(lockKey, st, events);
            && (forall p, q | p in end.runs && q in end.runs && Inside(end.runs[p].pc) && Inside(end.runs[q].pc) :: p == q)
            && st.recorded <= end.recorded
            && (forall f | f in end.recorded && f !in st.recorded :: end.executed[f] == 1 + end.lost[f])
            && (forall f | f in st.recorded :: end.executed[f] == 0)
            && (forall f :: end.executed[f] <= 1 + end.lost[f])
  {
    InitInv(lockKey, st);
    InvRun(lockKey, st, st.recorded, events);
    var end := Final(lockKey, st, events);
    forall f ensures f in end.recorded && f !in st.recorded ==> end.executed[f] == 1 + end.lost[f]
             ensures end.executed[f] <= 1 + end.lost[f]
    {
      assert Balanced(end, st.recorded, f);
      if InFlight(end, f) {
        var p :| p in end.runs && end.runs[p].pc.Record? && end.runs[p].pc.file == f;
        assert RunInv(end, end.runs[p]) && Todo(end.runs[p].pc)[0] == f;
      }
    }
  }

  /** A run that finishes without an error leaves every one of its files recorded. */
  lemma UpIsComplete(lockKey: int, st: State, events: seq<Event>, p: RunId)
    requires Init(st) && Possible(lockKey, st, events) && p in Final(lockKey, st, events).runs
    requires Final(lockKey, st, events).runs[p].pc == Finished(true)
    ensures AllRecorded(Final(lockKey, st, events).runs[p].files, Final(lockKey, st, events).recorded)
  {
    InitInv(lockKey, st);
    InvRun(lockKey, st, st.recorded, events);
    assert RunInv(Final(lockKey, st, events), Final(lockKey, st, events).runs[p]);
  }

  lemma NothingPending(files: seq<File>, recorded: set<File>)
    requires Distinct(files)
    ensures AllRecorded(files, recorded) <==> Pending(files, recorded) == []
  {
    var todo := Pending(files, recorded);
    PendingExact(files, recorded);
    assert todo != [] ==> todo[0] in todo;
    if todo == [] {
      assert forall f | f in files :: f in todo || f in recorded;
    }
  }

  /** When everything is recorded already, a run executes nothing and ends well. */
  lemma UpIsNoOp(lockKey: int, st: State, p: RunId)
    requires p in st.runs && st.runs[p].pc.Read? && Distinct(st.runs[p].files)
    ensures AllRecorded(st.runs[p].files, st.recorded)
            <==> After(lockKey, st, Step(p)) == Goto(st, p, Unlocking(true))
  {
    var files := st.runs[p].files;
    var todo := Pending(files, st.recorded);
    NothingPending(files, st.recorded);
    LoopTodo(todo);
    hide Pending, AllRecorded, Distinct;
    assert Goto(st, p, Loop(todo)).runs[p].pc == Loop(todo) && Goto(st, p, Unlocking(true)).runs[p].pc == Unlocking(true);
  }

  /** Unless another user sits on the lock, some unfinished run can always move. */
  lemma NoDeadlock(lockKey: int, st: State, before: set<File>, p: RunId)
    requires Inv(lockKey, st, before) && p in st.runs && !Over(st.runs[p].pc)
    requires lockKey in st.locks ==> st.locks[lockKey].owner in st.runs
    ensures exists q :: Enabled(lockKey, st, Connect(q)) || Enabled(lockKey, st, Acquire(q)) || Enabled(lockKey, st, Step(q))
                        || Enabled(lockKey, st, Unlocked(q)) || Enabled(lockKey, st, Ended(q))
  {
    var q := if st.runs[p].pc.Blocked? && lockKey in st.locks then st.locks[lockKey].owner else p;
    assert Enabled(lockKey, st, Connect(q)) || Enabled(lockKey, st, Acquire(q)) || Enabled(lockKey, st, Step(q))
        || Enabled(lockKey, st, Unlocked(q)) || Enabled(lockKey, st, Ended(q));
  }

  // --- Runs over the same file list ---

  ghost predicate SameFiles(st: State, files: seq<File>) {
    Distinct(files) && forall p | p in st.runs :: st.runs[p].files == files
  }

  /** The tracking table holds exactly the first `n` files. */
  ghost predicate HoldsPrefix(recorded: set<File>, files: seq<File>, n: nat) {
    n <= |files| && forall f :: f in recorded <==> f in files[..n]
  }

  /** ... and the run inside goes on with the others, in order. */
  ghost predicate PrefixInv(st: State, files: seq<File>, n: nat) {
    && SameFiles(st, files)
    && HoldsPrefix(st.recorded, files, n)
    && forall p | p in st.runs && (st.runs[p].pc.Apply? || st.runs[p].pc.Record?) :: Todo(st.runs[p].pc) == files[n..]
  }

  lemma {:induction false} PendingNone(files: seq<File>, recorded: set<File>)
    requires forall f | f in files :: f !in recorded
    ensures Pending(files, recorded) == files
  {
    if files != [] { PendingNone(files[1..], recorded); }
  }

  lemma {:induction false} PendingOfPrefix(files: seq<File>, recorded: set<File>, n: nat)
    requires Distinct(files) && n <= |files| && (forall f | f in files[..n] :: f in recorded)
    requires forall f | f in files[n..] :: f !in recorded
    ensures Pending(files, recorded) == files[n..]
  {
    if n == 0 {
      assert files[0..] == files;
      PendingNone(files, recorded);
    } else {
      var rest := files[1..];
      assert files[0] in files[..n];
      assert rest[..n - 1] == files[..n][1..] && rest[n - 1..] == files[n..];
      assert forall i, j | 0 <= i < j < |rest| :: rest[i] == files[i + 1] && rest[j] == files[j + 1];
      PendingOfPrefix(rest, recorded, n - 1);
    }
  }

  lemma PrefixStep(lockKey: int, st: State, before: set<File>, e: Event, files: seq<File>, n: nat)
    requires Inv(lockKey, st, before) && Enabled(lockKey, st, e) && PrefixInv(st, files, n)
    ensures PrefixInv(After(lockKey, st, e), files, n)
            || (n < |files| && PrefixInv(After(lockKey, st, e), files, n + 1))
  {
    hide LockInv, RunInv, Balanced, Close, Take, Unlock, Pending;
    var st' := After(lockKey, st, e);
    if e.Step? && st.runs[e.p].pc.Read? {
      PrefixRest(files, st.recorded, n);
      PendingOfPrefix(files, st.recorded, n);
      LoopTodo(files[n..]);
      assert PrefixInv(st', files, n);
    } else if e.Step? && st.runs[e.p].pc.Record? {
      PrefixRecord(lockKey, st, e.p, files, n);
    } else {
      assert PrefixInv(st', files, n);
    }
  }

  lemma PrefixRest(files: seq<File>, recorded: set<File>, n: nat)
    requires Distinct(files) && HoldsPrefix(recorded, files, n)
    ensures forall f | f in files[n..] :: f !in recorded
  {
  }

  lemma PrefixRecord(lockKey: int, st: State, p: RunId, files: seq<File>, n: nat)
    requires LockInv(lockKey, st) && PrefixInv(st, files, n) && p in st.runs && st.runs[p].pc.Record?
    ensures n < |files| && PrefixInv(After(lockKey, st, Step(p)), files, n + 1)
  {
    hide Pending;
    var pc := st.runs[p].pc;
    assert Todo(pc) == files[n..];
    assert pc.file == files[n] && pc.rest == files[n + 1..] by {
      assert Todo(pc)[0] == pc.file && Todo(pc)[1..] == pc.rest;
    }
    assert files[..n + 1] == files[..n] + [files[n]];
    LoopTodo(pc.rest);
    forall q | q in st.runs && q != p && (st.runs[q].pc.Apply? || st.runs[q].pc.Record?) ensures false {
      MutualExclusion(lockKey, st, p, q);
    }
  }

  /** If all runs see the same list and the table began as a prefix of it, the table is a
      prefix of it in every reachable state. */
  lemma {:induction false} PrefixKept(lockKey: int, st: State, before: set<File>, events: seq<Event>, files: seq<File>, n: nat)
    returns (m: nat)
    requires Inv(lockKey, st, before) && Possible(lockKey, st, events) && PrefixInv(st, files, n)
    ensures n <= m && PrefixInv(Final(lockKey, st, events), files, m)
    decreases |events|
  {
    hide Inv, PrefixInv, After, Enabled;
    m := n;
    if events != [] {
      InvStep(lockKey, st, before, events[0]);
      PrefixStep(lockKey, st, before, events[0], files, n);
      var st' := After(lockKey, st, events[0]);
      if PrefixInv(st', files, n) {
        m := PrefixKept(lockKey, st', before, events[1..], files, n);
      } else {
        m := PrefixKept(lockKey, st', before, events[1..], files, n + 1);
      }
    }
  }

  /** Over the same sorted list: the recorded files are always a prefix, never shrinking, and
      all of the list once some run has finished without an error. */
  lemma UpAppliesInOrder(lockKey: int, st: State, events: seq<Event>, files: seq<File>, n: nat) returns (m: nat)
    requires Init(st) && Possible(lockKey, st, events) && SameFiles(st, files) && HoldsPrefix(st.recorded, files, n)
    ensures n <= m && HoldsPrefix(Final(lockKey, st, events).recorded, files, m)
    ensures (exists p :: p in Final(lockKey, st, events).runs && Final(lockKey, st, events).runs[p].pc == Finished(true))
            ==> m == |files|
  {
    InitInv(lockKey, st);
    m := PrefixKept(lockKey, st, st.recorded, events, files, n);
    var end := Final(lockKey, st, events);
    PrefixRest(files, end.recorded, m);
    assert m < |files| ==> files[m..][0] == files[m] && files[m] in files[m..];
    if p :| p in end.runs && end.runs[p].pc == Finished(true) {
      UpIsComplete(lockKey, st, events, p);
      assert end.runs[p].files == files;
    }
  }

  // --- Every run goes through its list in order, whatever the table holds ---

  /** The files to do stand in the list in the same order. */
  ghost predicate InOrder(files: seq<File>, todo: seq<File>) {
    forall a, b, k, l | 0 <= a < |files| && 0 <= b < |files| && 0 <= k < l < |todo| && files[a] == todo[k] && files[b] == todo[l] :: a < b
  }

  ghost predicate OrderInv(st: State) {
    forall p | p in st.runs :: InOrder(st.runs[p].files, Todo(st.runs[p].pc))
  }

  lemma {:induction false} PendingInOrder(files: seq<File>, recorded: set<File>)
    requires Distinct(files)
    ensures InOrder(files, Pending(files, recorded))
  {
    PendingNext(files, recorded);
    if files != [] {
      var rest := files[1..];
      assert forall i | 0 <= i < |rest| :: rest[i] == files[i + 1];
      PendingInOrder(rest, recorded);
      PendingExact(rest, recorded);
      hide Pending, InOrder;
      OrderOfRest(files, Pending(rest, recorded));
    }
  }

  lemma OrderOfRest(files: seq<File>, tail: seq<File>)
    requires files != [] && Distinct(files) && InOrder(files[1..], tail) && forall f | f in tail :: f in files[1..]
    ensures InOrder(files, tail) && InOrder(files, [files[0]] + tail)
  {
    var rest := files[1..];
    forall a, b, k, l | 0 <= a < |files| && 0 <= b < |files| && 0 <= k < l < |tail| && files[a] == tail[k] && files[b] == tail[l]
      ensures a < b
    {
      NotFirst(files, tail, a, k);
      NotFirst(files, tail, b, l);
      assert rest[a - 1] == tail[k] && rest[b - 1] == tail[l];
    }
    var todo := [files[0]] + tail;
    forall a, b, k, l | 0 <= a < |files| && 0 <= b < |files| && 0 <= k < l < |todo| && files[a] == todo[k] && files[b] == todo[l]
      ensures a < b
    {
      NotFirst(files, tail, b, l - 1);
      if k > 0 {
        assert files[a] == tail[k - 1] && files[b] == tail[l - 1];
      }
    }
  }

  lemma NotFirst(files: seq<File>, tail: seq<File>, a: nat, k: nat)
    requires files != [] && Distinct(files) && forall f | f in tail :: f in files[1..]
    requires a < |files| && k < |tail| && files[a] == tail[k]
    ensures a > 0
  {
    assert tail[k] in files[1..];
    assert forall i | 0 <= i < |files| - 1 :: files[1..][i] == files[i + 1];
  }

  lemma OrderStep(lockKey: int, st: State, e: Event)
    requires OrderInv(st) && Enabled(lockKey, st, e) && forall p | p in st.runs :: Distinct(st.runs[p].files)
    ensures OrderInv(After(lockKey, st, e))
    ensures forall p | p in After(lockKey, st, e).runs :: Distinct(After(lockKey, st, e).runs[p].files)
  {
    var st' := After(lockKey, st, e);
    forall p | p in st'.runs ensures InOrder(st'.runs[p].files, Todo(st'.runs[p].pc)) && st'.runs[p].files == st.runs[p].files {
      TodoAfter(lockKey, st, e, p);
      var files, todo := st.runs[p].files, Todo(st.runs[p].pc);
      PendingInOrder(files, st.recorded);
      hide After, Todo, Pending;
      if todo != [] {
        assert forall k | 0 <= k < |todo| - 1 :: todo[1..][k] == todo[k + 1];
      }
    }
  }

  /** What an event makes of the files that a run has still to do. */
  lemma TodoAfter(lockKey: int, st: State, e: Event, p: RunId)
    requires Enabled(lockKey, st, e) && p in After(lockKey, st, e).runs
    ensures p in st.runs && After(lockKey, st, e).runs[p].files == st.runs[p].files
    ensures var todo, after := Todo(st.runs[p].pc), Todo(After(lockKey, st, e).runs[p].pc);
            after == todo || after == [] || (todo != [] && after == todo[1..]) || after == Pending(st.runs[p].files, st.recorded)
  {
    hide *;
    if e == Step(p) {
      TodoAfterOwn(lockKey, st, p);
    } else {
      TodoAfterOther(lockKey, st, e, p);
    }
  }

  lemma TodoAfterOwn(lockKey: int, st: State, p: RunId)
    requires Enabled(lockKey, st, Step(p))
    ensures p in st.runs && p in After(lockKey, st, Step(p)).runs && After(lockKey, st, Step(p)).runs[p].files == st.runs[p].files
    ensures var todo, after := Todo(st.runs[p].pc), Todo(After(lockKey, st, Step(p)).runs[p].pc);
            after == todo || after == [] || (todo != [] && after == todo[1..]) || after == Pending(st.runs[p].files, st.recorded)
  {
    hide Pending;
  }

  lemma TodoAfterOther(lockKey: int, st: State, e: Event, p: RunId)
    requires Enabled(lockKey, st, e) && p in After(lockKey, st, e).runs && e != Step(p)
    ensures p in st.runs && After(lockKey, st, e).runs[p].files == st.runs[p].files
    ensures var todo, after := Todo(st.runs[p].pc), Todo(After(lockKey, st, e).runs[p].pc);
            after == todo || after == []
  {
    hide Pending, Take, Unlock, Close, Loop;
  }

  lemma {:induction false} OrderRun(lockKey: int, st: State, events: seq<Event>)
    requires OrderInv(st) && Possible(lockKey, st, events) && forall p | p in st.runs :: Distinct(st.runs[p].files)
    ensures OrderInv(Final(lockKey, st, events))
    decreases |events|
  {
    hide After, Enabled, OrderInv;
    if events != [] {
      OrderStep(lockKey, st, events[0]);
      OrderRun(lockKey, After(lockKey, st, events[0]), events[1..]);
    }
  }

  /** In every reachable state, over any table: a run that executes or records a file of its list has all
      the files before it recorded. */
  lemma UpFollowsList(lockKey: int, st: State, events: seq<Event>, p: RunId, i: nat, j: nat)
    requires Init(st) && Possible(lockKey, st, events) && p in Final(lockKey, st, events).runs
    requires var r := Final(lockKey, st, events).runs[p];
             (r.pc.Apply? || r.pc.Record?) && i < j < |r.files| && r.files[j] == r.pc.file
    ensures Final(lockKey, st, events).runs[p].files[i] in Final(lockKey, st, events).recorded
  {
    InitInv(lockKey, st);
    InvRun(lockKey, st, st.recorded, events);
    assert OrderInv(st);
    OrderRun(lockKey, st, events);
    var end := Final(lockKey, st, events);
    hide Final, Possible, Balanced, LockInv;
    var r, todo := end.runs[p], Todo(end.runs[p].pc);
    assert RunInv(end, r) && InOrder(r.files, todo);
    NotBehind(r.files, todo, i, j);
  }

  lemma NotBehind(files: seq<File>, todo: seq<File>, i: nat, j: nat)
    requires Distinct(files) && InOrder(files, todo) && todo != [] && i < j < |files| && files[j] == todo[0]
    ensures files[i] !in todo
  {
  }

  // --- One run as the source runs it ---

  function Names(files: seq<File>): set<File> {
    set f | f in files
  }

  /** How many files of the list psql applies before it fails on one. */
  function Successes(todo: seq<File>, psql: File -> bool): (n: nat)
    ensures n <= |todo|
    ensures forall k | 0 <= k < n :: psql(todo[k])
    ensures n < |todo| ==> !psql(todo[n])
  {
    if todo == [] || !psql(todo[0]) then 0 else 1 + Successes(todo[1..], psql)
  }

  /** psql accepts every unrecorded file before position `m`, and refuses the file there, if there is one. */
  ghost predicate StopsAt(files: seq<File>, recorded: set<File>, psql: File -> bool, m: nat) {
    && m <= |files|
    && (forall i | 0 <= i < m :: files[i] in recorded || psql(files[i]))
    && (m < |files| ==> files[m] !in recorded && !psql(files[m]))
  }

  /** Of the first `m` files exactly the unrecorded ones have been executed, and all are recorded. */
  ghost predicate ExecutedUpTo(files: seq<File>, m: nat, before: State, after: State) {
    && m <= |files|
    && (forall f :: f in after.recorded <==> f in before.recorded || f in files[..m])
    && (forall f :: after.executed[f] == before.executed[f] + (if f in before.recorded then 0 else multiset(files[..m])[f]))
  }

  /** Where in the list the run stops. */
  lemma {:induction false} StopsSomewhere(files: seq<File>, recorded: set<File>, psql: File -> bool) returns (m: nat)
    ensures StopsAt(files, recorded, psql, m)
    ensures var todo := Pending(files, recorded);
            && Pending(files[..m], recorded) == todo[..Successes(todo, psql)]
            && (Successes(todo, psql) == |todo| <==> m == |files|)
  {
    hide Pending, Successes;
    PendingNext(files, recorded);
    SuccessesNext(Pending(files, recorded), psql);
    if files == [] || (files[0] !in recorded && !psql(files[0])) {
      m := 0;
      PendingNext(files[..0], recorded);
    } else {
      var rest := StopsSomewhere(files[1..], recorded, psql);
      m := rest + 1;
      assert files[..m] != [] && files[..m][1..] == files[1..][..rest];
      PendingNext(files[..m], recorded);
      if files[0] !in recorded {
        assert ([files[0]] + Pending(files[1..], recorded))[1..] == Pending(files[1..], recorded);
      }
    }
  }

  lemma PendingNext(files: seq<File>, recorded: set<File>)
    ensures files == [] ==> Pending(files, recorded) == []
    ensures files != [] ==>
              Pending(files, recorded) == if files[0] in recorded then Pending(files[1..], recorded) else [files[0]] + Pending(files[1..], recorded)
  {
  }

  lemma SuccessesNext(todo: seq<File>, psql: File -> bool)
    ensures Successes(todo, psql) == if todo == [] || !psql(todo[0]) then 0 else 1 + Successes(todo[1..], psql)
  {
  }

  lemma {:induction false} PendingCounts(files: seq<File>, recorded: set<File>, f: File)
    ensures f in Pending(files, recorded) <==> f in files && f !in recorded
    ensures multiset(Pending(files, recorded))[f] == if f in recorded then 0 else multiset(files)[f]
  {
    hide Pending;
    PendingNext(files, recorded);
    if files != [] {
      PendingCounts(files[1..], recorded, f);
      assert files == [files[0]] + files[1..];
    }
  }

  lemma PendingExecuted(files: seq<File>, before: State, after: State, m: nat)
    requires m <= |files|
    requires after.recorded == before.recorded + Names(Pending(files[..m], before.recorded))
    requires after.executed == before.executed + multiset(Pending(files[..m], before.recorded))
    ensures ExecutedUpTo(files, m, before, after)
  {
    hide Pending;
    forall f
      ensures f in after.recorded <==> f in before.recorded || f in files[..m]
      ensures after.executed[f] == before.executed[f] + (if f in before.recorded then 0 else multiset(files[..m])[f])
    {
      PendingCounts(files[..m], before.recorded, f);
    }
  }

  /** The state of run `p` inside the lock when the first `k` of its pending files are done. */
  ghost function Standing(lockKey: int, st: State, p: RunId, todo: seq<File>, k: nat, pc: Pc): State
    requires p in st.runs && k <= |todo| && Grantable(st.locks, p, lockKey)
  {
    State(st.runs[p := st.runs[p].(pc := pc)], Take(st.locks, p, lockKey),
          st.recorded + Names(todo[..k]), st.executed + multiset(todo[..k]), st.lost)
  }

  lemma Entered(lockKey: int, st: State, p: RunId, todo: seq<File>, pc: Pc)
    requires p in st.runs && Grantable(st.locks, p, lockKey)
    ensures Standing(lockKey, st, p, todo, 0, pc) == Goto(st.(locks := Take(st.locks, p, lockKey)), p, pc)
  {
    assert st.recorded + Names([]) == st.recorded;
    assert st.executed + multiset([]) == st.executed && todo[..0] == [];
  }

  lemma FileDone(lockKey: int, st: State, p: RunId, todo: seq<File>, k: nat)
    requires p in st.runs && k < |todo| && Grantable(st.locks, p, lockKey)
    ensures var applying := Standing(lockKey, st, p, todo, k, Loop(todo[k..]));
            && Enabled(lockKey, applying, Step(p)) && Enabled(lockKey, After(lockKey, applying, Step(p)), Step(p))
            && After(lockKey, After(lockKey, applying, Step(p)), Step(p)) == Standing(lockKey, st, p, todo, k + 1, Loop(todo[k + 1..]))
  {
    var applying := Standing(lockKey, st, p, todo, k, Loop(todo[k..]));
    assert todo[k..][1..] == todo[k + 1..] && todo[..k + 1] == todo[..k] + [todo[k]];
    assert Names(todo[..k + 1]) == Names(todo[..k]) + {todo[k]};
    assert applying.recorded + {todo[k]} == st.recorded + Names(todo[..k + 1]);
    assert applying.executed + multiset{todo[k]} == st.executed + multiset(todo[..k + 1]);
    hide After, Enabled, Take, Names, Grantable;
    TwoSteps(lockKey, applying, p, todo[k], todo[k + 1..]);
  }

  /** psql, then the insert. */
  lemma TwoSteps(lockKey: int, st: State, p: RunId, f: File, rest: seq<File>)
    requires p in st.runs && st.runs[p].pc == Apply(f, rest)
    ensures Enabled(lockKey, st, Step(p)) && Enabled(lockKey, After(lockKey, st, Step(p)), Step(p))
    ensures After(lockKey, After(lockKey, st, Step(p)), Step(p)) ==
            State(st.runs[p := st.runs[p].(pc := Loop(rest))], st.locks, st.recorded + {f}, st.executed + multiset{f}, st.lost)
  {
    assert After(lockKey, st, Step(p)).runs[p].pc == Record(f, rest);
  }

  lemma FileRefused(lockKey: int, st: State, p: RunId, todo: seq<File>, k: nat)
    requires p in st.runs && k < |todo| && Grantable(st.locks, p, lockKey)
    ensures var applying := Standing(lockKey, st, p, todo, k, Loop(todo[k..]));
            && Enabled(lockKey, applying, Fail(p))
            && After(lockKey, applying, Fail(p)) == Standing(lockKey, st, p, todo, k, Unlocking(false))
  {
    hide Take, Names;
  }

  /** Unlocking and ending the session leave the lock table as it was. */
  lemma LockReturned(lockKey: int, st: State, p: RunId)
    requires LockInv(lockKey, st) && p in st.runs && st.runs[p].pc.Start? && lockKey !in st.locks
    ensures Close(Unlock(Take(st.locks, p, lockKey), p, lockKey), p) == st.locks
  {
    TakeUnlock(st.locks, p, lockKey);
    forall k | k in st.locks ensures st.locks[k].owner != p {
    }
  }

  /** The database and its clients, driven step by step. */
  class Server {
    const lockKey: int
    var st: State

    constructor (lockKey: int, st: State)
      ensures this.lockKey == lockKey && this.st == st
    {
      this.lockKey, this.st := lockKey, st;
    }

    method Perform(e: Event)
      requires Enabled(lockKey, st, e)
      modifies this
      ensures st == After(lockKey, old(st), e)
    {
      st := After(lockKey, st, e);
    }

    /** From the connection to the reading of the tracking table. */
    method Enter(p: RunId)
      requires p in st.runs && st.runs[p].pc.Start? && lockKey !in st.locks
      modifies this
      ensures var todo := Pending(old(st.runs[p].files), old(st.recorded));
              st == Standing(lockKey, old(st), p, todo, 0, Loop(todo[0..]))
    {
      hide Take, Pending;
      ghost var st0 := st;
      ghost var todo := Pending(st.runs[p].files, st.recorded);
      Perform(Connect(p));
      Perform(Acquire(p));
      Perform(Step(p));
      Perform(Step(p));
      Perform(Step(p));
      Entered(lockKey, st0, p, todo, Loop(todo));
      assert todo[0..] == todo;
    }

    /** The loop over the pending files. */
    method ApplyPending(p: RunId, psql: File -> bool, ghost st0: State, ghost todo: seq<File>) returns (ok: bool)
      requires p in st0.runs && Grantable(st0.locks, p, lockKey)
      requires st == Standing(lockKey, st0, p, todo, 0, Loop(todo[0..]))
      modifies this
      ensures ok <==> Successes(todo, psql) == |todo|
      ensures st == Standing(lockKey, st0, p, todo, Successes(todo, psql), Unlocking(ok))
    {
      hide Take, Successes, Standing, After, Enabled, Loop;
      ghost var k := 0;
      ok := true;
      StandingAt(lockKey, st0, p, todo, 0);
      while ok && st.runs[p].pc.Apply?
        invariant k <= |todo| && p in st.runs
        invariant forall j | 0 <= j < k :: psql(todo[j])
        invariant ok ==> st == Standing(lockKey, st0, p, todo, k, Loop(todo[k..]))
        invariant ok ==> (st.runs[p].pc.Apply? <==> k < |todo|) && (k < |todo| ==> st.runs[p].pc.file == todo[k])
        invariant !ok ==> k < |todo| && !psql(todo[k]) && st == Standing(lockKey, st0, p, todo, k, Unlocking(false))
        decreases ok, |todo| - k
      {
        if psql(st.runs[p].pc.file) {
          FileDone(lockKey, st0, p, todo, k);
          Perform(Step(p));
          Perform(Step(p));
          k := k + 1;
          StandingAt(lockKey, st0, p, todo, k);
        } else {
          FileRefused(lockKey, st0, p, todo, k);
          Perform(Fail(p));
          ok := false;
          StandsIn(lockKey, st0, p, todo, k, Unlocking(false));
        }
      }
      if ok { StandingAt(lockKey, st0, p, todo, k); }
      SuccessesIs(todo, psql, k);
    }

    /** An `up` that nothing interrupts. It executes and records exactly the unrecorded files of its list up to
        the first that psql refuses, or of the whole list; whatever the table held, no file goes before an
        unrecorded one that precedes it. The lock table ends as it began. */
    method Up(p: RunId, psql: File -> bool) returns (ok: bool)
      requires LockInv(lockKey, st) && p in st.runs && st.runs[p].pc.Start? && lockKey !in st.locks
      modifies this
      ensures st.runs == old(st.runs)[p := old(st.runs[p]).(pc := Finished(ok))]
      ensures st.locks == old(st.locks) && st.lost == old(st.lost)
      ensures exists m: nat ::
                && StopsAt(old(st.runs[p].files), old(st.recorded), psql, m)
                && (ok <==> m == |old(st.runs[p].files)|)
                && ExecutedUpTo(old(st.runs[p].files), m, old(st), st)
    {
      ghost var st0 := st;
      ghost var todo := Pending(st.runs[p].files, st.recorded);
      Enter(p);
      hide Take, Close, Unlock, LockInv, Pending, Successes, Standing, After, Enabled, Loop;
      ok := ApplyPending(p, psql, st0, todo);
      Leaves(lockKey, st0, p, todo, Successes(todo, psql), ok);
      Perform(Unlocked(p));
      Perform(Ended(p));
      ghost var m := StopsSomewhere(st0.runs[p].files, st0.recorded, psql);
      PendingExecuted(st0.runs[p].files, st0, st, m);
    }
  }

  lemma StandsIn(lockKey: int, st: State, p: RunId, todo: seq<File>, k: nat, pc: Pc)
    requires p in st.runs && k <= |todo| && Grantable(st.locks, p, lockKey)
    ensures p in Standing(lockKey, st, p, todo, k, pc).runs
  {
  }

  /** The loop goes on exactly while a file is pending. */
  lemma StandingAt(lockKey: int, st: State, p: RunId, todo: seq<File>, k: nat)
    requires p in st.runs && k <= |todo| && Grantable(st.locks, p, lockKey)
    ensures p in Standing(lockKey, st, p, todo, k, Loop(todo[k..])).runs
    ensures var pc := Standing(lockKey, st, p, todo, k, Loop(todo[k..])).runs[p].pc;
            && pc == Loop(todo[k..]) && (pc.Apply? <==> k < |todo|)
            && (k < |todo| ==> pc.file == todo[k])
            && (k == |todo| ==> pc == Unlocking(true))
  {
  }

  lemma {:induction false} SuccessesIs(todo: seq<File>, psql: File -> bool, k: nat)
    requires k <= |todo| && (forall j | 0 <= j < k :: psql(todo[j])) && (k < |todo| ==> !psql(todo[k]))
    ensures Successes(todo, psql) == k
  {
    if k > 0 {
      SuccessesIs(todo[1..], psql, k - 1);
    }
  }

  lemma Leaves(lockKey: int, st: State, p: RunId, todo: seq<File>, k: nat, ok: bool)
    requires LockInv(lockKey, st) && p in st.runs && st.runs[p].pc.Start? && lockKey !in st.locks && k <= |todo|
    ensures var leaving := Standing(lockKey, st, p, todo, k, Unlocking(ok));
            && Enabled(lockKey, leaving, Unlocked(p))
            && Enabled(lockKey, After(lockKey, leaving, Unlocked(p)), Ended(p))
            && After(lockKey, After(lockKey, leaving, Unlocked(p)), Ended(p))
            == State(st.runs[p := st.runs[p].(pc := Finished(ok))], st.locks,
                     st.recorded + Names(todo[..k]), st.executed + multiset(todo[..k]), st.lost)
  {
    LockReturned(lockKey, st, p);
    hide Take, Close, Unlock, LockInv;
  }

  // --- A crash can make a file run twice ---

  /** The state with run `p` over one file standing at `pc`. */
  function At(st: State, p: RunId, f: File, pc: Pc): State {
    st.(runs := st.runs[p := Run([f], pc)])
  }

  /** A run gets the lock and reaches its first statement. */
  lemma Locks(lockKey: int, st: State, p: RunId, f: File)
    requires p in st.runs && st.runs[p] == Run([f], Start) && lockKey !in st.locks
    ensures Enabled(lockKey, st, Connect(p)) && After(lockKey, st, Connect(p)) == At(st, p, f, Blocked)
    ensures var locked := st.(locks := Take(st.locks, p, lockKey));
            && Enabled(lockKey, At(st, p, f, Blocked), Acquire(p))
            && After(lockKey, At(st, p, f, Blocked), Acquire(p)) == At(locked, p, f, Schema)
  {
    hide Take;
  }

  /** It reaches the reading of the tracking table ... */
  lemma Reaches(lockKey: int, st: State, p: RunId, f: File)
    ensures Enabled(lockKey, At(st, p, f, Schema), Step(p)) && After(lockKey, At(st, p, f, Schema), Step(p)) == At(st, p, f, Track)
    ensures Enabled(lockKey, At(st, p, f, Track), Step(p)) && After(lockKey, At(st, p, f, Track), Step(p)) == At(st, p, f, Read)
  {
  }

  /** ... and runs it. */
  lemma Executes(lockKey: int, st: State, p: RunId, f: File)
    requires f !in st.recorded
    ensures Enabled(lockKey, At(st, p, f, Read), Step(p)) && After(lockKey, At(st, p, f, Read), Step(p)) == At(st, p, f, Apply(f, []))
    ensures Enabled(lockKey, At(st, p, f, Apply(f, [])), Step(p))
    ensures After(lockKey, At(st, p, f, Apply(f, [])), Step(p)) == At(st.(executed := st.executed + multiset{f}), p, f, Record(f, []))
  {
    assert Pending([f], st.recorded) == [f] by { assert [f][1..] == []; }
    assert [f][1..] == [];
  }

  /** The run's statements up to and including psql on its only file. */
  lemma RunsFile(lockKey: int, st: State, p: RunId, f: File) returns (end: State)
    requires p in st.runs && st.runs[p] == Run([f], Start) && lockKey !in st.locks && f !in st.recorded
    ensures Possible(lockKey, st, UpToRecord(p)) && end == Final(lockKey, st, UpToRecord(p))
    ensures end == At(st.(locks := Take(st.locks, p, lockKey), executed := st.executed + multiset{f}), p, f, Record(f, []))
  {
    var locked := st.(locks := Take(st.locks, p, lockKey));
    var events := UpToRecord(p);
    Locks(lockKey, st, p, f);
    Reaches(lockKey, locked, p, f);
    Executes(lockKey, locked, p, f);
    end := At(locked.(executed := locked.executed + multiset{f}), p, f, Record(f, []));
    hide Take, Possible, Final, After, Enabled, At;
    NoEvent(lockKey, end);
    OneEvent(lockKey, At(locked, p, f, Apply(f, [])), events[5..]);
    OneEvent(lockKey, At(locked, p, f, Read), events[4..]);
    OneEvent(lockKey, At(locked, p, f, Track), events[3..]);
    OneEvent(lockKey, At(locked, p, f, Schema), events[2..]);
    OneEvent(lockKey, At(st, p, f, Blocked), events[1..]);
    OneEvent(lockKey, st, events);
    assert events[5..][1..] == [] && events[4..][1..] == events[5..] && events[3..][1..] == events[4..];
    assert events[2..][1..] == events[3..] && events[1..][1..] == events[2..];
  }

  function UpToRecord(p: RunId): seq<Event> {
    [Connect(p), Acquire(p), Step(p), Step(p), Step(p), Step(p)]
  }

  lemma NoEvent(lockKey: int, st: State)
    ensures Possible(lockKey, st, []) && Final(lockKey, st, []) == st
  {
  }

  lemma OneEvent(lockKey: int, st: State, events: seq<Event>)
    requires events != [] && Enabled(lockKey, st, events[0])
    ensures Possible(lockKey, st, events) <==> Possible(lockKey, After(lockKey, st, events[0]), events[1..])
    ensures Possible(lockKey, st, events) ==>
              Final(lockKey, st, events) == Final(lockKey, After(lockKey, st, events[0]), events[1..])
  {
  }

  lemma {:induction false} Continue(lockKey: int, st: State, first: seq<Event>, second: seq<Event>)
    requires Possible(lockKey, st, first) && Possible(lockKey, Final(lockKey, st, first), second)
    ensures Possible(lockKey, st, first + second)
    ensures Final(lockKey, st, first + second) == Final(lockKey, Final(lockKey, st, first), second)
    decreases |first|
  {
    hide After, Enabled;
    if first == [] {
      assert first + second == second;
    } else {
      assert (first + second)[1..] == first[1..] + second;
      Continue(lockKey, After(lockKey, st, first[0]), first[1..], second);
    }
  }

  function TwoRuns(f: File): State {
    State(map[0 := Run([f], Start), 1 := Run([f], Start)], map[], {}, multiset{}, multiset{})
  }

  lemma CrashFrees(lockKey: int, f: File, s: State)
    requires s == At(TwoRuns(f).(locks := Take(map[], 0, lockKey), executed := multiset{f}), 0, f, Record(f, []))
    ensures Enabled(lockKey, s, Crash(0))
    ensures var after := After(lockKey, s, Crash(0));
            && 1 in after.runs && after.runs[1] == Run([f], Start)
            && lockKey !in after.locks && f !in after.recorded && after.executed == multiset{f}
  {
  }

  /** One run dies between psql and the insert, a second one comes along: the file has run twice. */
  lemma CrashRepeatsFile(lockKey: int, f: File)
    ensures var events := UpToRecord(0) + ([Crash(0)] + UpToRecord(1));
            Init(TwoRuns(f)) && Possible(lockKey, TwoRuns(f), events) && Final(lockKey, TwoRuns(f), events).executed[f] == 2
  {
    hide Possible, Final, After, Enabled;
    var st := TwoRuns(f);
    var s1 := RunsFile(lockKey, st, 0, f);
    assert multiset{} + multiset{f} == multiset{f};
    CrashFrees(lockKey, f, s1);
    var s3 := RunsFile(lockKey, After(lockKey, s1, Crash(0)), 1, f);
    assert ([Crash(0)] + UpToRecord(1))[1..] == UpToRecord(1);
    OneEvent(lockKey, s1, [Crash(0)] + UpToRecord(1));
    Continue(lockKey, st, UpToRecord(0), [Crash(0)] + UpToRecord(1));
  }
}
