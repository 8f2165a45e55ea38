/** client-tenant/src/lib/demoCapture.ts: cutting a recorded session into uploaded segments. An upload
    counts as made when it is issued. The funnel events and their debounce timer are left out. */
module DemoCapture {
  import opened Lists
  import opened Options
  import opened Strings
  import Decimal

  /** An rrweb event; its content is opaque. */
  type Event = int

  /** One recorded event with the flag that the callback is given. */
  datatype Emitted = Emitted(event: Event, isCheckout: bool)

  datatype Segment = Segment(run: string, index: nat, batch: seq<Emitted>)

  /** Module state. `runId`: None also stands for the empty string. */
  datatype State = State(started: bool, runId: Option<string>, segment: seq<Emitted>, segSeq: nat, segmentsWritten: nat)

  datatype Op = Start(runId: Option<string>) | Emit(e: Emitted) | Exit | Stop

  const INITIAL := State(false, None, [], 0, 0)

  /** What one operation uploads. */
  function Sealed(s: State): seq<Segment> {
    if s.runId == None || s.segment == [] then [] else [Segment(s.runId.value, s.segSeq, s.segment)]
  }

  function Flushed(s: State): State {
    if s.runId == None || s.segment == [] then s
    else s.(segment := [], segSeq := s.segSeq + 1, segmentsWritten := s.segmentsWritten + 1)
  }

  /** Start is called only in a demo session with uploads configured. */
  function Step(s: State, op: Op): (State, seq<Segment>) {
    match op
    case Start(runId) =>
      if s.started then (s, []) else if runId == None then (s.(runId := None), []) else (s.(runId := runId, started := true), [])
    case Emit(e) =>
      if e.isCheckout then (Flushed(s).(segment := Flushed(s).segment + [e]), Sealed(s))
      else (s.(segment := s.segment + [e]), [])
    case Exit => (Flushed(s), Sealed(s))
    case Stop => (Flushed(s).(started := false), Sealed(s))
  }

  /** State and uploads after a history. */
  function Run(ops: seq<Op>): (State, seq<Segment>) {
    if ops == [] then (INITIAL, [])
    else
      var (s, uploads) := Run(ops[..|ops| - 1]);
      var (s', more) := Step(s, ops[|ops| - 1]);
      (s', uploads + more)
  }

  lemma RunNext(ops: seq<Op>, op: Op)
    ensures Run(ops + [op]) == (Step(Run(ops).0, op).0, Run(ops).1 + Step(Run(ops).0, op).1)
  {
    assert (ops + [op])[..|ops|] == ops;
  }

  /** The module's variables, the uploads it has issued and the segment counts of its manifests. */
  class Capture {
    var started: bool
    var runId: Option<string>
    var segment: seq<Emitted>
    var segSeq: nat
    var segmentsWritten: nat
    var uploads: seq<Segment>
    ghost var history: seq<Op>

    ghost predicate Valid()
      reads this
    {
      Run(history) == (State(started, runId, segment, segSeq, segmentsWritten), uploads)
    }

    constructor ()
      ensures Valid() && history == []
    {
      started, runId, segment, segSeq, segmentsWritten := false, None, [], 0, 0;
      uploads, history := [], [];
    }

    method FlushSegment()
      modifies this`segment, this`segSeq, this`segmentsWritten, this`uploads
      ensures var s := State(started, old(runId), old(segment), old(segSeq), old(segmentsWritten));
              State(started, runId, segment, segSeq, segmentsWritten) == Flushed(s) && uploads == old(uploads) + Sealed(s)
    {
      if runId == None || segment == [] { return; }
      var batch, index := segment, segSeq;
      segment := [];
      segSeq := segSeq + 1;
      segmentsWritten := segmentsWritten + 1;
      uploads := uploads + [Segment(runId.value, index, batch)];
    }

    method StartDemoCapture(currentRun: Option<string>)
      requires Valid()
      modifies this
      ensures Valid() && history == old(history) + [Start(currentRun)]
    {
      hide Run;
      RunNext(history, Start(currentRun));
      history := history + [Start(currentRun)];
      assert uploads + [] == uploads;
      if started { return; }
      runId := currentRun;
      if runId == None { return; }
      started := true;
    }

    method OnEmit(e: Emitted)
      requires Valid()
      modifies this
      ensures Valid() && history == old(history) + [Emit(e)]
    {
      hide Run;
      RunNext(history, Emit(e));
      history := history + [Emit(e)];
      assert uploads + [] == uploads;
      if e.isCheckout && |segment| > 0 {
        FlushSegment();
      }
      segment := segment + [e];
    }

    /** The manifest records how many segments were written; they hold the whole session. */
    method OnExit() returns (replaySegments: nat)
      requires Valid()
      modifies this
      ensures Valid() && history == old(history) + [Exit]
      ensures runId.Some? ==> replaySegments == |uploads| && Flatten(Batches(uploads)) == Recorded(history)
    {
      hide Flatten, Batches, Recorded, Run;
      RunNext(history, Exit);
      history := history + [Exit];
      FlushSegment();
      replaySegments := segmentsWritten;
      AllUploaded(history);
    }

    method StopDemoCapture() returns (replaySegments: nat)
      requires Valid()
      modifies this
      ensures Valid() && history == old(history) + [Stop]
      ensures runId.Some? ==> replaySegments == |uploads| && Flatten(Batches(uploads)) == Recorded(history)
    {
      hide Flatten, Batches, Recorded, Run;
      RunNext(history, Stop);
      history := history + [Stop];
      FlushSegment();
      replaySegments := segmentsWritten;
      started := false;
      AllUploaded(history);
    }
  }

  // --- Nothing is lost, reordered or written twice ---

  /** Everything the recorder emitted, in order. */
  ghost function Recorded(ops: seq<Op>): seq<Emitted> {
    if ops == [] then []
    else
      var op := ops[|ops| - 1];
      Recorded(ops[..|ops| - 1]) + (if op.Emit? then [op.e] else [])
  }

  ghost function Batches(uploads: seq<Segment>): seq<seq<Emitted>> {
    seq(|uploads|, k requires 0 <= k < |uploads| => uploads[k].batch)
  }

  /** Segments are numbered from 0 without gaps. */
  ghost predicate Numbered(uploads: seq<Segment>) {
    forall k | 0 <= k < |uploads| :: uploads[k].index == k && uploads[k].batch != []
  }

  ghost predicate Kept(s: State, uploads: seq<Segment>, recorded: seq<Emitted>) {
    && Flatten(Batches(uploads)) + s.segment == recorded
    && Numbered(uploads) && |uploads| == s.segSeq == s.segmentsWritten
  }

  /** Over every history the uploaded segments followed by the open one are the recorded events, the
      segments are numbered in order, and none is empty. */
  lemma {:induction false} NothingLost(ops: seq<Op>)
    ensures Kept(Run(ops).0, Run(ops).1, Recorded(ops))
  {
    if ops == [] {
      assert Batches([]) == [];
    } else {
      hide Kept, Step;
      NothingLost(ops[..|ops| - 1]);
      StepKeeps(Run(ops[..|ops| - 1]).0, Run(ops[..|ops| - 1]).1, Recorded(ops[..|ops| - 1]), ops[|ops| - 1]);
    }
  }

  lemma StepKeeps(s: State, uploads: seq<Segment>, recorded: seq<Emitted>, op: Op)
    requires Kept(s, uploads, recorded)
    ensures Kept(Step(s, op).0, uploads + Step(s, op).1, recorded + (if op.Emit? then [op.e] else []))
  {
    hide Flatten, Batches, Numbered;
    FlushKeeps(s, uploads);
    assert uploads + [] == uploads && recorded + [] == recorded;
    if op.Emit? {
      var at := if op.e.isCheckout then Flushed(s) else s;
      var more := if op.e.isCheckout then Sealed(s) else [];
      Associate(Flatten(Batches(uploads + more)), at.segment, op.e);
    }
  }

  /** With nothing in the open segment, the uploads hold the whole session. */
  lemma AllUploaded(ops: seq<Op>)
    ensures var (s, uploads) := Run(ops);
            |uploads| == s.segmentsWritten && (s.segment == [] ==> Flatten(Batches(uploads)) == Recorded(ops))
  {
    NothingLost(ops);
    var (s, uploads) := Run(ops);
    assert s.segment == [] ==> Flatten(Batches(uploads)) + s.segment == Flatten(Batches(uploads));
  }

  lemma FlushKeeps(s: State, uploads: seq<Segment>)
    requires Numbered(uploads) && |uploads| == s.segSeq == s.segmentsWritten
    ensures Flatten(Batches(uploads + Sealed(s))) + Flushed(s).segment == Flatten(Batches(uploads)) + s.segment
    ensures Numbered(uploads + Sealed(s)) && |uploads + Sealed(s)| == Flushed(s).segSeq == Flushed(s).segmentsWritten
  {
    if Sealed(s) == [] {
      assert uploads + Sealed(s) == uploads;
    } else {
      assert Batches(uploads + Sealed(s)) == Batches(uploads) + [s.segment];
      FlattenPush(Batches(uploads), s.segment);
    }
  }

  lemma Associate(a: seq<Emitted>, b: seq<Emitted>, e: Emitted)
    ensures a + (b + [e]) == (a + b) + [e]
  {
  }

  // --- Names ---

  function Number(segment: Segment): string {
    Decimal.PadZero(Decimal.Print(segment.index), 3)
  }

  function Path(segment: Segment): string {
    "demo/" + segment.run + "/replay-" + Number(segment) + ".json"
  }

  /** The file of a segment: its index in decimal, with zeros in front up to three digits. */
  lemma PathExactly(segment: Segment)
    ensures exists digits ::
              && Path(segment) == "demo/" + segment.run + "/replay-" + digits + ".json"
              && Decimal.AllDigits(digits) && Decimal.Value(digits) == segment.index
              && |digits| >= 3 && (|digits| > 3 ==> digits[0] != '0')
  {
    Decimal.PaddedValue(segment.index, 3);
    Decimal.PaddedLength(Decimal.Print(segment.index), 3);
    Decimal.NoLeadingZero(segment.index);
    hide Decimal.PadZero, Decimal.Print, Decimal.Value;
    assert Path(segment) == "demo/" + segment.run + "/replay-" + Number(segment) + ".json";
  }

  /** No upload overwrites another, even when the run id changes in between. */
  lemma PathsDistinct(ops: seq<Op>, i: nat, j: nat)
    requires i < j < |Run(ops).1|
    ensures Path(Run(ops).1[i]) != Path(Run(ops).1[j])
  {
    NothingLost(ops);
    if Path(Run(ops).1[i]) == Path(Run(ops).1[j]) {
      PathIndex(Run(ops).1[i], Run(ops).1[j]);
    }
  }

  lemma PathIndex(a: Segment, b: Segment)
    requires Path(a) == Path(b)
    ensures a.index == b.index
  {
    Decimal.PaddedValue(a.index, 3);
    Decimal.PaddedValue(b.index, 3);
    var front, front' := "demo/" + a.run + "/replay-", "demo/" + b.run + "/replay-";
    assert Path(a) == front + Number(a) + ".json" && Path(b) == front' + Number(b) + ".json";
    SameTail(front + Number(a), front' + Number(b), ".json");
    DashBound(front, Number(a), front', Number(b));
    DashBound(front', Number(b), front, Number(a));
    assert Number(a) == (front + Number(a))[|front|..] && Number(b) == (front' + Number(b))[|front'|..];
  }

  lemma SameTail(a: string, b: string, tail: string)
    requires a + tail == b + tail
    ensures a == b
  {
    assert |a| == |b|;
    assert a == (a + tail)[..|a|] && b == (b + tail)[..|b|];
  }

  /** No dash comes later than the last one. */
  lemma DashBound(a: string, m: string, b: string, n: string)
    requires a + m == b + n && Decimal.AllDigits(n)
    requires a != "" && a[|a| - 1] == '-'
    ensures |a| <= |b|
  {
    assert forall k | |b| <= k < |b + n| :: (b + n)[k] == n[k - |b|];
    assert (a + m)[|a| - 1] == '-';
  }

  /** Up to a thousand segments the order of the names is the order of the segments. */
  lemma NameOrder(m: nat, n: nat)
    requires m < n < 1000
    ensures Before(Decimal.PadZero(Decimal.Print(m), 3), Decimal.PadZero(Decimal.Print(n), 3))
  {
    ThreeDigits(m);
    ThreeDigits(n);
    BeforeThree(Decimal.PadZero(Decimal.Print(m), 3), Decimal.PadZero(Decimal.Print(n), 3));
    DigitOrder(m, n);
  }

  lemma SumOfDigits(n: nat)
    ensures n == 100 * (n / 100) + 10 * (n / 10 % 10) + n % 10
    ensures 0 <= n / 10 % 10 <= 9 && 0 <= n % 10 <= 9
  {
    assert n / 100 == n / 10 / 10;
  }

  lemma DigitOrder(m: nat, n: nat)
    requires m < n < 1000
    ensures m / 100 < n / 100 ||
            (m / 100 == n / 100 && (m / 10 % 10 < n / 10 % 10 || (m / 10 % 10 == n / 10 % 10 && m % 10 < n % 10)))
  {
    SumOfDigits(m);
    SumOfDigits(n);
  }

  lemma BeforeThree(a: string, b: string)
    requires |a| == 3 && |b| == 3
    ensures Before(a, b) <==> a[0] < b[0] || (a[0] == b[0] && (a[1] < b[1] || (a[1] == b[1] && a[2] < b[2])))
  {
    assert a[1..][1..] == [a[2]] && b[1..][1..] == [b[2]];
    assert Before([a[2]], [b[2]]) <==> a[2] < b[2];
    assert Before(a[1..], b[1..]) <==> a[1] < b[1] || (a[1] == b[1] && Before(a[1..][1..], b[1..][1..]));
  }

  lemma ThreeDigits(n: nat)
    requires n < 1000
    ensures Decimal.PadZero(Decimal.Print(n), 3) ==
            [Decimal.DigitChar(n / 100), Decimal.DigitChar(n / 10 % 10), Decimal.DigitChar(n % 10)]
  {
    var a, b, c := Decimal.DigitChar(n / 100), Decimal.DigitChar(n / 10 % 10), Decimal.DigitChar(n % 10);
    if n < 10 {
      assert Decimal.Print(n) == [c];
      assert "0" + [c] == ['0', c] && "0" + ['0', c] == ['0', '0', c];
      assert Decimal.PadZero(['0', c], 3) == Decimal.PadZero("0" + ['0', c], 3);
    } else if n < 100 {
      assert Decimal.Print(n) == [b] + [c] == [b, c];
      assert "0" + [b, c] == ['0', b, c];
    } else {
      assert Decimal.Print(n / 10) == [a] + [b] == [a, b];
      assert Decimal.Print(n) == [a, b] + [c] == [a, b, c];
    }
  }

  /** After that it is not: the thousand and first segment sorts before the thousandth. */
  lemma NameOrderBreaks()
    ensures Before(Decimal.PadZero(Decimal.Print(1000), 3), Decimal.PadZero(Decimal.Print(999), 3))
  {
    assert Decimal.Print(1000) == "1000" && Decimal.Print(999) == "999";
  }

  // --- Segments and full snapshots ---

  /** Whether capture is started and under which run id, as the starts and stops alone say. */
  ghost function Registered(ops: seq<Op>): (bool, Option<string>) {
    if ops == [] then (false, None)
    else
      var before := Registered(ops[..|ops| - 1]);
      match ops[|ops| - 1]
      case Start(runId) => if before.0 then before else (runId.Some?, runId)
      case Stop => (false, before.1)
      case _ => before
  }

  lemma {:induction false} RegisteredExactly(ops: seq<Op>)
    ensures Registered(ops) == (Run(ops).0.started, Run(ops).0.runId)
  {
    if ops != [] {
      RegisteredExactly(ops[..|ops| - 1]);
    }
  }

  /** The page is hidden, left or stopped while there is a run to upload to. */
  ghost predicate LeavesAt(ops: seq<Op>, j: int) {
    0 <= j < |ops| && (ops[j].Exit? || ops[j].Stop?) && Registered(ops[..j]).1.Some?
  }

  ghost predicate EmitsIn(ops: seq<Op>, lo: int, hi: int) {
    exists k | lo <= k < hi :: 0 <= k < |ops| && ops[k].Emit?
  }

  /** Something was recorded, then the page was left, and nothing has been recorded since. */
  ghost predicate Interrupted(ops: seq<Op>) {
    exists j :: LeavesAt(ops, j) && EmitsIn(ops, 0, j) && !EmitsIn(ops, j, |ops|)
  }

  /** Operation `i` records an event without the checkout flag, the first one after such an interruption. */
  ghost predicate ResumesBare(ops: seq<Op>, i: int) {
    0 <= i < |ops| && ops[i].Emit? && !ops[i].e.isCheckout && Interrupted(ops[..i])
  }

  /** Every segment after the first starts with a full snapshot, the open one included. */
  ghost predicate SelfContained(s: State, uploads: seq<Segment>) {
    && (forall k | 0 < k < |uploads| :: uploads[k].batch != [] && uploads[k].batch[0].isCheckout)
    && (uploads != [] && s.segment != [] ==> s.segment[0].isCheckout)
  }

  lemma EmitsNext(ops: seq<Op>, op: Op, lo: int)
    requires 0 <= lo <= |ops|
    ensures EmitsIn(ops + [op], lo, |ops| + 1) <==> EmitsIn(ops, lo, |ops|) || op.Emit?
    ensures forall hi | hi <= |ops| :: EmitsIn(ops + [op], 0, hi) <==> EmitsIn(ops, 0, hi)
  {
    var longer := ops + [op];
    assert longer[|ops|] == op && forall k | 0 <= k < |ops| :: longer[k] == ops[k];
  }

  lemma LeavesNext(ops: seq<Op>, op: Op, j: int)
    ensures LeavesAt(ops + [op], j) <==>
              LeavesAt(ops, j) || (j == |ops| && (op.Exit? || op.Stop?) && Registered(ops).1.Some?)
  {
    var longer := ops + [op];
    assert longer[|ops|] == op && longer[..|ops|] == ops;
    if 0 <= j < |ops| {
      assert longer[j] == ops[j] && longer[..j] == ops[..j];
    }
  }

  lemma InterruptedNext(ops: seq<Op>, op: Op)
    ensures Interrupted(ops + [op]) <==>
              !op.Emit? && (Interrupted(ops) ||
                            ((op.Exit? || op.Stop?) && Registered(ops).1.Some? && EmitsIn(ops, 0, |ops|)))
  {
    var longer, n := ops + [op], |ops|;
    forall j ensures LeavesAt(longer, j) <==> LeavesAt(ops, j) || (j == n && (op.Exit? || op.Stop?) && Registered(ops).1.Some?) {
      LeavesNext(ops, op, j);
    }
    forall j | 0 <= j <= n
      ensures EmitsIn(longer, j, n + 1) <==> EmitsIn(ops, j, n) || op.Emit?
      ensures EmitsIn(longer, 0, j) <==> EmitsIn(ops, 0, j)
    {
      EmitsNext(ops, op, j);
    }
    LeavesInRange(ops);
    hide LeavesAt, EmitsIn, Registered;
    if Interrupted(ops) && !op.Emit? {
      var j :| LeavesAt(ops, j) && EmitsIn(ops, 0, j) && !EmitsIn(ops, j, n);
      assert LeavesAt(longer, j) && EmitsIn(longer, 0, j) && !EmitsIn(longer, j, n + 1);
    }
    if !op.Emit? && (op.Exit? || op.Stop?) && Registered(ops).1.Some? && EmitsIn(ops, 0, n) {
      NoneInEmpty(ops);
      assert LeavesAt(longer, n) && EmitsIn(longer, 0, n) && !EmitsIn(longer, n, n + 1);
    }
  }

  lemma LeavesInRange(ops: seq<Op>)
    ensures forall j | LeavesAt(ops, j) :: 0 <= j < |ops|
  {
  }

  lemma NoneInEmpty(ops: seq<Op>)
    ensures !EmitsIn(ops, |ops|, |ops|)
  {
  }

  /** An interruption is an empty segment behind uploaded ones. */
  lemma {:induction false} InterruptedIsEmpty(ops: seq<Op>)
    ensures var (s, uploads) := Run(ops);
            && (EmitsIn(ops, 0, |ops|) <==> s.segment != [] || uploads != [])
            && (Interrupted(ops) <==> s.segment == [] && uploads != [])
  {
    hide *;
    if ops == [] {
      NeverInterrupted();
    } else {
      var before, op := ops[..|ops| - 1], ops[|ops| - 1];
      assert ops == before + [op];
      InterruptedIsEmpty(before);
      RegisteredExactly(before);
      InterruptedNext(before, op);
      EmitsNext(before, op, 0);
      RunNext(before, op);
      StepEmpties(Run(before).0, Run(before).1, op);
    }
  }

  lemma NeverInterrupted()
    ensures !EmitsIn([], 0, 0) && !Interrupted([]) && Run([]) == (INITIAL, []) && INITIAL.segment == []
  {
  }

  lemma StepEmpties(s: State, uploads: seq<Segment>, op: Op)
    ensures var (s', more) := Step(s, op);
            && (s'.segment != [] || uploads + more != [] <==> s.segment != [] || uploads != [] || op.Emit?)
            && (s'.segment == [] && uploads + more != [] <==>
                  !op.Emit? && ((s.segment == [] && uploads != [])
                                || ((op.Exit? || op.Stop?) && s.runId.Some? && (s.segment != [] || uploads != []))))
  {
    assert uploads + [] == uploads;
  }

  lemma StepSelfContained(s: State, uploads: seq<Segment>, op: Op)
    requires Numbered(uploads)
    ensures SelfContained(Step(s, op).0, uploads + Step(s, op).1) <==>
              SelfContained(s, uploads) && !(op.Emit? && !op.e.isCheckout && s.segment == [] && uploads != [])
  {
    var (s', more) := Step(s, op);
    if more == [] {
      assert uploads + more == uploads;
    } else {
      assert more == [Segment(s.runId.value, s.segSeq, s.segment)];
      assert forall k | 0 <= k < |uploads| :: (uploads + more)[k] == uploads[k];
      assert (uploads + more)[|uploads|].batch == s.segment;
    }
  }

  lemma BareNext(ops: seq<Op>, op: Op)
    ensures (forall i :: !ResumesBare(ops + [op], i)) <==>
              (forall i :: !ResumesBare(ops, i)) && !(op.Emit? && !op.e.isCheckout && Interrupted(ops))
  {
    var longer := ops + [op];
    assert longer[|ops|] == op && longer[..|ops|] == ops;
    forall i | 0 <= i < |ops| ensures ResumesBare(longer, i) <==> ResumesBare(ops, i) {
      assert longer[i] == ops[i] && longer[..i] == ops[..i];
    }
    hide Interrupted;
    assert ResumesBare(longer, |ops|) <==> op.Emit? && !op.e.isCheckout && Interrupted(ops);
    hide ResumesBare;
    assert forall i | !(0 <= i < |ops|) :: !ResumesBare(ops, i) by { BareInRange(ops); }
    assert forall i | !(0 <= i <= |ops|) :: !ResumesBare(longer, i) by { BareInRange(longer); }
  }

  lemma BareInRange(ops: seq<Op>)
    ensures forall i | !(0 <= i < |ops|) :: !ResumesBare(ops, i)
  {
  }

  /** Over every history of starts, events, exits and stops: each segment after the first is
      self-contained if and only if recording never resumes with an event without the checkout flag after
      the page was hidden, left or stopped. */
  lemma {:induction false} SelfContainedExactly(ops: seq<Op>)
    ensures SelfContained(Run(ops).0, Run(ops).1) <==> forall i :: !ResumesBare(ops, i)
  {
    hide *;
    if ops == [] {
      NothingBare();
    } else {
      var before, op := ops[..|ops| - 1], ops[|ops| - 1];
      assert ops == before + [op];
      SelfContainedExactly(before);
      BareNext(before, op);
      InterruptedIsEmpty(before);
      RunNext(before, op);
      NumberedAlways(before);
      StepSelfContained(Run(before).0, Run(before).1, op);
    }
  }

  lemma NothingBare()
    ensures SelfContained(Run([]).0, Run([]).1) && forall i :: !ResumesBare([], i)
  {
  }

  lemma NumberedAlways(ops: seq<Op>)
    ensures Numbered(Run(ops).1)
  {
    NothingLost(ops);
  }

  /** While the page stays visible every segment after the first is self-contained. */
  lemma VisibleIsSelfContained(ops: seq<Op>)
    requires forall j | 0 <= j < |ops| :: !ops[j].Exit? && !ops[j].Stop?
    ensures SelfContained(Run(ops).0, Run(ops).1)
  {
    forall i ensures !ResumesBare(ops, i) {
      if 0 <= i < |ops| {
        assert forall j | 0 <= j < i :: ops[..i][j] == ops[j];
      }
    }
    SelfContainedExactly(ops);
  }

  /** No full snapshot starts inside the segment. */
  ghost predicate UncutAfterStart(batch: seq<Emitted>) {
    forall k | 0 < k < |batch| :: !batch[k].isCheckout
  }

  ghost predicate AllUncut(s: State, uploads: seq<Segment>) {
    UncutAfterStart(s.segment) && forall k | 0 <= k < |uploads| :: UncutAfterStart(uploads[k].batch)
  }

  lemma StepUncut(s: State, uploads: seq<Segment>, op: Op)
    requires AllUncut(s, uploads) && (op.Emit? ==> s.runId.Some?)
    ensures AllUncut(Step(s, op).0, uploads + Step(s, op).1)
  {
  }

  /** If events are recorded only under a run, a full snapshot stands at the start of a segment only. */
  lemma {:induction false} SnapshotsStartSegments(ops: seq<Op>)
    requires forall i | 0 <= i < |ops| && ops[i].Emit? :: Registered(ops[..i]).1.Some?
    ensures AllUncut(Run(ops).0, Run(ops).1)
  {
    if ops != [] {
      var before, op := ops[..|ops| - 1], ops[|ops| - 1];
      assert ops == before + [op];
      forall i | 0 <= i < |before| && before[i].Emit? ensures Registered(before[..i]).1.Some? {
        assert before[i] == ops[i] && before[..i] == ops[..i];
      }
      SnapshotsStartSegments(before);
      RegisteredExactly(before);
      RunNext(before, op);
      hide AllUncut, Run;
      StepUncut(Run(before).0, Run(before).1, op);
    }
  }

  /** Hiding the page seals a segment early, and the next one starts without a full snapshot: the
      header comment's claim that each segment is self-contained does not hold. */
  lemma HidingCutsASegment(run: string, a: Event, b: Event)
    ensures var uploads := Run([Start(Some(run)), Emit(Emitted(a, true)), Exit, Emit(Emitted(b, false)), Exit]).1;
            |uploads| == 2 && uploads[1].batch != [] && !uploads[1].batch[0].isCheckout
  {
    var ops := [Start(Some(run)), Emit(Emitted(a, true)), Exit, Emit(Emitted(b, false)), Exit];
    assert ops[..1] == [] + [ops[0]] && ops[..2] == ops[..1] + [ops[1]] && ops[..3] == ops[..2] + [ops[2]];
    assert ops[..4] == ops[..3] + [ops[3]] && ops == ops[..4] + [ops[4]];
    RunNext([], ops[0]);
    RunNext(ops[..1], ops[1]);
    RunNext(ops[..2], ops[2]);
    RunNext(ops[..3], ops[3]);
    RunNext(ops[..4], ops[4]);
  }
}
