/** A character that a pattern cannot take cuts a text in two: the global replace works on each side by
    itself. */
module Cutting {
  import opened Regex
  import opened Replacement

  /** No $ inside. */
  predicate NoEnd(r: Re) {
    match r
    case End => false
    case Cat(a, b) => NoEnd(a) && NoEnd(b)
    case Alt(a, b) => NoEnd(a) && NoEnd(b)
    case Opt(a) => NoEnd(a)
    case _ => true
  }

  function Shift(js: seq<nat>, d: nat): (ks: seq<nat>)
    ensures |ks| == |js| && forall k | 0 <= k < |js| :: ks[k] == js[k] + d
  {
    seq(|js|, k requires 0 <= k < |js| => js[k] + d)
  }

  lemma ShiftAppend(a: seq<nat>, b: seq<nat>, d: nat)
    ensures Shift(a + b, d) == Shift(a, d) + Shift(b, d)
  {
  }

  lemma EndsIs(r: Re, s: string, i: nat)
    requires i <= |s|
    ensures match r
            case One(p) => Ends(r, s, i) == if i < |s| && p(s[i]) then [i + 1] else []
            case Edge => Ends(r, s, i) == if Boundary(s, i) then [i] else []
            case End => true
            case Cat(a, b) => Ends(r, s, i) == EndsAfter(b, s, i, Ends(a, s, i))
            case Alt(a, b) => Ends(r, s, i) == Ends(a, s, i) + Ends(b, s, i)
            case Opt(a) => Ends(r, s, i) == Ends(a, s, i) + [i]
            case Star(p) => Ends(r, s, i) == if i < |s| && p(s[i]) then Ends(r, s, i + 1) + [i] else [i]
  {
  }

  lemma PartsToo(r: Re)
    requires NoEnd(r)
    ensures match r
            case End => false
            case Cat(a, b) => NoEnd(a) && NoEnd(b)
            case Alt(a, b) => NoEnd(a) && NoEnd(b)
            case Opt(a) => NoEnd(a)
            case _ => true
  {
  }

  lemma PartsAvoid(r: Re, c: char)
    requires Avoids(r, c)
    ensures match r
            case One(p) => !p(c)
            case Star(p) => !p(c)
            case Cat(a, b) => Avoids(a, c) && Avoids(b, c)
            case Alt(a, b) => Avoids(a, c) && Avoids(b, c)
            case Opt(a) => Avoids(a, c)
            case _ => true
  {
  }

  // --- The matcher on the left side ---

  lemma {:induction false} EndsLeft(r: Re, x: string, c: char, y: string, i: nat)
    requires Avoids(r, c) && NoEnd(r) && !IsWord(c) && i <= |x|
    ensures Ends(r, x + [c] + y, i) == Ends(r, x, i)
    decreases r, 0, |x| - i
  {
    hide *;
    var s := x + [c] + y;
    PartsToo(r);
    PartsAvoid(r, c);
    EndsIs(r, x, i);
    EndsIs(r, s, i);
    assert s[i] == if i < |x| then x[i] else c;
    match r
    case One(p) =>
    case Edge => LeftOfCut(x, c, y, i);
    case Cat(a, b) =>
      EndsLeft(a, x, c, y, i);
      AfterLeft(b, x, c, y, i, Ends(a, x, i));
    case Alt(a, b) =>
      EndsLeft(a, x, c, y, i);
      EndsLeft(b, x, c, y, i);
    case Opt(a) => EndsLeft(a, x, c, y, i);
    case Star(p) => if i < |x| { EndsLeft(r, x, c, y, i + 1); }
  }

  lemma {:induction false} AfterLeft(r: Re, x: string, c: char, y: string, lo: nat, starts: seq<nat>)
    requires Avoids(r, c) && NoEnd(r) && !IsWord(c) && Within(starts, lo, |x|)
    ensures Within(starts, lo, |x + [c] + y|) && EndsAfter(r, x + [c] + y, lo, starts) == EndsAfter(r, x, lo, starts)
    decreases r, 1, |starts|
  {
    if starts != [] {
      EndsLeft(r, x, c, y, starts[0]);
      AfterLeft(r, x, c, y, lo, starts[1..]);
    }
  }

  // --- ... and on the right side ---

  lemma {:induction false} EndsRight(r: Re, x: string, c: char, y: string, i: nat)
    requires NoEnd(r) && !IsWord(c) && i <= |y|
    ensures Ends(r, x + [c] + y, i + (|x| + 1)) == Shift(Ends(r, y, i), |x| + 1)
    decreases r, 0, |y| - i
  {
    hide *;
    var s, d := x + [c] + y, |x| + 1;
    PartsToo(r);
    EndsIs(r, y, i);
    EndsIs(r, s, i + d);
    assert i < |y| ==> s[i + d] == y[i];
    match r
    case One(p) =>
    case Edge => RightOfCut(x, c, y, i);
    case Cat(a, b) =>
      EndsRight(a, x, c, y, i);
      AfterRight(b, x, c, y, i, Ends(a, y, i));
    case Alt(a, b) =>
      EndsRight(a, x, c, y, i);
      EndsRight(b, x, c, y, i);
      ShiftAppend(Ends(a, y, i), Ends(b, y, i), d);
    case Opt(a) =>
      EndsRight(a, x, c, y, i);
      ShiftAppend(Ends(a, y, i), [i], d);
      ShiftOne(i, d);
    case Star(p) =>
      ShiftOne(i, d);
      if i < |y| {
        EndsRight(r, x, c, y, i + 1);
        ShiftAppend(Ends(r, y, i + 1), [i], d);
      }
  }

  lemma ShiftOne(i: nat, d: nat)
    ensures Shift([i], d) == [i + d]
  {
  }

  lemma {:induction false} AfterRight(r: Re, x: string, c: char, y: string, lo: nat, starts: seq<nat>)
    requires NoEnd(r) && !IsWord(c) && Within(starts, lo, |y|)
    ensures Within(Shift(starts, |x| + 1), lo + (|x| + 1), |x + [c] + y|)
    ensures EndsAfter(r, x + [c] + y, lo + (|x| + 1), Shift(starts, |x| + 1)) == Shift(EndsAfter(r, y, lo, starts), |x| + 1)
    decreases r, 1, |starts|
  {
    hide Ends, Boundary, IsWord, NoEnd;
    if starts != [] {
      var d := |x| + 1;
      EndsRight(r, x, c, y, starts[0]);
      AfterRight(r, x, c, y, lo, starts[1..]);
      assert Shift(starts, d)[1..] == Shift(starts[1..], d) && Shift(starts, d)[0] == starts[0] + d;
      ShiftAppend(Ends(r, y, starts[0]), EndsAfter(r, y, lo, starts[1..]), d);
    }
  }

  // --- The replacement ---

  lemma {:induction false} ReplaceRight(r: Re, f: string -> string, x: string, c: char, y: string, i: nat)
    requires NoEnd(r) && Consumes(r) && !IsWord(c) && i <= |y|
    ensures ReplaceFrom(r, f, x + [c] + y, i + (|x| + 1)) == ReplaceFrom(r, f, y, i)
    decreases |y| - i
  {
    hide *;
    var s, d := x + [c] + y, |x| + 1;
    EndsRight(r, x, c, y, i);
    if i == |y| {
      ReplaceAtEnd(r, f, s);
      ReplaceAtEnd(r, f, y);
    } else if Ends(r, y, i) == [] {
      ReplaceStepOver(r, f, y, i);
      ReplaceStepOver(r, f, s, i + d);
      ReplaceRight(r, f, x, c, y, i + 1);
      assert s[i + d] == y[i];
    } else {
      var e := FirstEnd(r, y, i);
      RightSlice(x, c, y, i, e);
      ReplaceStepMatch(r, f, y, i, e);
      ReplaceStepMatch(r, f, s, i + d, e + d);
      ReplaceRight(r, f, x, c, y, e);
    }
  }

  /** The end taken first lies behind the start. */
  lemma FirstEnd(r: Re, s: string, i: nat) returns (e: nat)
    requires i <= |s| && Consumes(r) && Ends(r, s, i) != []
    ensures e == Ends(r, s, i)[0] && i < e <= |s|
  {
    e := Ends(r, s, i)[0];
    EndsExact(r, s, i, e);
    MatchConsumes(r, s, i, e);
  }

  lemma {:induction false} ReplaceLeft(r: Re, f: string -> string, x: string, c: char, y: string, i: nat)
    requires Avoids(r, c) && NoEnd(r) && Consumes(r) && !IsWord(c) && i <= |x|
    ensures ReplaceFrom(r, f, x + [c] + y, i) == ReplaceFrom(r, f, x, i) + [c] + Replace(r, f, y)
    decreases |x| - i
  {
    hide *;
    var s := x + [c] + y;
    EndsLeft(r, x, c, y, i);
    if i == |x| {
      NothingAtEnd(r, x);
      ReplaceAtEnd(r, f, x);
      ReplaceStepOver(r, f, s, i);
      ReplaceRight(r, f, x, c, y, 0);
      ReplaceIs(r, f, y);
      assert s[i] == c;
    } else if Ends(r, x, i) == [] {
      ReplaceStepOver(r, f, x, i);
      ReplaceStepOver(r, f, s, i);
      ReplaceLeft(r, f, x, c, y, i + 1);
      assert s[i] == x[i];
    } else {
      var e := FirstEnd(r, x, i);
      LeftSlice(x, c, y, i, e);
      ReplaceStepMatch(r, f, x, i, e);
      ReplaceStepMatch(r, f, s, i, e);
      ReplaceLeft(r, f, x, c, y, e);
    }
  }

  lemma NothingAtEnd(r: Re, s: string)
    requires Consumes(r)
    ensures Ends(r, s, |s|) == []
  {
    if Ends(r, s, |s|) != [] {
      var e := FirstEnd(r, s, |s|);
    }
  }

  lemma ReplaceIs(r: Re, f: string -> string, s: string)
    requires Consumes(r)
    ensures Replace(r, f, s) == ReplaceFrom(r, f, s, 0)
  {
  }

  /** The two sides of the cut are replaced by themselves. */
  lemma ReplaceApart(r: Re, f: string -> string, x: string, c: char, y: string)
    requires Avoids(r, c) && NoEnd(r) && Consumes(r) && !IsWord(c)
    ensures Replace(r, f, x + [c] + y) == Replace(r, f, x) + [c] + Replace(r, f, y)
  {
    hide *;
    ReplaceLeft(r, f, x, c, y, 0);
    ReplaceIs(r, f, x);
    ReplaceIs(r, f, x + [c] + y);
  }
}
