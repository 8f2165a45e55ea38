/** `String.prototype.replace` with a /g pattern: ECMA-262 section 22.2.6.11, the leftmost,
    non-overlapping scan. The results are collected first and spliced in afterwards. */
module Replacement {
  import opened Options
  import opened Regex

  type Span = (nat, nat)

  ghost predicate Found(r: Re, s: string, m: Span) {
    m.0 < m.1 <= |s| && Matches(r, s, m.0, m.1)
  }

  /** No match of `r` starts in s[lo..hi]. */
  ghost predicate NoneFrom(r: Re, s: string, lo: nat, hi: nat) {
    forall a: nat, c: nat | lo <= a < hi && a <= c <= |s| :: !Matches(r, s, a, c)
  }

  /** The leftmost match at or after `i`, with the end of highest priority. */
  function Exec(r: Re, s: string, i: nat): (m: Option<Span>)
    requires i <= |s| && Consumes(r)
    ensures m.Some? ==> i <= m.value.0 && Found(r, s, m.value) && NoneFrom(r, s, i, m.value.0)
    ensures m.None? ==> NoneFrom(r, s, i, |s| + 1)
    decreases |s| - i
  {
    var js := Ends(r, s, i);
    assert forall j: nat | i <= j <= |s| :: j in js <==> Matches(r, s, i, j) by {
      forall j: nat | i <= j <= |s| ensures j in js <==> Matches(r, s, i, j) { EndsExact(r, s, i, j); }
    }
    if js != [] then
      assert js[0] in js;
      MatchConsumes(r, s, i, js[0]);
      Some((i, js[0]))
    else if i < |s| then Exec(r, s, i + 1)
    else None
  }

  /** Spans lie one after the other between `lo` and `hi`. */
  ghost predicate Ordered(spans: seq<Span>, lo: nat, hi: nat) {
    if spans == [] then lo <= hi
    else lo <= spans[0].0 < spans[0].1 && Ordered(spans[1..], spans[0].1, hi)
  }

  /** All matches that the scan visits from `i` on. */
  function Spans(r: Re, s: string, i: nat): (spans: seq<Span>)
    requires i <= |s| && Consumes(r)
    ensures Ordered(spans, i, |s|)
    decreases |s| - i
  {
    match Exec(r, s, i)
    case None => []
    case Some(m) => [m] + Spans(r, s, m.1)
  }

  lemma {:induction false} OrderedBound(spans: seq<Span>, lo: nat, hi: nat)
    requires Ordered(spans, lo, hi)
    ensures lo <= hi
    ensures spans != [] ==> spans[0].1 <= hi
  {
    if spans != [] { OrderedBound(spans[1..], spans[0].1, hi); }
  }

  /** `s` from position `i` on, with every span rewritten by `f`. */
  function Splice(s: string, spans: seq<Span>, f: string -> string, i: nat): string
    requires Ordered(spans, i, |s|)
    decreases |spans|
  {
    OrderedBound(spans, i, |s|);
    if spans == [] then s[i..]
    else s[i..spans[0].0] + f(s[spans[0].0..spans[0].1]) + Splice(s, spans[1..], f, spans[0].1)
  }

  /** The replaced text from position `i` on, when the scan reaches `i`. */
  function ReplaceFrom(r: Re, f: string -> string, s: string, i: nat): string
    requires i <= |s| && Consumes(r)
  {
    Splice(s, Spans(r, s, i), f, i)
  }

  function Replace(r: Re, f: string -> string, s: string): string
    requires Consumes(r)
  {
    ReplaceFrom(r, f, s, 0)
  }

  // --- What the scan finds ---

  /** `a` lies inside one of the spans. */
  ghost predicate Covered(spans: seq<Span>, a: nat) {
    exists k :: 0 <= k < |spans| && spans[k].0 <= a < spans[k].1
  }

  /** The scan returns matches only, and every match of the text starts inside one of them. */
  lemma {:induction false} SpansComplete(r: Re, s: string, i: nat)
    requires i <= |s| && Consumes(r)
    ensures forall k | 0 <= k < |Spans(r, s, i)| :: Found(r, s, Spans(r, s, i)[k])
    ensures forall a: nat, c: nat | i <= a <= c <= |s| && Matches(r, s, a, c) :: Covered(Spans(r, s, i), a)
    decreases |s| - i
  {
    hide Matches, Ends, Ordered, Exec;
    var m := Exec(r, s, i);
    if m.Some? {
      var rest := Spans(r, s, m.value.1);
      assert Spans(r, s, i) == [m.value] + rest;
      SpansComplete(r, s, m.value.1);
      hide Spans;
      forall a: nat, c: nat | i <= a <= c <= |s| && Matches(r, s, a, c)
        ensures Covered([m.value] + rest, a)
      {
        if a < m.value.1 {
          assert ([m.value] + rest)[0].0 <= a;
        } else {
          var k :| 0 <= k < |rest| && rest[k].0 <= a < rest[k].1;
          assert ([m.value] + rest)[k + 1] == rest[k];
        }
      }
    }
  }

  lemma ReplaceStepOver(r: Re, f: string -> string, s: string, i: nat)
    requires i < |s| && Consumes(r) && Ends(r, s, i) == []
    ensures Spans(r, s, i) == Spans(r, s, i + 1)
    ensures ReplaceFrom(r, f, s, i) == [s[i]] + ReplaceFrom(r, f, s, i + 1)
  {
    assert Exec(r, s, i) == Exec(r, s, i + 1);
    SpliceStep(s, Spans(r, s, i + 1), f, i);
  }

  lemma SpliceStep(s: string, spans: seq<Span>, f: string -> string, i: nat)
    requires i < |s| && Ordered(spans, i + 1, |s|)
    ensures Ordered(spans, i, |s|) && Splice(s, spans, f, i) == [s[i]] + Splice(s, spans, f, i + 1)
  {
    if spans == [] {
      assert s[i..] == [s[i]] + s[i + 1..];
    } else {
      OrderedBound(spans, i + 1, |s|);
      assert s[i..spans[0].0] == [s[i]] + s[i + 1..spans[0].0];
      var tail := f(s[spans[0].0..spans[0].1]) + Splice(s, spans[1..], f, spans[0].1);
      assert Splice(s, spans, f, i + 1) == s[i + 1..spans[0].0] + tail;
      assert Splice(s, spans, f, i) == s[i..spans[0].0] + tail;
    }
  }

  lemma ReplaceStepMatch(r: Re, f: string -> string, s: string, i: nat, e: nat)
    requires i < e <= |s| && Consumes(r)
    requires Ends(r, s, i) != [] && Ends(r, s, i)[0] == e
    ensures Spans(r, s, i) == [(i, e)] + Spans(r, s, e)
    ensures ReplaceFrom(r, f, s, i) == f(s[i..e]) + ReplaceFrom(r, f, s, e)
  {
    assert Exec(r, s, i) == Some((i, e));
    SpliceCons(s, (i, e), Spans(r, s, e), f);
  }

  lemma SpliceCons(s: string, m: Span, rest: seq<Span>, f: string -> string)
    requires m.0 < m.1 && Ordered(rest, m.1, |s|)
    ensures m.1 <= |s| && Ordered([m] + rest, m.0, |s|)
    ensures Splice(s, [m] + rest, f, m.0) == f(s[m.0..m.1]) + Splice(s, rest, f, m.1)
  {
    OrderedBound(rest, m.1, |s|);
    assert ([m] + rest)[1..] == rest;
    assert s[m.0..m.0] == "";
  }

  lemma ReplaceAtEnd(r: Re, f: string -> string, s: string)
    requires Consumes(r)
    ensures Spans(r, s, |s|) == [] && ReplaceFrom(r, f, s, |s|) == ""
  {
  }

  /** A text without a match is left alone. */
  lemma ReplaceNothing(r: Re, f: string -> string, s: string)
    requires Consumes(r) && Free(r, s)
    ensures Spans(r, s, 0) == [] && Replace(r, f, s) == s
  {
    assert s[0..] == s;
  }

  // --- What the replacement keeps ---

  /** The gaps with the middles between them. */
  function Weave(gaps: seq<string>, middles: seq<string>): string
    requires |gaps| == |middles| + 1
  {
    if middles == [] then gaps[0] else gaps[0] + middles[0] + Weave(gaps[1..], middles[1..])
  }

  function Mapped(hits: seq<string>, f: string -> string): (out: seq<string>)
    ensures |out| == |hits|
  {
    seq(|hits|, k requires 0 <= k < |hits| => f(hits[k]))
  }

  /** The text between the spans, from `i` to the end. */
  function Gaps(s: string, spans: seq<Span>, i: nat): (gaps: seq<string>)
    requires Ordered(spans, i, |s|)
    ensures |gaps| == |spans| + 1
    decreases |spans|
  {
    OrderedBound(spans, i, |s|);
    if spans == [] then [s[i..]] else [s[i..spans[0].0]] + Gaps(s, spans[1..], spans[0].1)
  }

  function Hits(s: string, spans: seq<Span>, i: nat): (hits: seq<string>)
    requires Ordered(spans, i, |s|)
    ensures |hits| == |spans|
    decreases |spans|
  {
    OrderedBound(spans, i, |s|);
    if spans == [] then [] else [s[spans[0].0..spans[0].1]] + Hits(s, spans[1..], spans[0].1)
  }

  lemma {:induction false} SpliceWeaves(s: string, spans: seq<Span>, f: string -> string, i: nat)
    requires Ordered(spans, i, |s|)
    ensures i <= |s| && s[i..] == Weave(Gaps(s, spans, i), Hits(s, spans, i))
    ensures Splice(s, spans, f, i) == Weave(Gaps(s, spans, i), Mapped(Hits(s, spans, i), f))
    decreases |spans|
  {
    OrderedBound(spans, i, |s|);
    if spans != [] {
      var (p, e) := spans[0];
      var gaps, hits := Gaps(s, spans[1..], e), Hits(s, spans[1..], e);
      SpliceWeaves(s, spans[1..], f, e);
      assert Mapped([s[p..e]] + hits, f) == [f(s[p..e])] + Mapped(hits, f);
      WeaveCons(s[i..p], s[p..e], gaps, hits);
      WeaveCons(s[i..p], f(s[p..e]), gaps, Mapped(hits, f));
      assert s[i..] == s[i..p] + s[p..e] + s[e..];
    }
  }

  lemma {:induction false} HitsAt(s: string, spans: seq<Span>, i: nat, k: nat)
    requires Ordered(spans, i, |s|) && k < |spans|
    ensures spans[k].0 <= spans[k].1 <= |s| && Hits(s, spans, i)[k] == s[spans[k].0..spans[k].1]
    decreases |spans|
  {
    OrderedBound(spans, i, |s|);
    if k > 0 {
      HitsAt(s, spans[1..], spans[0].1, k - 1);
    }
  }

  /** Text and replaced text have the same gaps; where the text has the matches of the scan, in
      order, the replaced text has what `f` makes of them. */
  lemma ReplaceWeaves(r: Re, f: string -> string, s: string)
    requires Consumes(r)
    ensures var gaps, hits := Gaps(s, Spans(r, s, 0), 0), Hits(s, Spans(r, s, 0), 0);
            s == Weave(gaps, hits) && Replace(r, f, s) == Weave(gaps, Mapped(hits, f))
    ensures forall k | 0 <= k < |Spans(r, s, 0)| ::
              var m := Spans(r, s, 0)[k]; Found(r, s, m) && Hits(s, Spans(r, s, 0), 0)[k] == s[m.0..m.1]
  {
    var spans := Spans(r, s, 0);
    SpliceWeaves(s, spans, f, 0);
    assert s[0..] == s;
    SpansComplete(r, s, 0);
    hide Hits, Gaps, Weave, Mapped, Spans, Matches;
    forall k | 0 <= k < |spans| ensures Hits(s, spans, 0)[k] == s[spans[k].0..spans[k].1] {
      HitsAt(s, spans, 0, k);
    }
  }

  /** A replacement that maps each match of the scan to itself leaves the text alone. */
  lemma ReplaceSame(r: Re, f: string -> string, s: string)
    requires Consumes(r)
    requires forall m | m in Spans(r, s, 0) :: m.0 <= m.1 <= |s| && f(s[m.0..m.1]) == s[m.0..m.1]
    ensures Replace(r, f, s) == s
  {
    var hits := Hits(s, Spans(r, s, 0), 0);
    ReplaceWeaves(r, f, s);
    hide *;
    assert Mapped(hits, f) == hits by { MappedSame(hits, f); }
  }

  lemma MappedSame(hits: seq<string>, f: string -> string)
    requires forall k | 0 <= k < |hits| :: f(hits[k]) == hits[k]
    ensures Mapped(hits, f) == hits
  {
  }

  lemma WeaveCons(gap: string, middle: string, gaps: seq<string>, middles: seq<string>)
    requires |gaps| == |middles| + 1
    ensures Weave([gap] + gaps, [middle] + middles) == gap + middle + Weave(gaps, middles)
  {
    assert ([gap] + gaps)[1..] == gaps && ([middle] + middles)[1..] == middles;
  }

  /** The scan takes the whole text as one match. */
  ghost predicate Whole(b: Re, s: string) {
    s != "" && Ends(Bounded(b), s, 0) != [] && Ends(Bounded(b), s, 0)[0] == |s|
  }

  lemma ReplaceWhole(b: Re, f: string -> string, s: string)
    requires Consumes(b) && Whole(b, s)
    ensures Replace(Bounded(b), f, s) == f(s)
  {
    ReplaceStepMatch(Bounded(b), f, s, 0, |s|);
    ReplaceAtEnd(Bounded(b), f, s);
    assert s[0..|s|] == s;
  }

  // --- Texts free of a pattern ---

  ghost predicate Free(r: Re, s: string) {
    forall i: nat, j: nat | i <= j <= |s| :: !Matches(r, s, i, j)
  }

  /** \b body \b */
  function Bounded(body: Re): Re {
    Cat(Edge, Cat(body, Edge))
  }

  /** The meaning of `Bounded(b)`, spelled out. */
  ghost predicate Hit(b: Re, s: string, i: nat, j: nat) {
    i <= j <= |s| && Boundary(s, i) && Matches(b, s, i, j) && Boundary(s, j)
  }

  ghost predicate NoHit(b: Re, s: string) {
    forall i: nat, j: nat :: !Hit(b, s, i, j)
  }

  lemma BoundedHit(b: Re, s: string, i: nat, j: nat)
    requires i <= j <= |s|
    ensures Matches(Bounded(b), s, i, j) <==> Hit(b, s, i, j)
  {
    if Hit(b, s, i, j) {
      assert Matches(Edge, s, i, i) && Matches(Edge, s, j, j);
      assert Matches(Cat(b, Edge), s, i, j);
    }
    if Matches(Bounded(b), s, i, j) {
      var k := CatSplit(Edge, Cat(b, Edge), s, i, j);
      var l := CatSplit(b, Edge, s, k, j);
    }
  }

  lemma BoundedFree(b: Re, s: string)
    ensures Free(Bounded(b), s) <==> NoHit(b, s)
  {
    forall i: nat, j: nat | i <= j <= |s| ensures Matches(Bounded(b), s, i, j) <==> Hit(b, s, i, j) {
      BoundedHit(b, s, i, j);
    }
  }

  predicate IsMark(c: char) {
    '0' <= c <= '9' || c == '@'
  }

  /** What the bodies of the four patterns share: they neither contain nor look at brackets
      and quotes, and whatever they match holds a digit or an @. */
  ghost predicate Sealed(b: Re) {
    Inert(b) && Consumes(b) && Needs(b, IsMark)
  }

  predicate Inert(b: Re) {
    Plain(b) && Avoids(b, '[') && Avoids(b, ']') && Avoids(b, '"')
  }

  lemma SealedCat(a: Re, b: Re)
    requires Inert(a) && Inert(b) && (Sealed(a) || Sealed(b))
    ensures Sealed(Cat(a, b))
  {
  }

  lemma HitMoves(b: Re, s: string, i: nat, j: nat, t: string, d: int)
    requires Plain(b) && Hit(b, s, i, j)
    requires 0 <= i + d && j + d <= |t| && s[i..j] == t[i + d..j + d]
    requires Boundary(s, i) ==> Boundary(t, i + d)
    requires Boundary(s, j) ==> Boundary(t, j + d)
    ensures Hit(b, t, i + d, j + d)
  {
    MatchLocal(b, s, i, j, t, d);
  }

  lemma HitShift(b: Re, s: string, i: nat, j: nat, t: string, d: int)
    requires Plain(b) && 0 <= d && i <= j <= |s| && j + d <= |t| && s[i..j] == t[i + d..j + d]
    requires Boundary(s, i) == Boundary(t, i + d) && Boundary(s, j) == Boundary(t, j + d)
    ensures Hit(b, s, i, j) <==> Hit(b, t, i + d, j + d)
  {
    hide Plain, Boundary, Matches;
    if Matches(b, s, i, j) {
      MatchLocal(b, s, i, j, t, d);
    }
    if Matches(b, t, i + d, j + d) {
      MatchLocal(b, t, i + d, j + d, s, -d);
    }
  }

  /** A hit does not cross a character that the pattern avoids. */
  lemma HitSide(b: Re, c: char, s: string, i: nat, j: nat, at: nat)
    requires Consumes(b) && Avoids(b, c) && at < |s| && s[at] == c
    requires Hit(b, s, i, j)
    ensures j <= at || at < i
  {
    MatchConsumes(b, s, i, j);
    if i <= at < j {
      assert s[i..j][at - i] == c;
      MatchAvoids(b, c, s, i, j);
    }
  }

  /** A separator that is no word character and that the pattern cannot cross cuts the
      question whether a text is free of the pattern in two. */
  lemma CutFree(b: Re, x: string, c: char, y: string)
    requires Plain(b) && Consumes(b) && Avoids(b, c) && !IsWord(c)
    ensures NoHit(b, x + [c] + y) <==> NoHit(b, x) && NoHit(b, y)
  {
    hide Hit, Plain, Consumes, Avoids;
    var s, d := x + [c] + y, |x| + 1;
    forall i: nat, j: nat | Hit(b, s, i, j) ensures !(NoHit(b, x) && NoHit(b, y)) {
      HitSide(b, c, s, i, j, |x|);
      HitSpan(b, s, i, j);
      if j <= |x| {
        HitLeft(b, x, c, y, i, j);
      } else {
        HitRight(b, x, c, y, i - d, j - d);
      }
    }
    forall i: nat, j: nat | Hit(b, x, i, j) ensures !NoHit(b, s) {
      HitSpan(b, x, i, j);
      HitLeft(b, x, c, y, i, j);
    }
    forall i: nat, j: nat | Hit(b, y, i, j) ensures !NoHit(b, s) {
      HitSpan(b, y, i, j);
      HitRight(b, x, c, y, i, j);
      assert Hit(b, s, i + d, j + d);
    }
  }

  lemma HitSpan(b: Re, s: string, i: nat, j: nat)
    requires Hit(b, s, i, j)
    ensures i <= j <= |s|
  {
  }

  /** The hits before the cut are those of the left part. */
  lemma HitLeft(b: Re, x: string, c: char, y: string, i: nat, j: nat)
    requires Plain(b) && !IsWord(c) && i <= j <= |x|
    ensures Hit(b, x, i, j) <==> Hit(b, x + [c] + y, i, j)
  {
    hide *;
    LeftOfCut(x, c, y, i);
    LeftOfCut(x, c, y, j);
    LeftSlice(x, c, y, i, j);
    HitShift(b, x, i, j, x + [c] + y, 0);
  }

  /** The hits behind the cut are those of the right part. */
  lemma HitRight(b: Re, x: string, c: char, y: string, i: nat, j: nat)
    requires Plain(b) && !IsWord(c) && i <= j <= |y|
    ensures Hit(b, y, i, j) <==> Hit(b, x + [c] + y, i + (|x| + 1), j + (|x| + 1))
  {
    hide *;
    RightOfCut(x, c, y, i);
    RightOfCut(x, c, y, j);
    RightSlice(x, c, y, i, j);
    HitShift(b, y, i, j, x + [c] + y, |x| + 1);
  }

  lemma LeftSlice(x: string, c: char, y: string, i: nat, j: nat)
    requires i <= j <= |x|
    ensures |x| <= |x + [c] + y| && (x + [c] + y)[i..j] == x[i..j]
  {
    var l, r := (x + [c] + y)[i..j], x[i..j];
    forall k | 0 <= k < j - i ensures l[k] == r[k] {
      assert l[k] == x[i + k];
    }
  }

  lemma RightSlice(x: string, c: char, y: string, i: nat, j: nat)
    requires i <= j <= |y|
    ensures |x + [c] + y| == |x| + 1 + |y| && (x + [c] + y)[i + (|x| + 1)..j + (|x| + 1)] == y[i..j]
  {
    var s, d := x + [c] + y, |x| + 1;
    var l, r := s[i + d..j + d], y[i..j];
    forall k | 0 <= k < j - i ensures l[k] == r[k] {
      assert l[k] == s[i + d + k] == y[i + k];
    }
  }

  lemma LeftOfCut(x: string, c: char, y: string, i: nat)
    requires !IsWord(c) && i <= |x|
    ensures Boundary(x, i) == Boundary(x + [c] + y, i)
  {
    var s := x + [c] + y;
    assert WordAt(x, i - 1) == WordAt(s, i - 1) && WordAt(x, i) == WordAt(s, i);
  }

  lemma RightOfCut(x: string, c: char, y: string, i: nat)
    requires !IsWord(c) && i <= |y|
    ensures Boundary(y, i) == Boundary(x + [c] + y, i + (|x| + 1))
  {
    var s, d := x + [c] + y, |x| + 1;
    assert WordAt(y, i - 1) == WordAt(s, i - 1 + d) && WordAt(y, i) == WordAt(s, i + d);
  }

  /** A cut at `i` adds no word boundary that was not there before. */
  predicate EdgeOk(s: string, i: nat) {
    i == 0 || i == |s| || Boundary(s, i)
  }

  lemma GapFree(b: Re, s: string, lo: nat, hi: nat)
    requires lo <= hi <= |s| && Plain(b) && Consumes(b)
    requires EdgeOk(s, lo) && EdgeOk(s, hi)
    requires forall a: nat, c: nat | lo <= a < hi :: !Hit(b, s, a, c)
    ensures NoHit(b, s[lo..hi])
  {
    var t := s[lo..hi];
    forall i: nat, j: nat | Hit(b, t, i, j) ensures false {
      MatchConsumes(b, t, i, j);
      SliceSlice(s, lo, hi, i, j);
      CutEdge(s, lo, hi, i);
      CutEdge(s, lo, hi, j);
      HitMoves(b, t, i, j, s, lo);
    }
  }

  lemma SliceSlice(s: string, lo: nat, hi: nat, i: nat, j: nat)
    requires lo <= hi <= |s| && i <= j <= hi - lo
    ensures s[lo..hi][i..j] == s[i + lo..j + lo]
  {
    var x, y := s[lo..hi][i..j], s[i + lo..j + lo];
    assert forall k | 0 <= k < |x| :: x[k] == s[lo..hi][i + k] == s[i + lo + k] == y[k];
  }

  lemma CutEdge(s: string, lo: nat, hi: nat, i: nat)
    requires lo <= hi <= |s| && EdgeOk(s, lo) && EdgeOk(s, hi)
    requires i <= hi - lo && Boundary(s[lo..hi], i)
    ensures Boundary(s, i + lo)
  {
  }

  lemma InnocentFree(b: Re, s: string)
    requires Needs(b, IsMark) && forall k | 0 <= k < |s| :: !IsMark(s[k])
    ensures NoHit(b, s)
  {
    forall i: nat, j: nat | Hit(b, s, i, j) ensures false {
      MatchNeeds(b, IsMark, s, i, j);
    }
  }

  /** The constant replacement "[name]". */
  function Tag(name: string): string -> string {
    (_: string) => "[" + name + "]"
  }

  lemma TagFree(q: Re, gap: string, name: string, tail: string)
    requires Sealed(q) && forall k | 0 <= k < |name| :: !IsMark(name[k])
    requires NoHit(q, gap) && NoHit(q, tail)
    ensures NoHit(q, gap + ("[" + name + "]") + tail)
  {
    InnocentFree(q, name);
    CutFree(q, name, ']', tail);
    CutFree(q, gap, '[', name + [']'] + tail);
    assert gap + ("[" + name + "]") + tail == gap + ['['] + (name + [']'] + tail);
  }

  /** Replacing the matches of `b` by a bracketed tag removes every match of `q`, provided
      each match of `q` starts inside a replaced span: so it does for q = b, and for any q
      that the text was free of. The tag neither is a match nor makes a boundary. */
  lemma {:induction false} TaggedFree(b: Re, q: Re, name: string, s: string, i: nat)
    requires i <= |s| && Sealed(b) && Sealed(q) && EdgeOk(s, i)
    requires forall k | 0 <= k < |name| :: !IsMark(name[k])
    requires forall a: nat, c: nat | i <= a && Hit(q, s, a, c) :: Covered(Spans(Bounded(b), s, i), a)
    ensures NoHit(q, ReplaceFrom(Bounded(b), Tag(name), s, i))
    decreases |s| - i
  {
    var spans := Spans(Bounded(b), s, i);
    if spans == [] {
      GapFree(q, s, i, |s|);
      assert s[i..] == s[i..|s|];
    } else {
      var (p, e) := spans[0];
      BoundedHit(b, s, p, e);
      SpansSplit(Bounded(b), s, i);
      GapFree(q, s, i, p);
      TaggedFree(b, q, name, s, e);
      TagFree(q, s[i..p], name, ReplaceFrom(Bounded(b), Tag(name), s, e));
    }
  }

  /** A covered position is at or after the first span, and beyond its end covered by the rest. */
  lemma SpansSplit(r: Re, s: string, i: nat)
    requires i <= |s| && Consumes(r) && Spans(r, s, i) != []
    ensures var m := Spans(r, s, i)[0]; Exec(r, s, i) == Some(m) && m.1 <= |s| && Spans(r, s, i)[1..] == Spans(r, s, m.1)
    ensures var m := Spans(r, s, i)[0]; m.1 <= |s| && forall a: nat | Covered(Spans(r, s, i), a) ::
              m.0 <= a && (m.1 <= a ==> Covered(Spans(r, s, m.1), a))
  {
    var spans := Spans(r, s, i);
    var rest := Spans(r, s, spans[0].1);
    assert spans[1..] == rest;
    OrderedStarts(rest, spans[0].1, |s|);
    forall a: nat | Covered(spans, a)
      ensures spans[0].0 <= a && (spans[0].1 <= a ==> Covered(rest, a))
    {
      var k :| 0 <= k < |spans| && spans[k].0 <= a < spans[k].1;
      assert k > 0 ==> spans[k] == rest[k - 1];
    }
  }

  lemma {:induction false} OrderedStarts(spans: seq<Span>, lo: nat, hi: nat)
    requires Ordered(spans, lo, hi)
    ensures forall k | 0 <= k < |spans| :: lo <= spans[k].0 < spans[k].1 <= hi
  {
    OrderedBound(spans, lo, hi);
    if spans != [] {
      OrderedStarts(spans[1..], spans[0].1, hi);
      assert forall k | 0 < k < |spans| :: spans[k] == spans[1..][k - 1];
    }
  }
}
