/** src/utils/pii-filter.ts: `filterPII`, the four passes followed by the rewrite of
    JSON-like "key": "value" pairs whose key is a PII key. */
module PiiJson {
  import opened Regex
  import opened Replacement
  import opened PiiForms
  import opened PiiPatterns
  import opened PiiKeys

  // --- The pair pattern: "([^"\\]+)"\s*:\s*"[^"]*" ---

  predicate IsQuote(c: char) { c == '"' }
  predicate NotQuote(c: char) { c != '"' }
  predicate IsKeyChar(c: char) { c != '"' && c != '\\' }
  predicate IsColon(c: char) { c == ':' }

  function ValuePart(): Re {
    Cat(One(IsQuote), Cat(Star(NotQuote), One(IsQuote)))
  }

  function ColonPart(): Re {
    Cat(Star(IsSpace), Cat(One(IsColon), Cat(Star(IsSpace), ValuePart())))
  }

  function KeyPart(): Re {
    Cat(One(IsKeyChar), Star(IsKeyChar))
  }

  function Pair(): Re {
    Cat(One(IsQuote), Cat(KeyPart(), Cat(One(IsQuote), ColonPart())))
  }

  /** Capture group 1 of a matched pair: the text between the first two quotes. */
  function KeyOf(pair: string): string
    requires |pair| > 0
  {
    UpToQuote(pair[1..])
  }

  function UpToQuote(s: string): string
    decreases |s|
  {
    if s == "" || s[0] == '"' then "" else [s[0]] + UpToQuote(s[1..])
  }

  const REDACTED := "[REDACTED]"

  /** The replacement callback. */
  function RewritePair(pair: string): string {
    if pair != "" && KeyMatchesPII(KeyOf(pair)) then "\"" + KeyOf(pair) + "\":\"" + REDACTED + "\"" else pair
  }

  function Filtered(input: string): string {
    Replace(Pair(), RewritePair, Redacted(input))
  }

  // --- A text as the segments between its quotes ---

  /** Each segment preceded by a quote. */
  function Quoted(us: seq<string>): string
    decreases |us|
  {
    if us == [] then "" else ['"'] + us[0] + Quoted(us[1..])
  }

  ghost predicate QuoteFree(us: seq<string>) {
    forall k | 0 <= k < |us| :: '"' !in us[k]
  }

  function Segments(s: string): (us: seq<string>)
    ensures |us| > 0 && QuoteFree(us)
    decreases |s|
  {
    if s == "" then [""]
    else
      var rest := Segments(s[1..]);
      if s[0] == '"' then [""] + rest else [[s[0]] + rest[0]] + rest[1..]
  }

  lemma {:induction false} SegmentsJoin(s: string)
    ensures s == Segments(s)[0] + Quoted(Segments(s)[1..])
    decreases |s|
  {
    if s != "" {
      SegmentsJoin(s[1..]);
      var rest := Segments(s[1..]);
      if s[0] == '"' {
        assert ([""] + rest)[1..] == rest;
        assert Quoted(rest) == ['"'] + rest[0] + Quoted(rest[1..]);
      } else {
        assert ([[s[0]] + rest[0]] + rest[1..])[1..] == rest[1..];
      }
      assert s == [s[0]] + s[1..];
    }
  }

  // --- What the pair pattern matches, in terms of segments ---

  ghost predicate ColonSegment(t: string) {
    exists k :: 0 <= k < |t| && ColonAt(t, k)
  }

  ghost predicate ColonAt(t: string, k: int)
    requires 0 <= k < |t|
  {
    t[k] == ':' && forall m | 0 <= m < |t| && m != k :: White(t[m])
  }

  ghost predicate KeySegment(t: string) {
    |t| > 0 && forall k | 0 <= k < |t| :: t[k] != '"' && t[k] != '\\'
  }

  /** The quoted segments begin with a pair. */
  ghost predicate HeadPair(us: seq<string>) {
    |us| >= 4 && KeySegment(us[0]) && ColonSegment(us[1])
  }

  /** The first quote after the one at `i` ends the first segment. */
  lemma NextQuote(us: seq<string>, s: string, i: nat, q: nat)
    requires i <= |s| && s[i..] == Quoted(us) && QuoteFree(us)
    requires i < q < |s| && s[q] == '"' && forall k | i < k < q :: s[k] != '"'
    ensures |us| >= 2 && q == i + 1 + |us[0]| && s[q..] == Quoted(us[1..])
    ensures s[i] == '"' && s[i + 1..q] == us[0]
  {
    var rest := Quoted(us[1..]);
    var n := 1 + |us[0]|;
    assert Quoted(us) == ['"'] + us[0] + rest;
    assert forall k | i < k < i + n :: s[k] == s[i..][k - i] == us[0][k - i - 1];
    assert q >= i + n;
    assert |us| == 1 ==> rest == "";
    assert rest[0] == '"';
    assert s[i + n] == s[i..][n] == rest[0];
    assert s[q..] == s[i..][n..] == rest;
    assert s[i + 1..q] == us[0];
  }

  lemma AtSegment(us: seq<string>, s: string, i: nat)
    requires i <= |s| && s[i..] == Quoted(us) && us != []
    ensures i < |s| && s[i] == '"' && i + 1 + |us[0]| <= |s|
    ensures s[i + 1..i + 1 + |us[0]|] == us[0] && s[i + 1 + |us[0]|..] == Quoted(us[1..])
    ensures |us| > 1 ==> i + 1 + |us[0]| < |s| && s[i + 1 + |us[0]|] == '"'
  {
    var rest := Quoted(us[1..]);
    assert s[i..] == ['"'] + us[0] + rest;
    var n := i + 1 + |us[0]|;
    assert |s[i..]| == 1 + |us[0]| + |rest|;
    assert s[n..] == s[i..][1 + |us[0]|..] == rest;
    assert s[i + 1..n] == s[i..][1..1 + |us[0]|] == us[0];
    assert s[i] == s[i..][0];
  }

  /** "value": the text up to the next quote, if there is one. */
  lemma ValueMatch(us: seq<string>, s: string, i: nat, j: nat)
    requires i <= j <= |s| && us != [] && s[i..] == Quoted(us) && QuoteFree(us)
    ensures Matches(ValuePart(), s, i, j) <==> |us| >= 2 && j == i + |us[0]| + 2
  {
    var tail := Cat(Star(NotQuote), One(IsQuote));
    AtSegment(us, s, i);
    if Matches(ValuePart(), s, i, j) {
      var k := CatSplit(One(IsQuote), tail, s, i, j);
      var l := CatSplit(Star(NotQuote), One(IsQuote), s, k, j);
      NextQuote(us, s, i, l);
    }
    if |us| >= 2 && j == i + |us[0]| + 2 {
      assert forall k | i + 1 <= k < j - 1 :: s[k] == us[0][k - (i + 1)];
      assert Matches(Star(NotQuote), s, i + 1, j - 1) && Matches(One(IsQuote), s, j - 1, j);
      assert Matches(tail, s, i + 1, j);
      assert Matches(One(IsQuote), s, i, i + 1);
    }
  }

  /** From behind the key's closing quote at `i`: the colon segment, then the value. */
  lemma ColonMatch(us: seq<string>, s: string, i: nat, j: nat)
    requires i < j <= |s| && |us| >= 1 && s[i..] == Quoted(us) && QuoteFree(us)
    ensures Matches(ColonPart(), s, i + 1, j) <==> |us| >= 3 && ColonSegment(us[0]) && j == i + |us[0]| + |us[1]| + 3
  {
    AtSegment(us, s, i);
    if Matches(ColonPart(), s, i + 1, j) { ColonMatchOnly(us, s, i, j); }
    if |us| >= 3 && ColonSegment(us[0]) && j == i + |us[0]| + |us[1]| + 3 {
      var n := i + 1 + |us[0]|;
      var m :| 0 <= m < |us[0]| && ColonAt(us[0], m);
      var c := i + 1 + m;
      assert forall k | i + 1 <= k < n :: s[k] == us[0][k - (i + 1)];
      ValueMatch(us[1..], s, n, j);
      assert Matches(Star(IsSpace), s, c + 1, n);
      assert Matches(Cat(Star(IsSpace), ValuePart()), s, c + 1, j);
      assert Matches(One(IsColon), s, c, c + 1);
      assert Matches(Cat(One(IsColon), Cat(Star(IsSpace), ValuePart())), s, c, j);
      assert Matches(Star(IsSpace), s, i + 1, c);
    }
  }

  lemma ColonMatchOnly(us: seq<string>, s: string, i: nat, j: nat)
    requires i < j <= |s| && |us| >= 1 && s[i..] == Quoted(us) && QuoteFree(us)
    requires Matches(ColonPart(), s, i + 1, j)
    ensures |us| >= 3 && ColonSegment(us[0]) && j == i + |us[0]| + |us[1]| + 3
  {
    AtSegment(us, s, i);
    var c := CatSplit(Star(IsSpace), Cat(One(IsColon), Cat(Star(IsSpace), ValuePart())), s, i + 1, j);
    var d := CatSplit(One(IsColon), Cat(Star(IsSpace), ValuePart()), s, c, j);
    var n := CatSplit(Star(IsSpace), ValuePart(), s, d, j);
    var k := CatSplit(One(IsQuote), Cat(Star(NotQuote), One(IsQuote)), s, n, j);
    NextQuote(us, s, i, n);
    ValueMatch(us[1..], s, n, j);
    assert forall m | 0 <= m < |us[0]| :: us[0][m] == s[i + 1..n][m] == s[i + 1 + m];
    assert ColonAt(us[0], c - (i + 1));
  }

  /** At a quote the pair pattern matches exactly when the segments begin with a pair, and
      then in one way only. */
  lemma PairMatch(us: seq<string>, s: string, i: nat, j: nat)
    requires i <= j <= |s| && us != [] && s[i..] == Quoted(us) && QuoteFree(us)
    ensures Matches(Pair(), s, i, j) <==> HeadPair(us) && j == i + |us[0]| + |us[1]| + |us[2]| + 4
  {
    AtSegment(us, s, i);
    var n := i + 1 + |us[0]|;
    if Matches(Pair(), s, i, j) { PairMatchOnly(us, s, i, j); }
    if HeadPair(us) && j == i + |us[0]| + |us[1]| + |us[2]| + 4 {
      assert forall k | i + 1 <= k < n :: s[k] == us[0][k - (i + 1)];
      ColonMatch(us[1..], s, n, j);
      assert Matches(One(IsQuote), s, n, n + 1);
      assert Matches(Cat(One(IsQuote), ColonPart()), s, n, j);
      assert Matches(One(IsKeyChar), s, i + 1, i + 2) && Matches(Star(IsKeyChar), s, i + 2, n);
      assert Matches(KeyPart(), s, i + 1, n);
      assert Matches(Cat(KeyPart(), Cat(One(IsQuote), ColonPart())), s, i + 1, j);
      assert Matches(One(IsQuote), s, i, i + 1);
    }
  }

  lemma PairMatchOnly(us: seq<string>, s: string, i: nat, j: nat)
    requires i <= j <= |s| && us != [] && s[i..] == Quoted(us) && QuoteFree(us)
    requires Matches(Pair(), s, i, j)
    ensures HeadPair(us) && j == i + |us[0]| + |us[1]| + |us[2]| + 4
  {
    var a := CatSplit(One(IsQuote), Cat(KeyPart(), Cat(One(IsQuote), ColonPart())), s, i, j);
    var n := CatSplit(KeyPart(), Cat(One(IsQuote), ColonPart()), s, a, j);
    var b := CatSplit(One(IsKeyChar), Star(IsKeyChar), s, a, n);
    var c := CatSplit(One(IsQuote), ColonPart(), s, n, j);
    NextQuote(us, s, i, n);
    var d := CatSplit(Star(IsSpace), Cat(One(IsColon), Cat(Star(IsSpace), ValuePart())), s, c, j);
    var e := CatSplit(One(IsColon), Cat(Star(IsSpace), ValuePart()), s, d, j);
    ColonMatchOnly(us[1..], s, n, j);
    assert forall m | 0 <= m < |us[0]| :: us[0][m] == s[i + 1..n][m] == s[i + 1 + m];
    assert KeySegment(us[0]);
  }

  /** The pair pattern never matches away from a quote. */
  lemma PairAtQuote(s: string, i: nat)
    requires i <= |s| && (i == |s| || s[i] != '"')
    ensures Ends(Pair(), s, i) == []
  {
    if Ends(Pair(), s, i) != [] {
      var j := Ends(Pair(), s, i)[0];
      EndsExact(Pair(), s, i, j);
      var k := CatSplit(One(IsQuote), Cat(KeyPart(), Cat(One(IsQuote), ColonPart())), s, i, j);
    }
  }

  lemma PairEnds(us: seq<string>, s: string, i: nat)
    requires i <= |s| && us != [] && s[i..] == Quoted(us) && QuoteFree(us)
    ensures Ends(Pair(), s, i) != [] <==> HeadPair(us)
    ensures HeadPair(us) ==> Ends(Pair(), s, i)[0] == i + |us[0]| + |us[1]| + |us[2]| + 4 <= |s|
  {
    if Ends(Pair(), s, i) != [] {
      var j := Ends(Pair(), s, i)[0];
      EndsExact(Pair(), s, i, j);
      PairMatch(us, s, i, j);
    }
    if HeadPair(us) {
      AtSegment(us, s, i);
      AtSegment(us[1..], s, i + 1 + |us[0]|);
      AtSegment(us[2..], s, i + 2 + |us[0]| + |us[1]|);
      var j := i + |us[0]| + |us[1]| + |us[2]| + 4;
      PairMatch(us, s, i, j);
      EndsExact(Pair(), s, i, j);
    }
  }

  // --- The rewrite, in terms of segments ---

  ghost function RewriteSegments(us: seq<string>): seq<string>
    decreases |us|
  {
    hide *;
    if us == [] then []
    else if HeadPair(us) then
      HeadLong(us);
      RewriteHead(us) + RewriteSegments(us[4..])
    else [us[0]] + RewriteSegments(us[1..])
  }

  ghost function RewriteHead(us: seq<string>): (vs: seq<string>)
    requires HeadPair(us)
    ensures |vs| == 4
  {
    if KeyMatchesPII(us[0]) then [us[0], ":", REDACTED, us[3]] else us[..4]
  }

  lemma RewriteStep(us: seq<string>)
    ensures us == [] ==> RewriteSegments(us) == us
    ensures HeadPair(us) ==> |us| >= 4 && RewriteSegments(us) == RewriteHead(us) + RewriteSegments(us[4..])
    ensures us != [] && !HeadPair(us) ==> RewriteSegments(us) == [us[0]] + RewriteSegments(us[1..])
  {
    hide RewriteHead, ColonSegment, KeySegment;
  }

  lemma HeadTwice(us: seq<string>)
    requires HeadPair(us)
    ensures RewriteHead(us)[0] == us[0] && RewriteHead(us)[3] == us[3]
    ensures HeadPair(RewriteHead(us)) && RewriteHead(RewriteHead(us)) == RewriteHead(us)
  {
    hide KeyMatchesPII, KeySegment;
    assert ColonAt(":", 0);
  }

  lemma HeadWithin(us: seq<string>, rest: seq<string>)
    requires HeadPair(us) && |us| == 4
    ensures HeadPair(us + rest) && RewriteHead(us + rest) == RewriteHead(us)
  {
    hide KeyMatchesPII, KeySegment, ColonSegment;
    assert (us + rest)[..4] == us;
  }

  /** Whether segments begin with a pair is seen from their number and the first two. */
  lemma SameHead(us: seq<string>, vs: seq<string>)
    requires |us| == |vs| && (us != [] ==> us[0] == vs[0]) && (|us| > 1 ==> us[1] == vs[1])
    ensures HeadPair(us) <==> HeadPair(vs)
  {
    hide KeySegment, ColonSegment;
  }

  lemma {:induction false} RewriteLength(us: seq<string>)
    ensures |RewriteSegments(us)| == |us| && (us != [] ==> RewriteSegments(us)[0] == us[0])
    decreases |us|
  {
    hide *;
    RewriteStep(us);
    if HeadPair(us) {
      HeadLong(us);
      HeadTwice(us);
      RewriteLength(us[4..]);
    } else if us != [] {
      RewriteLength(us[1..]);
    }
  }

  /** A second rewrite finds the same pairs and changes nothing. */
  lemma {:induction false} RewriteSegmentsTwice(us: seq<string>)
    ensures RewriteSegments(RewriteSegments(us)) == RewriteSegments(us)
    decreases |us|
  {
    hide *;
    var vs := RewriteSegments(us);
    RewriteStep(us);
    RewriteStep(vs);
    RewriteLength(us);
    if HeadPair(us) {
      HeadLong(us);
      var rest := RewriteSegments(us[4..]);
      RewriteSegmentsTwice(us[4..]);
      HeadTwice(us);
      HeadWithin(RewriteHead(us), rest);
      assert vs[4..] == rest;
    } else if us != [] {
      RewriteSegmentsTwice(us[1..]);
      RewriteLength(us[1..]);
      assert vs[1..] == RewriteSegments(us[1..]);
      SameHead(us, vs);
    }
  }

  lemma {:induction false} RewriteQuoteFree(us: seq<string>)
    requires QuoteFree(us)
    ensures QuoteFree(RewriteSegments(us))
    decreases |us|
  {
    hide *;
    RewriteStep(us);
    if HeadPair(us) {
      HeadLong(us);
      QuoteFreeSlices(us, 4);
      RewriteQuoteFree(us[4..]);
      HeadQuoteFree(us);
      QuoteFreeAppend(RewriteHead(us), RewriteSegments(us[4..]));
    } else if us != [] {
      QuoteFreeSlices(us, 1);
      RewriteQuoteFree(us[1..]);
      assert us[..1] == [us[0]];
      QuoteFreeAppend([us[0]], RewriteSegments(us[1..]));
    }
  }

  lemma QuoteFreeSlices(us: seq<string>, n: nat)
    requires QuoteFree(us) && n <= |us|
    ensures QuoteFree(us[..n]) && QuoteFree(us[n..])
  {
  }

  lemma HeadQuoteFree(us: seq<string>)
    requires HeadPair(us) && QuoteFree(us)
    ensures QuoteFree(RewriteHead(us))
  {
    hide KeyMatchesPII, ColonSegment, KeySegment;
  }

  lemma QuoteFreeAppend(us: seq<string>, vs: seq<string>)
    requires QuoteFree(us) && QuoteFree(vs)
    ensures QuoteFree(us + vs)
  {
  }

  lemma {:induction false} QuotedAppend(us: seq<string>, vs: seq<string>)
    ensures Quoted(us + vs) == Quoted(us) + Quoted(vs)
    decreases |us|
  {
    if us == [] {
      assert us + vs == vs;
    } else {
      QuotedAppend(us[1..], vs);
      assert (us + vs)[1..] == us[1..] + vs;
    }
  }

  lemma QuotedFour(us: seq<string>)
    requires |us| == 4
    ensures Quoted(us) == ['"'] + us[0] + ['"'] + us[1] + ['"'] + us[2] + ['"'] + us[3]
  {
    assert us[1..][1..] == us[2..] && us[2..][1..] == us[3..] && us[3..][1..] == [];
    assert Quoted(us[3..]) == ['"'] + us[3];
    assert Quoted(us[2..]) == ['"'] + us[2] + Quoted(us[3..]);
    assert Quoted(us[1..]) == ['"'] + us[1] + Quoted(us[2..]);
  }

  function PairSpans(s: string, i: nat): seq<Span>
    requires i <= |s|
  {
    Spans(Pair(), s, i)
  }

  function Rewritten(s: string, i: nat): string
    requires i <= |s|
  {
    ReplaceFrom(Pair(), RewritePair, s, i)
  }

  lemma PairStep(s: string, i: nat, e: nat)
    requires i < e <= |s| && Ends(Pair(), s, i) != [] && Ends(Pair(), s, i)[0] == e
    ensures PairSpans(s, i) == [(i, e)] + PairSpans(s, e)
    ensures Rewritten(s, i) == RewritePair(s[i..e]) + Rewritten(s, e)
  {
    ReplaceStepMatch(Pair(), RewritePair, s, i, e);
  }

  lemma OtherStep(s: string, i: nat)
    requires i < |s| && Ends(Pair(), s, i) == []
    ensures PairSpans(s, i) == PairSpans(s, i + 1)
    ensures Rewritten(s, i) == [s[i]] + Rewritten(s, i + 1)
  {
    ReplaceStepOver(Pair(), RewritePair, s, i);
  }

  lemma RewrittenAtEnd(s: string)
    ensures PairSpans(s, |s|) == [] && Rewritten(s, |s|) == ""
  {
    ReplaceAtEnd(Pair(), RewritePair, s);
  }

  /** The scan steps over text without quotes. */
  lemma {:induction false} SkipSegment(s: string, i: nat, n: nat)
    requires i + n <= |s| && forall k | i <= k < i + n :: s[k] != '"'
    ensures PairSpans(s, i) == PairSpans(s, i + n)
    ensures Rewritten(s, i) == s[i..i + n] + Rewritten(s, i + n)
    decreases n
  {
    hide PairSpans, Rewritten, Ends;
    if n == 0 {
      assert s[i..i] == "";
    } else {
      PairAtQuote(s, i);
      OtherStep(s, i);
      SkipSegment(s, i + 1, n - 1);
      assert s[i..i + n] == [s[i]] + s[i + 1..i + n];
    }
  }

  lemma {:induction false} UpToQuoteIs(key: string, rest: string)
    requires '"' !in key
    ensures UpToQuote(key + ['"'] + rest) == key
  {
    var s := key + ['"'] + rest;
    if key != "" {
      assert s[1..] == key[1..] + ['"'] + rest;
      UpToQuoteIs(key[1..], rest);
    }
  }

  function PairText(us: seq<string>): string
    requires |us| >= 3
  {
    ['"'] + us[0] + ['"'] + us[1] + ['"'] + us[2] + ['"']
  }

  /** Where the first four segments stand in the text. */
  lemma HeadSlices(us: seq<string>, s: string, i: nat, e: nat)
    requires |us| >= 4 && i <= |s| && s[i..] == Quoted(us) && e == i + |us[0]| + |us[1]| + |us[2]| + 4
    ensures e + |us[3]| <= |s| && s[i..e] == PairText(us)
    ensures s[e..e + |us[3]|] == us[3] && s[e + |us[3]|..] == Quoted(us[4..])
  {
    var rest := Quoted(us[4..]);
    QuotedAppend(us[..4], us[4..]);
    assert us[..4] + us[4..] == us;
    QuotedFour(us[..4]);
    assert Quoted(us) == PairText(us) + us[3] + rest;
    SliceThree(s, i, PairText(us), us[3], rest);
  }

  lemma SliceThree(s: string, i: nat, x: string, y: string, z: string)
    requires i <= |s| && s[i..] == x + y + z
    ensures i + |x| + |y| <= |s|
    ensures s[i..i + |x|] == x && s[i + |x|..i + |x| + |y|] == y && s[i + |x| + |y|..] == z
  {
    var t := x + y + z;
    assert |s[i..]| == |t|;
    assert s[i..i + |x|] == s[i..][..|x|] == t[..|x|];
    assert s[i + |x|..i + |x| + |y|] == s[i..][|x|..|x| + |y|] == t[|x|..|x| + |y|];
    assert s[i + |x| + |y|..] == s[i..][|x| + |y|..] == t[|x| + |y|..];
  }

  /** What the callback makes of the pair at the head of the segments. */
  lemma HeadRewrite(us: seq<string>)
    requires HeadPair(us) && QuoteFree(us)
    ensures KeyOf(PairText(us)) == us[0]
    ensures RewritePair(PairText(us)) == PairText(RewriteHead(us))
    ensures Quoted(RewriteHead(us)) == PairText(RewriteHead(us)) + us[3]
  {
    hide KeyMatchesPII, ColonSegment, KeySegment;
    var text := PairText(us);
    assert text[1..] == us[0] + ['"'] + (us[1] + ['"'] + us[2] + ['"']);
    UpToQuoteIs(us[0], us[1] + ['"'] + us[2] + ['"']);
    QuotedFour(RewriteHead(us));
    if KeyMatchesPII(us[0]) {
      assert "\"" + us[0] + "\":\"" + REDACTED + "\"" == ['"'] + us[0] + ['"'] + ":" + ['"'] + REDACTED + ['"'];
    }
  }

  /** One step of the scan over a pair, up to the next quote at `next`. */
  lemma StepPair(us: seq<string>, s: string, i: nat, e: nat, next: nat)
    requires i <= |s| && s[i..] == Quoted(us) && QuoteFree(us) && HeadPair(us)
    requires e == i + |us[0]| + |us[1]| + |us[2]| + 4 && next == e + |us[3]|
    ensures next <= |s| && s[i..e] == PairText(us) && s[next..] == Quoted(us[4..])
    ensures PairSpans(s, i) == [(i, e)] + PairSpans(s, next)
    ensures Rewritten(s, i) == Quoted(RewriteHead(us)) + Rewritten(s, next)
  {
    hide *;
    HeadLong(us);
    PairEnds(us, s, i);
    HeadSlices(us, s, i, e);
    HeadRewrite(us);
    PairStep(s, i, e);
    SegmentQuoteFree(us, 3);
    SkipText(s, e, us[3]);
    Associate(RewritePair(s[i..e]), us[3], Rewritten(s, next));
  }

  lemma HeadLong(us: seq<string>)
    requires HeadPair(us)
    ensures |us| >= 4
  {
  }

  lemma SegmentQuoteFree(us: seq<string>, k: nat)
    requires QuoteFree(us) && k < |us|
    ensures '"' !in us[k]
  {
  }

  lemma Associate(x: string, y: string, z: string)
    ensures x + (y + z) == (x + y) + z
  {
  }

  /** One step of the scan over a quote that opens no pair. */
  lemma StepSegment(us: seq<string>, s: string, i: nat)
    requires i <= |s| && s[i..] == Quoted(us) && QuoteFree(us) && us != [] && !HeadPair(us)
    ensures i + 1 + |us[0]| <= |s| && s[i + 1 + |us[0]|..] == Quoted(us[1..])
    ensures PairSpans(s, i) == PairSpans(s, i + 1 + |us[0]|)
    ensures Rewritten(s, i)
         == ['"'] + us[0] + Rewritten(s, i + 1 + |us[0]|)
  {
    hide PairSpans, Rewritten, Ends, HeadPair;
    AtSegment(us, s, i);
    PairEnds(us, s, i);
    OtherStep(s, i);
    SkipText(s, i + 1, us[0]);
  }

  /** The regex rewrite is the rewrite of the segments. */
  lemma {:induction false} RewriteIsSegments(us: seq<string>, s: string, i: nat)
    requires i <= |s| && s[i..] == Quoted(us) && QuoteFree(us)
    ensures Rewritten(s, i) == Quoted(RewriteSegments(us))
    decreases |us|
  {
    hide *;
    RewriteStep(us);
    if us == [] {
      SliceEmpty(s, i);
      RewrittenAtEnd(s);
      SegmentsOfNothing();
    } else if HeadPair(us) {
      HeadLong(us);
      QuoteFreeSlices(us, 4);
      var e := i + |us[0]| + |us[1]| + |us[2]| + 4;
      StepPair(us, s, i, e, e + |us[3]|);
      RewriteIsSegments(us[4..], s, e + |us[3]|);
      QuotedAppend(RewriteHead(us), RewriteSegments(us[4..]));
    } else {
      QuoteFreeSlices(us, 1);
      StepSegment(us, s, i);
      RewriteIsSegments(us[1..], s, i + 1 + |us[0]|);
      QuotedFirst(us[0], RewriteSegments(us[1..]));
    }
  }

  lemma SegmentsOfNothing()
    ensures Quoted([]) == ""
  {
  }

  lemma QuotedFirst(u: string, us: seq<string>)
    ensures Quoted([u] + us) == ['"'] + u + Quoted(us)
  {
    assert ([u] + us)[1..] == us;
  }

  lemma SkipText(s: string, i: nat, t: string)
    requires '"' !in t && i + |t| <= |s| && s[i..i + |t|] == t
    ensures PairSpans(s, i) == PairSpans(s, i + |t|)
    ensures Rewritten(s, i) == t + Rewritten(s, i + |t|)
  {
    hide PairSpans, Rewritten;
    forall k | i <= k < i + |t| ensures s[k] != '"' { assert s[k] == s[i..i + |t|][k - i]; }
    SkipSegment(s, i, |t|);
  }

  // --- filterPII leaves the text clean ---

  ghost predicate AllNoHit(b: Re, us: seq<string>) {
    forall k | 0 <= k < |us| :: NoHit(b, us[k])
  }

  /** A text is free of a sealed pattern exactly when each of its segments is. */
  lemma {:induction false} SegmentsFree(b: Re, t: string, us: seq<string>)
    requires Sealed(b)
    ensures NoHit(b, t + Quoted(us)) <==> NoHit(b, t) && AllNoHit(b, us)
    decreases |us|
  {
    if us == [] {
      assert t + Quoted(us) == t;
    } else {
      assert t + Quoted(us) == t + ['"'] + (us[0] + Quoted(us[1..]));
      CutFree(b, t, '"', us[0] + Quoted(us[1..]));
      SegmentsFree(b, us[0], us[1..]);
      assert us == [us[0]] + us[1..];
    }
  }

  lemma {:induction false} RewriteNoHit(b: Re, us: seq<string>)
    requires Sealed(b) && AllNoHit(b, us)
    ensures AllNoHit(b, RewriteSegments(us))
    decreases |us|
  {
    hide *;
    RewriteStep(us);
    if HeadPair(us) {
      HeadLong(us);
      NoHitSlices(b, us, 4);
      RewriteNoHit(b, us[4..]);
      HeadNoHit(b, us);
      NoHitAppend(b, RewriteHead(us), RewriteSegments(us[4..]));
    } else if us != [] {
      NoHitSlices(b, us, 1);
      RewriteNoHit(b, us[1..]);
      assert us[..1] == [us[0]];
      NoHitAppend(b, [us[0]], RewriteSegments(us[1..]));
    }
  }

  lemma NoHitSlices(b: Re, us: seq<string>, n: nat)
    requires AllNoHit(b, us) && n <= |us|
    ensures AllNoHit(b, us[..n]) && AllNoHit(b, us[n..])
  {
    hide NoHit;
  }

  lemma HeadNoHit(b: Re, us: seq<string>)
    requires Sealed(b) && HeadPair(us) && AllNoHit(b, us)
    ensures AllNoHit(b, RewriteHead(us))
  {
    hide KeyMatchesPII, ColonSegment, KeySegment, NoHit;
    InnocentFree(b, ":");
    InnocentFree(b, REDACTED);
  }

  lemma NoHitAppend(b: Re, us: seq<string>, vs: seq<string>)
    requires AllNoHit(b, us) && AllNoHit(b, vs)
    ensures AllNoHit(b, us + vs)
  {
    hide NoHit;
  }

  /** The whole rewrite, on the segments of the text. */
  lemma RewrittenWhole(s: string)
    ensures Rewritten(s, 0) == Segments(s)[0] + Quoted(RewriteSegments(Segments(s)[1..]))
  {
    hide Rewritten, PairSpans, RewriteSegments;
    var us := Segments(s);
    var n := |us[0]|;
    SegmentsJoin(s);
    assert s[0..n] == us[0] && s[n..] == Quoted(us[1..]);
    SkipText(s, 0, us[0]);
    assert QuoteFree(us[1..]);
    RewriteIsSegments(us[1..], s, n);
  }

  lemma RewriteKeepsNoHit(b: Re, s: string)
    requires Sealed(b) && NoHit(b, s)
    ensures NoHit(b, Rewritten(s, 0))
  {
    var us := Segments(s);
    SegmentsJoin(s);
    SegmentsFree(b, us[0], us[1..]);
    RewriteNoHit(b, us[1..]);
    SegmentsFree(b, us[0], RewriteSegments(us[1..]));
    RewrittenWhole(s);
  }

  /** The key/value rewrite brings no match back. */
  lemma FilteredIsClean(input: string)
    ensures Clean(Filtered(input))
  {
    var s := Redacted(input);
    RedactedIsClean(input);
    CleanHits(s);
    BodiesSealed();
    RewriteKeepsNoHit(SsnBody(), s);
    RewriteKeepsNoHit(CardBody(), s);
    RewriteKeepsNoHit(EmailBody(), s);
    RewriteKeepsNoHit(PhoneBody(), s);
    CleanHits(Rewritten(s, 0));
  }

  // --- filterPII is idempotent ---

  /** Every pair that the scan of `s` visits from `i` on is left as it is, and a visited pair
      with a PII key has the value [REDACTED]. */
  ghost predicate Settled(s: string, spans: seq<Span>) {
    forall k | 0 <= k < |spans| :: spans[k].0 < spans[k].1 <= |s| && SettledPair(s[spans[k].0..spans[k].1])
  }

  ghost predicate SettledPair(text: string)
    requires text != ""
  {
    KeyMatchesPII(KeyOf(text)) ==> text == ['"'] + KeyOf(text) + ['"'] + ":" + ['"'] + REDACTED + ['"']
  }

  lemma {:induction false} FixpointSettled(us: seq<string>, s: string, i: nat)
    requires i <= |s| && s[i..] == Quoted(us) && QuoteFree(us) && RewriteSegments(us) == us
    ensures Settled(s, PairSpans(s, i))
    decreases |us|
  {
    hide KeyMatchesPII, PairSpans, Rewritten, RewritePair, ColonSegment, KeySegment, Quoted;
    if us == [] {
      SliceEmpty(s, i);
      RewrittenAtEnd(s);
    } else if HeadPair(us) {
      var e := i + |us[0]| + |us[1]| + |us[2]| + 4;
      StepPair(us, s, i, e, e + |us[3]|);
      HeadRewrite(us);
      assert us[..4] == RewriteHead(us) && us[4..] == RewriteSegments(us[4..]);
      assert us[1] == us[..4][1] && us[2] == us[..4][2];
      FixpointSettled(us[4..], s, e + |us[3]|);
    } else {
      StepSegment(us, s, i);
      assert us[1..] == RewriteSegments(us)[1..] == RewriteSegments(us[1..]);
      FixpointSettled(us[1..], s, i + 1 + |us[0]|);
    }
  }

  lemma SliceEmpty(s: string, i: nat)
    requires i <= |s| && s[i..] == Quoted([])
    ensures i == |s|
  {
  }

  /** The text of the rewritten segments. */
  lemma OutputSegments(s: string)
    ensures var us := Segments(s); var vs := RewriteSegments(us[1..]);
            && Rewritten(s, 0) == us[0] + Quoted(vs) && QuoteFree(vs) && RewriteSegments(vs) == vs
  {
    var us := Segments(s);
    RewrittenWhole(s);
    assert QuoteFree(us[1..]);
    RewriteQuoteFree(us[1..]);
    RewriteSegmentsTwice(us[1..]);
  }

  lemma OutputSettled(s: string)
    ensures Settled(Rewritten(s, 0), PairSpans(Rewritten(s, 0), 0))
    ensures Rewritten(Rewritten(s, 0), 0) == Rewritten(s, 0)
  {
    hide Rewritten, PairSpans, RewriteSegments, Settled, Segments;
    var us := Segments(s);
    var vs := RewriteSegments(us[1..]);
    var out := Rewritten(s, 0);
    OutputSegments(s);
    assert out[0..|us[0]|] == us[0] && out[|us[0]|..] == Quoted(vs);
    SkipText(out, 0, us[0]);
    FixpointSettled(vs, out, |us[0]|);
    RewriteIsSegments(vs, out, |us[0]|);
  }

  /** In the output every pair that a scan finds and whose key is a PII key has its value
      redacted. */
  lemma FilteredPairsRedacted(input: string)
    ensures Settled(Filtered(input), PairSpans(Filtered(input), 0))
  {
    OutputSettled(Redacted(input));
  }

  lemma FilteredTwice(input: string)
    ensures Filtered(Filtered(input)) == Filtered(input)
  {
    FilteredIsClean(input);
    UnchangedIffClean(Filtered(input));
    OutputSettled(Redacted(input));
  }

  /** The leaf redaction leaves a filtered message alone. */
  lemma RedactedAfterFiltered(input: string)
    ensures Redacted(Filtered(input)) == Filtered(input)
  {
    FilteredIsClean(input);
    UnchangedIffClean(Filtered(input));
  }

  /** The message filter leaves a text alone if and only if no pattern matches it and every pair that a
      scan finds under a PII key is redacted already. */
  lemma UnchangedIffSettled(s: string)
    ensures Filtered(s) == s <==> Clean(s) && Settled(s, PairSpans(s, 0))
  {
    if Filtered(s) == s {
      FilteredIsClean(s);
      FilteredPairsRedacted(s);
    }
    if Clean(s) && Settled(s, PairSpans(s, 0)) {
      UnchangedIffClean(s);
      SettledStays(s);
    }
  }

  lemma SettledStays(s: string)
    requires Settled(s, PairSpans(s, 0))
    ensures Replace(Pair(), RewritePair, s) == s
  {
    PairScan(s);
    hide *;
    var spans := PairSpans(s, 0);
    forall m | m in spans ensures m.0 < m.1 <= |s| && RewritePair(s[m.0..m.1]) == s[m.0..m.1] {
      SettledAt(s, spans, m);
      SettledRewrite(s[m.0..m.1]);
    }
    ReplaceSame(Pair(), RewritePair, s);
  }

  lemma PairScan(s: string)
    ensures Consumes(Pair()) && PairSpans(s, 0) == Spans(Pair(), s, 0)
  {
  }

  lemma SettledAt(s: string, spans: seq<Span>, m: Span)
    requires Settled(s, spans) && m in spans
    ensures m.0 < m.1 <= |s| && SettledPair(s[m.0..m.1])
  {
    hide SettledPair;
    var k :| 0 <= k < |spans| && spans[k] == m;
  }

  lemma SettledRewrite(text: string)
    requires text != "" && SettledPair(text)
    ensures RewritePair(text) == text
  {
    hide KeyMatchesPII, KeyOf;
    assert "\":\"" == ['"'] + ":" + ['"'] && "\"" == ['"'];
  }

  ghost function WithPair(a: string, key: string, gap: string, value: string, b: string): string {
    a + "\"" + key + "\"" + gap + "\"" + value + "\"" + b
  }

  /** One pair in a text without other quotes: under a PII key its value gives way to the redaction and the
      white space around the colon goes; otherwise nothing changes. */
  lemma PairRewritten(a: string, key: string, gap: string, value: string, b: string)
    requires '"' !in a && '"' !in value && '"' !in b && KeySegment(key) && ColonSegment(gap)
    requires NothingSensitive(WithPair(a, key, gap, value, b))
    ensures Filtered(WithPair(a, key, gap, value, b)) ==
            if KeyMatchesPII(key) then WithPair(a, key, ":", "[REDACTED]", b) else WithPair(a, key, gap, value, b)
  {
    hide *;
    var s, us := WithPair(a, key, gap, value, b), [key, gap, value, b];
    PairSegments(key, gap, value, b);
    PairInText(a, key, gap, value, b);
    FilteredText(s);
    SkipText(s, 0, a);
    RewriteIsSegments(us, s, |a|);
    PairHead(us);
    PairOut(key, gap, value, b);
    PairInText(a, key, ":", "[REDACTED]", b);
  }

  lemma PairSegments(key: string, gap: string, value: string, b: string)
    requires '"' !in value && '"' !in b && KeySegment(key) && ColonSegment(gap)
    ensures QuoteFree([key, gap, value, b]) && HeadPair([key, gap, value, b])
  {
    ColonQuoteFree(gap);
  }

  lemma ColonQuoteFree(gap: string)
    requires ColonSegment(gap)
    ensures '"' !in gap
  {
    var k :| 0 <= k < |gap| && ColonAt(gap, k);
    forall m | 0 <= m < |gap| ensures gap[m] != '"' {
      assert m != k ==> White(gap[m]);
    }
  }

  lemma PairInText(a: string, key: string, gap: string, value: string, b: string)
    ensures var s := WithPair(a, key, gap, value, b);
            s == a + Quoted([key, gap, value, b]) && |a| <= |s| && s[0..|a|] == a && s[|a|..] == Quoted([key, gap, value, b])
  {
    QuotedFour([key, gap, value, b]);
    hide Quoted;
    var q := "\"";
    var p1 := q + key;
    var p2 := p1 + q;
    var p3 := p2 + gap;
    var p4 := p3 + q;
    var p5 := p4 + value;
    var p6 := p5 + q;
    Appended(a, q, key);
    Appended(a, p1, q);
    Appended(a, p2, gap);
    Appended(a, p3, q);
    Appended(a, p4, value);
    Appended(a, p5, q);
    Appended(a, p6, b);
  }

  lemma Appended(a: string, x: string, y: string)
    ensures a + (x + y) == (a + x) + y
  {
  }

  lemma FilteredText(s: string)
    requires NothingSensitive(s)
    ensures Filtered(s) == Rewritten(s, 0)
  {
    CleanExactly(s);
    UnchangedIffClean(s);
    hide Redacted, ReplaceFrom;
  }

  lemma PairHead(us: seq<string>)
    requires |us| == 4 && HeadPair(us)
    ensures RewriteSegments(us) == RewriteHead(us)
  {
    hide HeadPair, RewriteHead;
    RewriteStep(us);
    RewriteStep(us[4..]);
    assert us[4..] == [];
  }

  lemma PairOut(key: string, gap: string, value: string, b: string)
    requires HeadPair([key, gap, value, b])
    ensures RewriteHead([key, gap, value, b]) == if KeyMatchesPII(key) then [key, ":", "[REDACTED]", b] else [key, gap, value, b]
  {
    hide KeyMatchesPII, HeadPair;
    assert [key, gap, value, b][..4] == [key, gap, value, b];
  }

  /** The four passes and the rewrite of pairs. None of the patterns matches the result, every pair
      found under a PII key is redacted, and only a text that needs it is changed. */
  method FilterPII(input: string) returns (filtered: string)
    ensures filtered == Filtered(input)
    ensures Clean(filtered) && Settled(filtered, PairSpans(filtered, 0))
    ensures filtered == input <==> Clean(input) && Settled(input, PairSpans(input, 0))
  {
    BodiesConsume();
    hide SsnBody, CardBody, EmailBody, PhoneBody, Pass, Clean, Settled, PairSpans;
    filtered := input;
    filtered := Pass(SsnBody(), "SSN-REDACTED", filtered);
    filtered := Pass(CardBody(), "CARD-REDACTED", filtered);
    filtered := Pass(EmailBody(), "EMAIL-REDACTED", filtered);
    filtered := Pass(PhoneBody(), "PHONE-REDACTED", filtered);
    filtered := Replace(Pair(), RewritePair, filtered);
    FilteredIsClean(input);
    FilteredPairsRedacted(input);
    UnchangedIffSettled(input);
  }
}
