/** The part of ECMA-262 regular expressions (section 22.2.2) that the repository's
    patterns use. `Ends` is the backtracking matcher: the list of end positions it would
    try, in order of priority, so that its head is the end that `exec` reports.
    `Matches` is the language of the pattern, and `EndsExact` connects the two. */
module Regex {

  datatype Re =
    | One(accepts: char -> bool)   // a character class
    | Edge                         // \b
    | End                          // $
    | Cat(left: Re, right: Re)
    | Alt(left: Re, right: Re)
    | Opt(body: Re)                // greedy ?
    | Star(accepts: char -> bool)  // greedy * of a character class

  predicate IsWord(c: char) {
    'A' <= c <= 'Z' || 'a' <= c <= 'z' || '0' <= c <= '9' || c == '_'
  }

  predicate WordAt(s: string, i: int) {
    0 <= i < |s| && IsWord(s[i])
  }

  /** The assertion \b: exactly one of the two neighbours is a word character. */
  predicate Boundary(s: string, i: int) {
    WordAt(s, i - 1) != WordAt(s, i)
  }

  /** A letter, a digit or an underscore, of ASCII. */
  ghost predicate WordCharacterAt(s: string, i: int) {
    0 <= i < |s| && ('A' <= s[i] <= 'Z' || 'a' <= s[i] <= 'z' || '0' <= s[i] <= '9' || s[i] == '_')
  }

  /** \b: a word character on exactly one side. */
  ghost predicate WordEdge(s: string, i: int) {
    WordCharacterAt(s, i - 1) <==> !WordCharacterAt(s, i)
  }

  lemma EdgeIs(s: string, i: int)
    ensures Boundary(s, i) <==> WordEdge(s, i)
  {
  }

  // --- The language of a pattern ---

  ghost predicate Matches(r: Re, s: string, i: nat, j: nat)
    requires i <= j <= |s|
  {
    match r
    case One(p) => j == i + 1 && p(s[i])
    case Edge => j == i && Boundary(s, i)
    case End => j == i && i == |s|
    case Cat(a, b) => exists k: nat | i <= k <= j :: Matches(a, s, i, k) && Matches(b, s, k, j)
    case Alt(a, b) => Matches(a, s, i, j) || Matches(b, s, i, j)
    case Opt(a) => j == i || Matches(a, s, i, j)
    case Star(p) => forall k | i <= k < j :: p(s[k])
  }

  lemma CatSplit(a: Re, b: Re, s: string, i: nat, j: nat) returns (k: nat)
    requires i <= j <= |s| && Matches(Cat(a, b), s, i, j)
    ensures i <= k <= j && Matches(a, s, i, k) && Matches(b, s, k, j)
  {
    k :| i <= k <= j && Matches(a, s, i, k) && Matches(b, s, k, j);
  }

  lemma CatJoin(a: Re, b: Re, s: string, i: nat, k: nat, j: nat)
    requires i <= k <= j <= |s| && Matches(a, s, i, k) && Matches(b, s, k, j)
    ensures Matches(Cat(a, b), s, i, j)
  {
  }

  // --- The matcher ---

  predicate Within(js: seq<nat>, lo: nat, hi: nat) {
    forall k | 0 <= k < |js| :: lo <= js[k] <= hi
  }

  function Ends(r: Re, s: string, i: nat): (js: seq<nat>)
    requires i <= |s|
    ensures Within(js, i, |s|)
    decreases r, 0, |s| - i
  {
    match r
    case One(p) => if i < |s| && p(s[i]) then [i + 1] else []
    case Edge => if Boundary(s, i) then [i] else []
    case End => if i == |s| then [i] else []
    case Cat(a, b) => EndsAfter(b, s, i, Ends(a, s, i))
    case Alt(a, b) => Ends(a, s, i) + Ends(b, s, i)
    case Opt(a) => Ends(a, s, i) + [i]
    case Star(p) => if i < |s| && p(s[i]) then Ends(r, s, i + 1) + [i] else [i]
  }

  /** The continuation of `Cat`: try `r` after each end of the left part in turn. */
  function EndsAfter(r: Re, s: string, lo: nat, starts: seq<nat>): (js: seq<nat>)
    requires Within(starts, lo, |s|)
    ensures Within(js, lo, |s|)
    decreases r, 1, |starts|
  {
    if starts == [] then [] else Ends(r, s, starts[0]) + EndsAfter(r, s, lo, starts[1..])
  }

  lemma {:induction false} EndsAfterIn(r: Re, s: string, lo: nat, starts: seq<nat>, j: nat)
    requires Within(starts, lo, |s|)
    ensures j in EndsAfter(r, s, lo, starts) <==> exists k | k in starts :: j in Ends(r, s, k)
  {
    if starts != [] {
      EndsAfterIn(r, s, lo, starts[1..], j);
      assert starts[0] in starts;
      if j in EndsAfter(r, s, lo, starts[1..]) {
        var k :| k in starts[1..] && j in Ends(r, s, k);
        assert k in starts;
      }
      if k :| k in starts && j in Ends(r, s, k) {
        assert k == starts[0] || k in starts[1..];
      }
    }
  }

  /** The matcher explores exactly the language of the pattern. */
  lemma {:induction false} EndsExact(r: Re, s: string, i: nat, j: nat)
    requires i <= |s|
    ensures j in Ends(r, s, i) <==> i <= j <= |s| && Matches(r, s, i, j)
    decreases r, |s| - i
  {
    hide *;
    match r
    case Cat(a, b) =>
      forall k: nat | i <= k <= |s|
        ensures k in Ends(a, s, i) <==> Matches(a, s, i, k)
        ensures j in Ends(b, s, k) <==> k <= j <= |s| && Matches(b, s, k, j)
      {
        EndsExact(a, s, i, k);
        EndsExact(b, s, k, j);
      }
      CatEnds(a, b, s, i, j);
    case Alt(a, b) =>
      EndsExact(a, s, i, j);
      EndsExact(b, s, i, j);
      ChoiceEnds(a, b, s, i, j);
    case Opt(a) =>
      EndsExact(a, s, i, j);
      ChoiceEnds(a, a, s, i, j);
    case Star(p) =>
      if i < |s| {
        EndsExact(r, s, i + 1, j);
      }
      StarEnds(p, s, i, j);
    case _ => LeafEnds(r, s, i, j);
  }

  lemma LeafEnds(r: Re, s: string, i: nat, j: nat)
    requires i <= |s| && (r.One? || r.Edge? || r.End?)
    ensures j in Ends(r, s, i) <==> i <= j <= |s| && Matches(r, s, i, j)
  {
  }

  lemma CatEnds(a: Re, b: Re, s: string, i: nat, j: nat)
    requires i <= |s|
    requires forall k: nat | i <= k <= |s| :: k in Ends(a, s, i) <==> Matches(a, s, i, k)
    requires forall k: nat | i <= k <= |s| :: j in Ends(b, s, k) <==> k <= j <= |s| && Matches(b, s, k, j)
    ensures j in Ends(Cat(a, b), s, i) <==> i <= j <= |s| && Matches(Cat(a, b), s, i, j)
  {
    EndsAfterIn(b, s, i, Ends(a, s, i), j);
  }

  lemma ChoiceEnds(a: Re, b: Re, s: string, i: nat, j: nat)
    requires i <= |s|
    requires j in Ends(a, s, i) <==> i <= j <= |s| && Matches(a, s, i, j)
    requires j in Ends(b, s, i) <==> i <= j <= |s| && Matches(b, s, i, j)
    ensures j in Ends(Alt(a, b), s, i) <==> i <= j <= |s| && Matches(Alt(a, b), s, i, j)
    ensures j in Ends(Opt(a), s, i) <==> i <= j <= |s| && Matches(Opt(a), s, i, j)
  {
  }

  lemma StarEnds(p: char -> bool, s: string, i: nat, j: nat)
    requires i <= |s|
    requires i < |s| ==> (j in Ends(Star(p), s, i + 1) <==> i + 1 <= j <= |s| && Matches(Star(p), s, i + 1, j))
    ensures j in Ends(Star(p), s, i) <==> i <= j <= |s| && Matches(Star(p), s, i, j)
  {
  }

  // --- What can be read off a pattern ---

  /** No assertion inside: the match depends on the matched text alone. */
  predicate Plain(r: Re) {
    match r
    case One(_) => true
    case Edge => false
    case End => false
    case Cat(a, b) => Plain(a) && Plain(b)
    case Alt(a, b) => Plain(a) && Plain(b)
    case Opt(a) => Plain(a)
    case Star(_) => true
  }

  /** No class of the pattern accepts `c`. */
  predicate Avoids(r: Re, c: char) {
    match r
    case One(p) => !p(c)
    case Edge => true
    case End => true
    case Cat(a, b) => Avoids(a, c) && Avoids(b, c)
    case Alt(a, b) => Avoids(a, c) && Avoids(b, c)
    case Opt(a) => Avoids(a, c)
    case Star(p) => !p(c)
  }

  /** No match is empty. */
  predicate Consumes(r: Re) {
    match r
    case One(_) => true
    case Cat(a, b) => Consumes(a) || Consumes(b)
    case Alt(a, b) => Consumes(a) && Consumes(b)
    case _ => false
  }

  /** Every matched text holds a character that satisfies `q`. */
  ghost predicate Needs(r: Re, q: char -> bool) {
    match r
    case One(p) => forall c | p(c) :: q(c)
    case Edge => false
    case End => false
    case Cat(a, b) => Needs(a, q) || Needs(b, q)
    case Alt(a, b) => Needs(a, q) && Needs(b, q)
    case Opt(_) => false
    case Star(_) => false
  }

  lemma {:induction false} MatchAvoids(r: Re, c: char, s: string, i: nat, j: nat)
    requires i <= j <= |s| && Matches(r, s, i, j) && Avoids(r, c)
    ensures c !in s[i..j]
  {
    match r
    case Cat(a, b) =>
      var k: nat :| i <= k <= j && Matches(a, s, i, k) && Matches(b, s, k, j);
      MatchAvoids(a, c, s, i, k);
      MatchAvoids(b, c, s, k, j);
      assert s[i..j] == s[i..k] + s[k..j];
    case Alt(a, b) => if Matches(a, s, i, j) { MatchAvoids(a, c, s, i, j); } else { MatchAvoids(b, c, s, i, j); }
    case Opt(a) => if j != i { MatchAvoids(a, c, s, i, j); }
    case _ =>
  }

  lemma {:induction false} MatchConsumes(r: Re, s: string, i: nat, j: nat)
    requires i <= j <= |s| && Matches(r, s, i, j) && Consumes(r)
    ensures i < j
  {
    match r
    case One(_) =>
    case Cat(a, b) =>
      var k: nat :| i <= k <= j && Matches(a, s, i, k) && Matches(b, s, k, j);
      if Consumes(a) { MatchConsumes(a, s, i, k); } else { MatchConsumes(b, s, k, j); }
    case Alt(a, b) => if Matches(a, s, i, j) { MatchConsumes(a, s, i, j); } else { MatchConsumes(b, s, i, j); }
  }

  lemma {:induction false} MatchNeeds(r: Re, q: char -> bool, s: string, i: nat, j: nat)
    requires i <= j <= |s| && Matches(r, s, i, j) && Needs(r, q)
    ensures exists k :: i <= k < j && q(s[k])
  {
    match r
    case One(p) => assert q(s[i]);
    case Cat(a, b) =>
      var k: nat :| i <= k <= j && Matches(a, s, i, k) && Matches(b, s, k, j);
      if Needs(a, q) { MatchNeeds(a, q, s, i, k); } else { MatchNeeds(b, q, s, k, j); }
    case Alt(a, b) => if Matches(a, s, i, j) { MatchNeeds(a, q, s, i, j); } else { MatchNeeds(b, q, s, i, j); }
    case _ =>
  }

  /** A plain pattern matches equal texts equally, wherever they stand. */
  lemma {:induction false} MatchLocal(r: Re, s: string, i: nat, j: nat, t: string, d: int)
    requires i <= j <= |s| && 0 <= i + d && j + d <= |t|
    requires s[i..j] == t[i + d..j + d]
    requires Plain(r) && Matches(r, s, i, j)
    ensures Matches(r, t, i + d, j + d)
  {
    forall k | i <= k < j ensures s[k] == t[k + d] {
      assert s[k] == s[i..j][k - i] == t[i + d..j + d][k - i];
    }
    match r
    case Cat(a, b) =>
      var k: nat :| i <= k <= j && Matches(a, s, i, k) && Matches(b, s, k, j);
      assert s[i..k] == t[i + d..k + d] && s[k..j] == t[k + d..j + d];
      MatchLocal(a, s, i, k, t, d);
      MatchLocal(b, s, k, j, t, d);
      assert Matches(a, t, i + d, k + d) && Matches(b, t, k + d, j + d);
    case Alt(a, b) => if Matches(a, s, i, j) { MatchLocal(a, s, i, j, t, d); } else { MatchLocal(b, s, i, j, t, d); }
    case Opt(a) => if j != i { MatchLocal(a, s, i, j, t, d); }
    case Star(p) =>
      forall k | i + d <= k < j + d ensures p(t[k]) { assert p(s[k - d]); }
    case One(p) => assert s[i] == t[i + d];
  }

  /** `RegExp.prototype.test`: some position matches. */
  predicate Test(r: Re, s: string) {
    exists i | 0 <= i <= |s| :: Ends(r, s, i) != []
  }

  lemma TestExact(r: Re, s: string)
    ensures Test(r, s) <==> exists i: nat, j: nat | i <= j <= |s| :: Matches(r, s, i, j)
  {
    if Test(r, s) {
      var i :| 0 <= i <= |s| && Ends(r, s, i) != [];
      EndsExact(r, s, i, Ends(r, s, i)[0]);
    }
    if i: nat, j: nat :| i <= j <= |s| && Matches(r, s, i, j) {
      EndsExact(r, s, i, j);
    }
  }
}
