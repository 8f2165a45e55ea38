/** src/utils/pii-filter.ts: what `redactSensitiveStrings` makes of a text, by its characters. */
module PiiTags {
  import opened Cutting
  import opened PiiForms
  import opened PiiPatterns
  import opened Regex
  import opened Replacement

  // --- The forms do not hide in each other ---

  lemma NoSsnInCard(s: string, a: int, b: int, c: int, i: int, x: int, y: int, j: int)
    requires CardAt(s, 0, a, b, c, |s|)
    ensures !(WordEdge(s, i) && SsnAt(s, i, x, y, j) && WordEdge(s, j))
  {
  }

  lemma NoSsnInPhone(s: string, p: int, q: int, r: int, t: int, u: int, v: int, i: int, x: int, y: int, j: int)
    requires PhoneAt(s, 0, p, q, r, t, u, v, |s|)
    ensures !(WordEdge(s, i) && SsnAt(s, i, x, y, j) && WordEdge(s, j))
  {
  }

  lemma NoCardInPhone(s: string, p: int, q: int, r: int, t: int, u: int, v: int, i: int, a: int, b: int, c: int, j: int)
    requires PhoneAt(s, 0, p, q, r, t, u, v, |s|)
    ensures !CardAt(s, i, a, b, c, j)
  {
  }

  // --- A whole text of one form is one match ---

  lemma OnlyEnd(body: Re, s: string)
    requires Consumes(body) && Hit(body, s, 0, |s|) && forall j: nat | Hit(body, s, 0, j) :: j == |s|
    ensures Whole(body, s)
  {
    hide Hit, Boundary;
    HitConsumes(body, s);
    BoundedHit(body, s, 0, |s|);
    EndsExact(Bounded(body), s, 0, |s|);
    var j := Ends(Bounded(body), s, 0)[0];
    EndsExact(Bounded(body), s, 0, j);
    BoundedHit(body, s, 0, j);
  }

  lemma HitConsumes(body: Re, s: string)
    requires Consumes(body) && Hit(body, s, 0, |s|)
    ensures s != ""
  {
    MatchConsumes(body, s, 0, |s|);
  }

  lemma SsnUnique(s: string, a: int, b: int, j: int, x: int, y: int, k: int)
    requires SsnAt(s, 0, a, b, j) && SsnAt(s, 0, x, y, k)
    ensures j == k
  {
  }

  lemma CardUnique(s: string, a: int, b: int, c: int, j: int, x: int, y: int, z: int, k: int)
    requires CardAt(s, 0, a, b, c, j) && CardAt(s, 0, x, y, z, k)
    ensures j == k
  {
  }

  lemma NumberUnique(s: string, t: int, u: int, v: int, j: int, x: int, y: int, z: int, k: int)
    requires NumberAt(s, 0, t, u, v, j) && NumberAt(s, 0, x, y, z, k)
    ensures j == k
  {
  }

  /** A span of the form between two edges is a hit. */
  lemma HitIs(s: string, i: nat, j: nat)
    requires i <= j <= |s|
    ensures Hit(SsnBody(), s, i, j) <==> SsnForm(s, i, j) && WordEdge(s, i) && WordEdge(s, j)
    ensures Hit(CardBody(), s, i, j) <==> CardForm(s, i, j) && WordEdge(s, i) && WordEdge(s, j)
    ensures Hit(EmailBody(), s, i, j) <==> EmailForm(s, i, j) && WordEdge(s, i) && WordEdge(s, j)
    ensures Hit(PhoneBody(), s, i, j) <==> PhoneForm(s, i, j) && WordEdge(s, i) && WordEdge(s, j)
  {
    FormsExactly(s, i, j);
    EdgeIs(s, i);
    EdgeIs(s, j);
    hide Matches, SsnBody, CardBody, EmailBody, PhoneBody, SsnForm, CardForm, EmailForm, PhoneForm, Boundary, WordEdge;
  }

  lemma SsnWhole(s: string)
    requires SsnForm(s, 0, |s|)
    ensures Whole(SsnBody(), s)
  {
    var a, b :| SsnAt(s, 0, a, b, |s|);
    assert WordEdge(s, 0) && WordEdge(s, |s|);
    hide SsnBody, SsnAt, Hit, WordEdge;
    FormsInside(s, 0, |s|);
    HitIs(s, 0, |s|);
    forall j: nat | Hit(SsnBody(), s, 0, j) ensures j == |s| {
      HitInside(SsnBody(), s, 0, j);
      HitIs(s, 0, j);
      var x, y :| SsnAt(s, 0, x, y, j);
      SsnUnique(s, a, b, |s|, x, y, j);
    }
    BodiesConsume();
    OnlyEnd(SsnBody(), s);
  }

  lemma HitInside(body: Re, s: string, i: nat, j: nat)
    requires Hit(body, s, i, j)
    ensures i <= j <= |s|
  {
  }

  lemma CardWhole(s: string)
    requires CardForm(s, 0, |s|)
    ensures Whole(CardBody(), s)
  {
    var a, b, c :| CardAt(s, 0, a, b, c, |s|);
    assert WordEdge(s, 0) && WordEdge(s, |s|);
    hide CardBody, CardAt, Hit, WordEdge;
    FormsInside(s, 0, |s|);
    HitIs(s, 0, |s|);
    forall j: nat | Hit(CardBody(), s, 0, j) ensures j == |s| {
      HitInside(CardBody(), s, 0, j);
      HitIs(s, 0, j);
      var x, y, z :| CardAt(s, 0, x, y, z, j);
      CardUnique(s, a, b, c, |s|, x, y, z, j);
    }
    BodiesConsume();
    OnlyEnd(CardBody(), s);
  }

  lemma TagTexts()
    ensures "[" + "SSN-REDACTED" + "]" == "[SSN-REDACTED]" && "[" + "CARD-REDACTED" + "]" == "[CARD-REDACTED]"
    ensures "[" + "EMAIL-REDACTED" + "]" == "[EMAIL-REDACTED]" && "[" + "PHONE-REDACTED" + "]" == "[PHONE-REDACTED]"
  {
  }

  /** A text that is an SSN becomes the SSN tag. */
  lemma SsnTagged(s: string)
    requires SsnForm(s, 0, |s|)
    ensures Redacted(s) == "[SSN-REDACTED]"
  {
    hide *;
    SsnWhole(s);
    WholeTagged(s);
    TagTexts();
  }

  lemma CardHasNoSsn(s: string)
    requires CardForm(s, 0, |s|)
    ensures Free(Ssn(), s)
  {
    var a, b, c :| CardAt(s, 0, a, b, c, |s|);
    hide SsnBody, CardAt, SsnAt, Hit, WordEdge;
    BoundedFree(SsnBody(), s);
    forall i: nat, j: nat ensures !Hit(SsnBody(), s, i, j) {
      forall x, y ensures !(WordEdge(s, i) && SsnAt(s, i, x, y, j) && WordEdge(s, j)) {
        NoSsnInCard(s, a, b, c, i, x, y, j);
      }
      if i <= j <= |s| {
        HitIs(s, i, j);
      } else {
        NoHitOutside(SsnBody(), s, i, j);
      }
    }
  }

  lemma NoHitOutside(body: Re, s: string, i: nat, j: nat)
    requires !(i <= j <= |s|)
    ensures !Hit(body, s, i, j)
  {
  }

  /** A text that is a card number becomes the card tag. */
  lemma CardTagged(s: string)
    requires CardForm(s, 0, |s|)
    ensures Redacted(s) == "[CARD-REDACTED]"
  {
    hide *;
    CardHasNoSsn(s);
    CardWhole(s);
    WholeTagged(s);
    TagTexts();
  }

  // --- Phone numbers ---

  lemma PhoneHasNoOther(s: string)
    requires PhoneForm(s, 0, |s|)
    ensures Free(Ssn(), s) && Free(Card(), s) && Free(Email(), s)
  {
    var p, q, r, t, u, v :| PhoneAt(s, 0, p, q, r, t, u, v, |s|);
    NoAtInPhone(s, p, q, r, t, u, v);
    hide SsnBody, CardBody, EmailBody, CardAt, SsnAt, PhoneAt, Hit, WordEdge;
    BoundedFree(SsnBody(), s);
    BoundedFree(CardBody(), s);
    BoundedFree(EmailBody(), s);
    forall i: nat, j: nat ensures !Hit(SsnBody(), s, i, j) && !Hit(CardBody(), s, i, j) && !Hit(EmailBody(), s, i, j) {
      forall x, y ensures !(WordEdge(s, i) && SsnAt(s, i, x, y, j) && WordEdge(s, j)) {
        NoSsnInPhone(s, p, q, r, t, u, v, i, x, y, j);
      }
      forall a, b, c ensures !CardAt(s, i, a, b, c, j) {
        NoCardInPhone(s, p, q, r, t, u, v, i, a, b, c, j);
      }
      if i <= j <= |s| {
        HitIs(s, i, j);
      } else {
        NoHitOutside(SsnBody(), s, i, j);
        NoHitOutside(CardBody(), s, i, j);
        NoHitOutside(EmailBody(), s, i, j);
      }
    }
  }

  lemma NoAtInPhone(s: string, p: int, q: int, r: int, t: int, u: int, v: int)
    requires PhoneAt(s, 0, p, q, r, t, u, v, |s|)
    ensures forall k | 0 <= k < |s| :: s[k] != '@'
  {
  }

  lemma DigitFirst(s: string, p: int, q: int, r: int, t: int, u: int, v: int, j: int)
    requires PhoneAt(s, 0, p, q, r, t, u, v, j) && |s| > 0 && '0' <= s[0] <= '9'
    ensures r == 0 && NumberAt(s, 0, t, u, v, j)
  {
  }

  lemma PhoneEdges(s: string, t: int, u: int, v: int)
    requires NumberAt(s, 0, t, u, v, |s|)
    ensures WordEdge(s, 0) && WordEdge(s, |s|)
  {
  }

  lemma PhoneWhole(s: string)
    requires PhoneForm(s, 0, |s|) && |s| > 0 && '0' <= s[0] <= '9'
    ensures Whole(PhoneBody(), s)
  {
    var p, q, r, t, u, v :| PhoneAt(s, 0, p, q, r, t, u, v, |s|);
    hide PhoneBody, PhoneAt, NumberAt, Hit, WordEdge, DigitsAt;
    DigitFirst(s, p, q, r, t, u, v, |s|);
    PhoneEdges(s, t, u, v);
    HitIs(s, 0, |s|);
    forall j: nat | Hit(PhoneBody(), s, 0, j) ensures j == |s| {
      HitInside(PhoneBody(), s, 0, j);
      HitIs(s, 0, j);
      var p', q', r', t', u', v' :| PhoneAt(s, 0, p', q', r', t', u', v', j);
      DigitFirst(s, p', q', r', t', u', v', j);
      NumberUnique(s, t, u, v, |s|, t', u', v', j);
    }
    BodiesConsume();
    OnlyEnd(PhoneBody(), s);
  }

  /** A text that is a phone number becomes the phone tag if and only if it starts with a digit: no \b
      stands before a plus, a bracket or a gap at the start of a text. */
  lemma PhoneTagged(s: string)
    requires PhoneForm(s, 0, |s|)
    ensures |s| > 0 && (Redacted(s) == "[PHONE-REDACTED]" <==> '0' <= s[0] <= '9')
  {
    hide *;
    FormsInside(s, 0, |s|);
    if '0' <= s[0] <= '9' {
      PhoneHasNoOther(s);
      PhoneWhole(s);
      WholeTagged(s);
      TagTexts();
    } else {
      PhoneHead(s);
      EndsKept(s);
      TagTexts();
    }
  }

  lemma PhoneHead(s: string)
    requires PhoneForm(s, 0, |s|) && |s| > 0 && !('0' <= s[0] <= '9')
    ensures s[0] != '[' && !WordEdge(s, 0)
  {
  }

  lemma NoEdgeNoEnd(body: Re, s: string)
    requires !Boundary(s, 0)
    ensures Ends(Bounded(body), s, 0) == []
  {
  }

  // --- E-mail addresses: the greedy classes take the longest address ---

  /** e, e - 1, ..., i */
  function Down(e: nat, i: nat): (js: seq<nat>)
    requires i <= e
    ensures |js| == e - i + 1 && forall k | 0 <= k < |js| :: js[k] == e - k
    decreases e - i
  {
    if i == e then [i] else Down(e, i + 1) + [i]
  }

  lemma {:induction false} StarDown(p: char -> bool, s: string, i: nat, e: nat)
    requires i <= e <= |s| && (forall k | i <= k < e :: p(s[k])) && (e < |s| ==> !p(s[e]))
    ensures Ends(Star(p), s, i) == Down(e, i)
    decreases e - i
  {
    hide *;
    StarNext(p, s, i);
    DownNext(e, i);
    if i < e {
      StarDown(p, s, i + 1, e);
    }
  }

  lemma StarNext(p: char -> bool, s: string, i: nat)
    requires i <= |s|
    ensures Ends(Star(p), s, i) == if i < |s| && p(s[i]) then Ends(Star(p), s, i + 1) + [i] else [i]
  {
  }

  lemma DownNext(e: nat, i: nat)
    requires i <= e
    ensures Down(e, i) == if i == e then [i] else Down(e, i + 1) + [i]
  {
  }

  lemma {:induction false} FirstAfter(r: Re, s: string, lo: nat, starts: seq<nat>, n: nat)
    requires Within(starts, lo, |s|) && n < |starts|
    requires forall m | 0 <= m < n :: Ends(r, s, starts[m]) == []
    requires Ends(r, s, starts[n]) != []
    ensures EndsAfter(r, s, lo, starts) != [] && EndsAfter(r, s, lo, starts)[0] == Ends(r, s, starts[n])[0]
    decreases n
  {
    hide Ends;
    if n > 0 {
      assert forall m | 0 <= m < n - 1 :: starts[1..][m] == starts[m + 1];
      FirstAfter(r, s, lo, starts[1..], n - 1);
    }
  }

  /** The end that a pattern takes first. */
  ghost predicate Takes(r: Re, s: string, i: nat, e: nat) {
    i <= |s| && Ends(r, s, i) != [] && Ends(r, s, i)[0] == e
  }

  lemma CatTakes(a: Re, b: Re, s: string, i: nat, n: nat, e: nat)
    requires i <= |s| && n < |Ends(a, s, i)|
    requires forall m | 0 <= m < n :: Ends(b, s, Ends(a, s, i)[m]) == []
    requires Takes(b, s, Ends(a, s, i)[n], e)
    ensures Takes(Cat(a, b), s, i, e)
  {
    FirstAfter(b, s, i, Ends(a, s, i), n);
  }

  lemma SomeDown(p: char -> bool, s: string, i: nat, e: nat)
    requires i < e <= |s| && (forall k | i <= k < e :: p(s[k])) && (e < |s| ==> !p(s[e]))
    ensures Ends(Cat(One(p), Star(p)), s, i) == Down(e, i + 1)
  {
    hide *;
    StarDown(p, s, i + 1, e);
    EndsIs(One(p), s, i);
    EndsIs(Cat(One(p), Star(p)), s, i);
    AfterOne(Star(p), s, i, i + 1);
  }

  lemma AfterOne(r: Re, s: string, lo: nat, k: nat)
    requires lo <= k <= |s|
    ensures EndsAfter(r, s, lo, [k]) == Ends(r, s, k)
  {
    assert [k][1..] == [];
  }

  lemma OneTakes(p: char -> bool, b: Re, s: string, i: nat, e: nat)
    requires i < |s| && p(s[i]) && Takes(b, s, i + 1, e)
    ensures Takes(Cat(One(p), b), s, i, e)
  {
    CatTakes(One(p), b, s, i, 0, e);
  }

  lemma OneFails(p: char -> bool, b: Re, s: string, i: nat)
    requires i <= |s| && (i < |s| ==> !p(s[i]))
    ensures Ends(Cat(One(p), b), s, i) == []
  {
  }

  lemma TopLevelTakes(s: string, i: nat)
    requires TopLevel(s, i, |s|)
    ensures Takes(Cat(Two(One(IsTld)), Star(IsTld)), s, i, |s|)
  {
    assert IsTld(s[i]) && IsTld(s[i + 1]);
    StarDown(IsTld, s, i + 2, |s|);
    assert Ends(One(IsTld), s, i) == [i + 1] && Ends(One(IsTld), s, i + 1) == [i + 2];
    OneTakes(IsTld, One(IsTld), s, i, i + 2);
    CatTakes(Two(One(IsTld)), Star(IsTld), s, i, 0, |s|);
  }

  /** Where the run of domain characters ends. */
  lemma {:induction false} DomainRun(s: string, i: nat) returns (e: nat)
    requires i <= |s|
    ensures i <= e <= |s| && (forall k | i <= k < e :: IsDomain(s[k])) && (e < |s| ==> !IsDomain(s[e]))
    decreases |s| - i
  {
    if i == |s| || !IsDomain(s[i]) {
      e := i;
    } else {
      e := DomainRun(s, i + 1);
    }
  }

  lemma DomainTakes(s: string, i: nat, dot: nat)
    requires DomainPart(s, i, dot) && dot < |s| && s[dot] == '.' && TopLevel(s, dot + 1, |s|)
    ensures Takes(Cat(Cat(One(IsDomain), Star(IsDomain)), Cat(One(IsDot), Cat(Two(One(IsTld)), Star(IsTld)))), s, i, |s|)
  {
    var e := DomainRun(s, dot + 1);
    assert forall k | i <= k < e :: IsDomain(s[k]);
    NoDotBehind(s, dot, e);
    hide *;
    TopLevelTakes(s, dot + 1);
    DotTakes(s, i, dot, e);
  }

  /** No dot follows the last one. */
  lemma NoDotBehind(s: string, dot: nat, e: nat)
    requires dot < |s| && TopLevel(s, dot + 1, |s|) && dot < e <= |s|
    ensures forall k | dot < k < |s| :: !IsDot(s[k])
  {
  }

  lemma DotTakes(s: string, i: nat, dot: nat, e: nat)
    requires i < dot < e <= |s| && (forall k | i <= k < e :: IsDomain(s[k])) && (e < |s| ==> !IsDomain(s[e]))
    requires IsDot(s[dot]) && forall k | dot < k < |s| :: !IsDot(s[k])
    requires Takes(Cat(Two(One(IsTld)), Star(IsTld)), s, dot + 1, |s|)
    ensures Takes(Cat(Cat(One(IsDomain), Star(IsDomain)), Cat(One(IsDot), Cat(Two(One(IsTld)), Star(IsTld)))), s, i, |s|)
  {
    hide *;
    var domain, tld := Cat(One(IsDomain), Star(IsDomain)), Cat(Two(One(IsTld)), Star(IsTld));
    SomeDown(IsDomain, s, i, e);
    OneTakes(IsDot, tld, s, dot, |s|);
    forall m | 0 <= m < e - dot ensures Ends(Cat(One(IsDot), tld), s, Ends(domain, s, i)[m]) == [] {
      OneFails(IsDot, tld, s, e - m);
    }
    CatTakes(domain, Cat(One(IsDot), tld), s, i, e - dot, |s|);
  }

  lemma EmailTakes(s: string, at: int, dot: int)
    requires EmailAt(s, 0, at, dot, |s|)
    ensures Takes(EmailBody(), s, 0, |s|) && s != ""
  {
    var local, domain, tld := Cat(One(IsLocal), Star(IsLocal)), Cat(One(IsDomain), Star(IsDomain)), Cat(Two(One(IsTld)), Star(IsTld));
    DomainTakes(s, at + 1, dot);
    OneTakes(IsAt, Cat(domain, Cat(One(IsDot), tld)), s, at, |s|);
    SomeDown(IsLocal, s, 0, at);
    hide Takes, Ends;
    CatTakes(local, Cat(One(IsAt), Cat(domain, Cat(One(IsDot), tld))), s, 0, 0, |s|);
  }

  lemma EmailWhole(s: string)
    requires EmailForm(s, 0, |s|) && WordEdge(s, 0) && WordEdge(s, |s|)
    ensures Whole(EmailBody(), s)
  {
    var at, dot :| EmailAt(s, 0, at, dot, |s|);
    hide *;
    EmailTakes(s, at, dot);
    EdgeIs(s, 0);
    EdgeIs(s, |s|);
    BoundedTakes(EmailBody(), s);
  }

  lemma BoundedTakes(body: Re, s: string)
    requires Takes(body, s, 0, |s|) && Boundary(s, 0) && Boundary(s, |s|) && s != ""
    ensures Whole(body, s)
  {
    assert Takes(Edge, s, |s|, |s|);
    CatTakes(body, Edge, s, 0, 0, |s|);
    assert Ends(Edge, s, 0) == [0];
    CatTakes(Edge, Cat(body, Edge), s, 0, 0, |s|);
  }

  /** No SSN and no card number stands in the text between word edges. */
  ghost predicate NoNumbers(s: string) {
    forall i, j | WordEdge(s, i) && WordEdge(s, j) :: !SsnForm(s, i, j) && !CardForm(s, i, j)
  }

  /** A text that is an e-mail address becomes the e-mail tag, whatever dots its domain has, if and only if it
      begins and ends at a word edge and no SSN or card number stands in it. */
  lemma EmailTagged(s: string)
    requires EmailForm(s, 0, |s|)
    ensures Redacted(s) == "[EMAIL-REDACTED]" <==> WordEdge(s, 0) && WordEdge(s, |s|) && NoNumbers(s)
  {
    hide *;
    FormsInside(s, 0, |s|);
    NumbersFree(s);
    if !WordEdge(s, 0) || !WordEdge(s, |s|) {
      EmailEnds(s);
      EndsKept(s);
      TagEnds();
    } else if !NoNumbers(s) {
      NumberLeft(s);
    } else {
      EmailWhole(s);
      WholeTagged(s);
      TagTexts();
    }
  }

  lemma EmailEnds(s: string)
    requires EmailForm(s, 0, |s|) && |s| > 0
    ensures s[0] != '[' && s[|s| - 1] != ']'
  {
  }

  lemma TagEnds()
    ensures var tag := "[EMAIL-REDACTED]"; |tag| > 0 && tag[0] == '[' && tag[|tag| - 1] == ']'
  {
  }

  // What stands at an end that is no word edge stays there.

  lemma HeadKept(body: Re, name: string, s: string)
    requires Consumes(body) && s != "" && !Boundary(s, 0)
    ensures Pass(body, name, s) != "" && Pass(body, name, s)[0] == s[0] && !Boundary(Pass(body, name, s), 0)
  {
    hide Ends;
    NoEdgeNoEnd(body, s);
    ReplaceStepOver(Bounded(body), Tag(name), s, 0);
    ReplaceIs(Bounded(body), Tag(name), s);
  }

  lemma {:induction false} SpliceLast(s: string, spans: seq<Span>, f: string -> string, i: nat)
    requires Ordered(spans, i, |s|) && i < |s| && forall k | 0 <= k < |spans| :: spans[k].1 < |s|
    ensures Splice(s, spans, f, i) != ""
    ensures Splice(s, spans, f, i)[|Splice(s, spans, f, i)| - 1] == s[|s| - 1]
    decreases |spans|
  {
    OrderedBound(spans, i, |s|);
    if spans != [] {
      assert forall k | 0 <= k < |spans| - 1 :: spans[1..][k] == spans[k + 1];
      SpliceLast(s, spans[1..], f, spans[0].1);
    }
  }

  lemma SpansStop(body: Re, s: string)
    requires Consumes(Bounded(body)) && !Boundary(s, |s|)
    ensures forall k | 0 <= k < |Spans(Bounded(body), s, 0)| :: Spans(Bounded(body), s, 0)[k].1 < |s|
  {
    hide Spans, Bounded, Boundary, Matches, Ordered, Hit;
    var spans := Spans(Bounded(body), s, 0);
    SpansComplete(Bounded(body), s, 0);
    forall k | 0 <= k < |spans| ensures spans[k].1 < |s| {
      assert Found(Bounded(body), s, spans[k]);
      StopsAtEdge(body, s, spans[k].0, spans[k].1);
    }
  }

  lemma StopsAtEdge(body: Re, s: string, i: nat, j: nat)
    requires i <= j <= |s| && Matches(Bounded(body), s, i, j)
    ensures Boundary(s, j)
  {
    BoundedHit(body, s, i, j);
    hide Matches, Boundary, Bounded;
  }

  lemma LastOf(s: string)
    requires s != ""
    ensures Boundary(s, |s|) <==> IsWord(s[|s| - 1])
  {
  }

  lemma LastKept(body: Re, name: string, s: string)
    requires Consumes(body) && s != "" && !Boundary(s, |s|)
    ensures var out := Pass(body, name, s); out != "" && out[|out| - 1] == s[|s| - 1] && !Boundary(out, |out|)
  {
    assert Consumes(Bounded(body));
    hide Spans, Bounded, Boundary, IsWord, Consumes, Splice, Ordered;
    SpansStop(body, s);
    SpliceLast(s, Spans(Bounded(body), s, 0), Tag(name), 0);
    LastOf(s);
    LastOf(Pass(body, name, s));
  }

  lemma EndsKept(s: string)
    requires s != ""
    ensures !WordEdge(s, 0) ==> Redacted(s) != "" && Redacted(s)[0] == s[0]
    ensures !WordEdge(s, |s|) ==> Redacted(s) != "" && Redacted(s)[|Redacted(s)| - 1] == s[|s| - 1]
  {
    BodiesConsume();
    EdgeIs(s, 0);
    EdgeIs(s, |s|);
    hide SsnBody, CardBody, EmailBody, PhoneBody, Pass, Boundary, WordEdge, Consumes;
    var s1 := Pass(SsnBody(), "SSN-REDACTED", s);
    var s2 := Pass(CardBody(), "CARD-REDACTED", s1);
    var s3 := Pass(EmailBody(), "EMAIL-REDACTED", s2);
    if !Boundary(s, 0) {
      HeadKept(SsnBody(), "SSN-REDACTED", s);
      HeadKept(CardBody(), "CARD-REDACTED", s1);
      HeadKept(EmailBody(), "EMAIL-REDACTED", s2);
      HeadKept(PhoneBody(), "PHONE-REDACTED", s3);
    }
    if !Boundary(s, |s|) {
      LastKept(SsnBody(), "SSN-REDACTED", s);
      LastKept(CardBody(), "CARD-REDACTED", s1);
      LastKept(EmailBody(), "EMAIL-REDACTED", s2);
      LastKept(PhoneBody(), "PHONE-REDACTED", s3);
    }
  }

  // A number that stands in the text leaves its tag there.

  lemma FirstSpan(r: Re, s: string)
    requires Consumes(r) && !Free(r, s)
    ensures Spans(r, s, 0) != []
  {
    SpansComplete(r, s, 0);
    hide Spans;
  }

  lemma FirstSpliced(s: string, spans: seq<Span>, name: string)
    requires Ordered(spans, 0, |s|) && spans != []
    ensures spans[0].0 <= |s| && Ordered(spans[1..], spans[0].1, |s|)
    ensures Splice(s, spans, Tag(name), 0)
         == s[0..spans[0].0] + "[" + name + "]" + Splice(s, spans[1..], Tag(name), spans[0].1)
  {
    OrderedBound(spans, 0, |s|);
    assert s[0..spans[0].0] + ("[" + name + "]") == s[0..spans[0].0] + "[" + name + "]";
  }

  lemma TagPut(body: Re, name: string, s: string) returns (u: string, w: string)
    requires Consumes(body) && !Free(Bounded(body), s)
    ensures Pass(body, name, s) == u + "[" + name + "]" + w
  {
    assert Consumes(Bounded(body));
    hide Spans, Bounded, Free, Splice, Ordered, Tag;
    var spans := Spans(Bounded(body), s, 0);
    FirstSpan(Bounded(body), s);
    FirstSpliced(s, spans, name);
    u := s[0..spans[0].0];
    w := Splice(s, spans[1..], Tag(name), spans[0].1);
  }

  lemma TagIsApart(u: string, tag: string, w: string)
    ensures u + "[" + tag + "]" + w == u + ['['] + (tag + [']'] + w)
  {
    assert ("[" + tag) + "]" == ['['] + (tag + [']']);
  }

  lemma TagPassed(body: Re, name: string, tag: string)
    requires Sealed(body) && TagName(tag)
    ensures Consumes(body) && Pass(body, name, tag) == tag
  {
    hide Pass, Hit, Bounded;
    InnocentFree(body, tag);
    BoundedFree(body, tag);
    PassNothing(body, name, tag);
  }

  lemma TagKept(body: Re, name: string, tag: string, u: string, w: string)
    requires Sealed(body) && NoEnd(body) && TagName(tag)
    ensures Pass(body, name, u + "[" + tag + "]" + w) == Pass(body, name, u) + "[" + tag + "]" + Pass(body, name, w)
  {
    hide *;
    BracketsShunned(body);
    TagPassed(body, name, tag);
    PassApart(body, name, u, '[', tag + [']'] + w);
    PassApart(body, name, tag, ']', w);
    TagIsApart(u, tag, w);
    TagIsApart(Pass(body, name, u), tag, Pass(body, name, w));
  }

  lemma BracketsShunned(body: Re)
    requires Sealed(body) && NoEnd(body)
    ensures Shuns(Bounded(body), '[') && Shuns(Bounded(body), ']') && !IsWord('[') && !IsWord(']')
  {
    BoundedShuns(body, '[');
    BoundedShuns(body, ']');
  }

  lemma NoneLooksAtEnd()
    ensures NoEnd(SsnBody()) && NoEnd(CardBody()) && NoEnd(EmailBody()) && NoEnd(PhoneBody())
  {
    NumbersShun(',');
    EmailShuns(',');
    PhoneShuns(',');
    BodyOf(SsnBody(), ',');
    BodyOf(CardBody(), ',');
    BodyOf(EmailBody(), ',');
    BodyOf(PhoneBody(), ',');
    hide *;
  }

  lemma BodyOf(body: Re, c: char)
    ensures Shuns(Bounded(body), c) ==> NoEnd(body)
  {
    assert Bounded(body) == Cat(Edge, Cat(body, Edge));
    assert NoEnd(Cat(body, Edge)) ==> NoEnd(body);
  }

  lemma NotTheTag(u: string, name: string, w: string)
    requires name == "SSN-REDACTED" || name == "CARD-REDACTED"
    ensures u + "[" + name + "]" + w != "[EMAIL-REDACTED]"
  {
    var out, tag := u + "[" + name + "]" + w, "[EMAIL-REDACTED]";
    assert out[|u|] == '[' && out[|u| + 1] == name[0];
    assert forall k | 0 < k < |tag| :: tag[k] != '[';
  }

  lemma NumberLeft(s: string)
    requires !(Free(Ssn(), s) && Free(Card(), s))
    ensures Redacted(s) != "[EMAIL-REDACTED]"
  {
    BodiesConsume();
    BodiesSealed();
    NoneLooksAtEnd();
    TagNames();
    hide SsnBody, CardBody, EmailBody, PhoneBody, Pass, Free, Bounded, Sealed, NoEnd, TagName, Consumes;
    var name, u, w := "CARD-REDACTED", "", "";
    if !Free(Ssn(), s) {
      name := "SSN-REDACTED";
      u, w := TagPut(SsnBody(), name, s);
      TagKept(CardBody(), "CARD-REDACTED", name, u, w);
      u, w := Pass(CardBody(), "CARD-REDACTED", u), Pass(CardBody(), "CARD-REDACTED", w);
    } else {
      PassNothing(SsnBody(), "SSN-REDACTED", s);
      u, w := TagPut(CardBody(), name, s);
    }
    TagKept(EmailBody(), "EMAIL-REDACTED", name, u, w);
    u, w := Pass(EmailBody(), "EMAIL-REDACTED", u), Pass(EmailBody(), "EMAIL-REDACTED", w);
    TagKept(PhoneBody(), "PHONE-REDACTED", name, u, w);
    NotTheTag(Pass(PhoneBody(), "PHONE-REDACTED", u), name, Pass(PhoneBody(), "PHONE-REDACTED", w));
  }

  lemma NumbersFree(s: string)
    ensures NoNumbers(s) <==> Free(Ssn(), s) && Free(Card(), s)
  {
    hide SsnBody, CardBody, SsnForm, CardForm, Hit, WordEdge, Free;
    BoundedFree(SsnBody(), s);
    BoundedFree(CardBody(), s);
    forall i, j | WordEdge(s, i) && WordEdge(s, j)
      ensures SsnForm(s, i, j) <==> 0 <= i && 0 <= j && Hit(SsnBody(), s, i, j)
      ensures CardForm(s, i, j) <==> 0 <= i && 0 <= j && Hit(CardBody(), s, i, j)
    {
      NumberHits(s, i, j);
    }
    if NoNumbers(s) {
      forall i: nat, j: nat ensures !Hit(SsnBody(), s, i, j) && !Hit(CardBody(), s, i, j) {
        if i <= j <= |s| {
          HitIs(s, i, j);
        } else {
          NoHitOutside(SsnBody(), s, i, j);
          NoHitOutside(CardBody(), s, i, j);
        }
      }
    }
  }

  lemma NumberHits(s: string, i: int, j: int)
    requires WordEdge(s, i) && WordEdge(s, j)
    ensures SsnForm(s, i, j) <==> 0 <= i && 0 <= j && Hit(SsnBody(), s, i, j)
    ensures CardForm(s, i, j) <==> 0 <= i && 0 <= j && Hit(CardBody(), s, i, j)
  {
    hide SsnBody, CardBody, SsnForm, CardForm, Hit, WordEdge;
    if SsnForm(s, i, j) || CardForm(s, i, j) {
      FormsInside(s, i, j);
    }
    if 0 <= i <= j <= |s| {
      HitIs(s, i, j);
    } else if 0 <= i && 0 <= j {
      NoHitOutside(SsnBody(), s, i, j);
      NoHitOutside(CardBody(), s, i, j);
    }
  }

  // --- Redaction works piece by piece ---

  /** A character that no form can hold and that is no word character. */
  ghost predicate Separates(c: char) {
    !LetterOrDigit(c) && c !in "_-. +@()%|" && !White(c)
  }

  /** The pattern neither takes the character nor looks at the end of the text. */
  ghost predicate Shuns(r: Re, c: char) {
    Avoids(r, c) && NoEnd(r)
  }

  lemma CatShuns(a: Re, b: Re, c: char)
    requires Shuns(a, c) && Shuns(b, c)
    ensures Shuns(Cat(a, b), c)
  {
  }

  lemma BoundedShuns(body: Re, c: char)
    requires Shuns(body, c)
    ensures Shuns(Bounded(body), c)
  {
    assert Shuns(Edge, c);
    CatShuns(body, Edge, c);
    CatShuns(Edge, Cat(body, Edge), c);
    hide Shuns;
  }

  lemma ClassShuns(p: char -> bool, c: char)
    requires !p(c)
    ensures Shuns(One(p), c) && Shuns(Opt(One(p)), c) && Shuns(Star(p), c)
  {
  }

  lemma OptShuns(r: Re, c: char)
    requires Shuns(r, c)
    ensures Shuns(Opt(r), c)
  {
  }

  lemma PartsShun(c: char)
    requires Separates(c)
    ensures !IsWord(c)
    ensures Shuns(Digit(), c) && Shuns(Opt(One(IsDash)), c) && Shuns(Opt(One(IsDashOrSpace)), c) && Shuns(Opt(One(IsPhoneGap)), c)
    ensures Shuns(Opt(One(IsOpen)), c) && Shuns(Opt(One(IsClose)), c) && Shuns(Opt(Cat(One(IsPlus), One(IsOne))), c)
    ensures Shuns(Cat(One(IsLocal), Star(IsLocal)), c) && Shuns(Cat(One(IsDomain), Star(IsDomain)), c)
    ensures Shuns(One(IsAt), c) && Shuns(One(IsDot), c) && Shuns(Cat(Two(One(IsTld)), Star(IsTld)), c)
  {
    SpaceIs(c);
    ClassShuns(IsDigit, c);
    ClassShuns(IsDash, c);
    ClassShuns(IsDashOrSpace, c);
    ClassShuns(IsPhoneGap, c);
    ClassShuns(IsOpen, c);
    ClassShuns(IsClose, c);
    ClassShuns(IsPlus, c);
    ClassShuns(IsOne, c);
    ClassShuns(IsLocal, c);
    ClassShuns(IsDomain, c);
    ClassShuns(IsAt, c);
    ClassShuns(IsDot, c);
    ClassShuns(IsTld, c);
    hide Shuns;
    CatShuns(One(IsPlus), One(IsOne), c);
    OptShuns(Cat(One(IsPlus), One(IsOne)), c);
    CatShuns(One(IsLocal), Star(IsLocal), c);
    CatShuns(One(IsDomain), Star(IsDomain), c);
    CatShuns(One(IsTld), One(IsTld), c);
    CatShuns(Two(One(IsTld)), Star(IsTld), c);
  }

  lemma GroupsShun(c: char)
    requires Shuns(Digit(), c)
    ensures Shuns(Two(Digit()), c) && Shuns(Three(Digit()), c) && Shuns(Four(Digit()), c)
  {
    hide Shuns, Digit;
    CatShuns(Digit(), Digit(), c);
    CatShuns(Digit(), Two(Digit()), c);
    CatShuns(Digit(), Three(Digit()), c);
  }

  lemma NumbersShun(c: char)
    requires Separates(c)
    ensures Shuns(Ssn(), c) && Shuns(Card(), c)
  {
    PartsShun(c);
    GroupsShun(c);
    hide Shuns, Two, Three, Four, Digit;
    var dash, gap, four := Opt(One(IsDash)), Opt(One(IsDashOrSpace)), Four(Digit());
    CatShuns(dash, four, c);
    CatShuns(Two(Digit()), Cat(dash, four), c);
    CatShuns(dash, Cat(Two(Digit()), Cat(dash, four)), c);
    CatShuns(Three(Digit()), Cat(dash, Cat(Two(Digit()), Cat(dash, four))), c);
    BoundedShuns(SsnBody(), c);
    CatShuns(gap, four, c);
    CatShuns(four, Cat(gap, four), c);
    CatShuns(gap, Cat(four, Cat(gap, four)), c);
    CatShuns(four, Cat(gap, Cat(four, Cat(gap, four))), c);
    CatShuns(gap, Cat(four, Cat(gap, Cat(four, Cat(gap, four)))), c);
    CatShuns(four, Cat(gap, Cat(four, Cat(gap, Cat(four, Cat(gap, four))))), c);
    BoundedShuns(CardBody(), c);
  }

  lemma EmailShuns(c: char)
    requires Separates(c)
    ensures Shuns(Email(), c)
  {
    PartsShun(c);
    hide Shuns;
    var local, domain, tld := Cat(One(IsLocal), Star(IsLocal)), Cat(One(IsDomain), Star(IsDomain)), Cat(Two(One(IsTld)), Star(IsTld));
    CatShuns(One(IsDot), tld, c);
    CatShuns(domain, Cat(One(IsDot), tld), c);
    CatShuns(One(IsAt), Cat(domain, Cat(One(IsDot), tld)), c);
    CatShuns(local, Cat(One(IsAt), Cat(domain, Cat(One(IsDot), tld))), c);
    BoundedShuns(EmailBody(), c);
  }

  lemma PhoneShuns(c: char)
    requires Separates(c)
    ensures Shuns(Phone(), c)
  {
    PartsShun(c);
    GroupsShun(c);
    PhoneBodyIs();
    hide Shuns, PhoneBody, Two, Three, Four, Digit;
    var three, four, gap := Three(Digit()), Four(Digit()), Opt(One(IsPhoneGap));
    var open, close, plus := Opt(One(IsOpen)), Opt(One(IsClose)), Opt(Cat(One(IsPlus), One(IsOne)));
    CatShuns(gap, four, c);
    CatShuns(three, Cat(gap, four), c);
    CatShuns(gap, Cat(three, Cat(gap, four)), c);
    CatShuns(close, Cat(gap, Cat(three, Cat(gap, four))), c);
    CatShuns(three, Cat(close, Cat(gap, Cat(three, Cat(gap, four)))), c);
    CatShuns(open, NumberBody(), c);
    CatShuns(gap, Cat(open, NumberBody()), c);
    CatShuns(plus, Cat(gap, Cat(open, NumberBody())), c);
    BoundedShuns(PhoneBody(), c);
  }

  lemma PassApart(body: Re, name: string, x: string, c: char, y: string)
    requires Consumes(body) && Shuns(Bounded(body), c) && !IsWord(c)
    ensures Pass(body, name, x + [c] + y) == Pass(body, name, x) + [c] + Pass(body, name, y)
  {
    ReplaceApart(Bounded(body), Tag(name), x, c, y);
  }

  /** What stands on one side of a separator is redacted whatever stands on the other. */
  lemma RedactedApart(x: string, c: char, y: string)
    requires Separates(c)
    ensures Redacted(x + [c] + y) == Redacted(x) + [c] + Redacted(y)
  {
    PartsShun(c);
    NumbersShun(c);
    EmailShuns(c);
    PhoneShuns(c);
    BodiesConsume();
    hide SsnBody, CardBody, EmailBody, PhoneBody, Pass, Shuns, Separates, IsWord, Consumes, Bounded;
    var x1, y1 := Pass(SsnBody(), "SSN-REDACTED", x), Pass(SsnBody(), "SSN-REDACTED", y);
    var x2, y2 := Pass(CardBody(), "CARD-REDACTED", x1), Pass(CardBody(), "CARD-REDACTED", y1);
    var x3, y3 := Pass(EmailBody(), "EMAIL-REDACTED", x2), Pass(EmailBody(), "EMAIL-REDACTED", y2);
    PassApart(SsnBody(), "SSN-REDACTED", x, c, y);
    PassApart(CardBody(), "CARD-REDACTED", x1, c, y1);
    PassApart(EmailBody(), "EMAIL-REDACTED", x2, c, y2);
    PassApart(PhoneBody(), "PHONE-REDACTED", x3, c, y3);
  }

  // --- The operation ---

  /** The four passes. Nothing sensitive stands in the result; a text without anything sensitive comes back
      as it is, and no other; and a text that is a number or an address as a whole becomes its tag. */
  method RedactSensitiveStrings(input: string) returns (out: string)
    ensures out == Redacted(input)
    ensures NothingSensitive(out) && (out == input <==> NothingSensitive(input))
    ensures SsnForm(input, 0, |input|) ==> out == "[SSN-REDACTED]"
    ensures CardForm(input, 0, |input|) ==> out == "[CARD-REDACTED]"
    ensures EmailForm(input, 0, |input|) ==>
              (out == "[EMAIL-REDACTED]" <==> WordEdge(input, 0) && WordEdge(input, |input|) && NoNumbers(input))
    ensures PhoneForm(input, 0, |input|) ==> |input| > 0 && (out == "[PHONE-REDACTED]" <==> '0' <= input[0] <= '9')
  {
    BodiesConsume();
    hide SsnBody, CardBody, EmailBody, PhoneBody, Pass, Clean, NothingSensitive, NoNumbers, WordEdge;
    hide SsnForm, CardForm, EmailForm, PhoneForm;
    out := input;
    out := Pass(SsnBody(), "SSN-REDACTED", out);
    out := Pass(CardBody(), "CARD-REDACTED", out);
    out := Pass(EmailBody(), "EMAIL-REDACTED", out);
    out := Pass(PhoneBody(), "PHONE-REDACTED", out);
    RedactedIsClean(input);
    UnchangedIffClean(input);
    CleanExactly(input);
    CleanExactly(out);
    if SsnForm(input, 0, |input|) { SsnTagged(input); }
    if CardForm(input, 0, |input|) { CardTagged(input); }
    if EmailForm(input, 0, |input|) { EmailTagged(input); }
    if PhoneForm(input, 0, |input|) { PhoneTagged(input); }
  }
}
