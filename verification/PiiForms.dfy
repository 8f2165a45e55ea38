/** src/utils/pii-filter.ts:16-19 by characters: what a text that one of the four patterns matches looks
    like, without regular expressions, and what `redactSensitiveStrings` makes of it. */
module PiiForms {
  import opened PiiPatterns
  import opened Regex
  import opened Replacement

  // --- Characters ---

  ghost predicate DigitsAt(s: string, i: int, n: nat) {
    0 <= i && i + n <= |s| && forall k | i <= k < i + n :: '0' <= s[k] <= '9'
  }

  /** Nothing between the positions, or one of the characters. */
  ghost predicate Gap(s: string, i: int, j: int, chars: string) {
    j == i || (j == i + 1 && 0 <= i < |s| && s[i] in chars)
  }

  /** The code points that \s stands for. */
  ghost predicate White(c: char) {
    c as int in {0x9, 0xA, 0xB, 0xC, 0xD, 0x20, 0xA0, 0x1680, 0x2000, 0x2001, 0x2002, 0x2003, 0x2004, 0x2005, 0x2006,
                 0x2007, 0x2008, 0x2009, 0x200A, 0x2028, 0x2029, 0x202F, 0x205F, 0x3000, 0xFEFF}
  }

  ghost predicate PhoneGap(s: string, i: int, j: int) {
    j == i || (j == i + 1 && 0 <= i < |s| && (s[i] == '-' || s[i] == '.' || White(s[i])))
  }

  ghost predicate LetterOrDigit(c: char) {
    'A' <= c <= 'Z' || 'a' <= c <= 'z' || '0' <= c <= '9'
  }

  ghost predicate LocalPart(s: string, i: int, j: int) {
    0 <= i < j <= |s| && forall k | i <= k < j :: LetterOrDigit(s[k]) || s[k] in "._%+-"
  }

  ghost predicate DomainPart(s: string, i: int, j: int) {
    0 <= i < j <= |s| && forall k | i <= k < j :: LetterOrDigit(s[k]) || s[k] in ".-"
  }

  /** Two letters or more; the class of the source has the bar as well. */
  ghost predicate TopLevel(s: string, i: int, j: int) {
    0 <= i && i + 2 <= j <= |s| && forall k | i <= k < j :: 'A' <= s[k] <= 'Z' || 'a' <= s[k] <= 'z' || s[k] == '|'
  }

  // --- The four forms of s[i..j] ---

  ghost predicate SsnAt(s: string, i: int, a: int, b: int, j: int) {
    DigitsAt(s, i, 3) && Gap(s, i + 3, a, "-") && DigitsAt(s, a, 2) && Gap(s, a + 2, b, "-") && DigitsAt(s, b, 4) && j == b + 4
  }

  /** ddd-dd-dddd, each dash optional. */
  ghost predicate SsnForm(s: string, i: int, j: int) {
    exists a, b :: SsnAt(s, i, a, b, j)
  }

  ghost predicate CardAt(s: string, i: int, a: int, b: int, c: int, j: int) {
    && DigitsAt(s, i, 4) && Gap(s, i + 4, a, "- ") && DigitsAt(s, a, 4) && Gap(s, a + 4, b, "- ")
    && DigitsAt(s, b, 4) && Gap(s, b + 4, c, "- ") && DigitsAt(s, c, 4) && j == c + 4
  }

  /** Four groups of four digits, with a dash, a space or nothing between two of them. */
  ghost predicate CardForm(s: string, i: int, j: int) {
    exists a, b, c :: CardAt(s, i, a, b, c, j)
  }

  ghost predicate EmailAt(s: string, i: int, at: int, dot: int, j: int) {
    LocalPart(s, i, at) && at < |s| && s[at] == '@' && DomainPart(s, at + 1, dot) && dot < |s| && s[dot] == '.' && TopLevel(s, dot + 1, j)
  }

  /** local@domain.tld */
  ghost predicate EmailForm(s: string, i: int, j: int) {
    exists at, dot :: EmailAt(s, i, at, dot, j)
  }

  /** The number from its first group on: ddd, ddd, dddd with the first perhaps followed by a bracket. */
  ghost predicate NumberAt(s: string, r: int, t: int, u: int, v: int, j: int) {
    && DigitsAt(s, r, 3) && Gap(s, r + 3, t, ")") && PhoneGap(s, t, u) && DigitsAt(s, u, 3) && PhoneGap(s, u + 3, v)
    && DigitsAt(s, v, 4) && j == v + 4
  }

  ghost predicate PrefixAt(s: string, i: int, p: int, q: int, r: int) {
    && 0 <= i && (p == i || (p == i + 2 && i + 2 <= |s| && s[i] == '+' && s[i + 1] == '1'))
    && PhoneGap(s, p, q) && Gap(s, q, r, "(")
  }

  ghost predicate PhoneAt(s: string, i: int, p: int, q: int, r: int, t: int, u: int, v: int, j: int) {
    PrefixAt(s, i, p, q, r) && NumberAt(s, r, t, u, v, j)
  }

  /** +1, a gap and a bracket, all optional, and then ten digits in groups of 3, 3 and 4. */
  ghost predicate PhoneForm(s: string, i: int, j: int) {
    exists p, q, r, t, u, v :: PhoneAt(s, i, p, q, r, t, u, v, j)
  }

  /** Something that has one of the forms stands between two word edges. */
  ghost predicate Sensitive(s: string, i: int, j: int) {
    WordEdge(s, i) && WordEdge(s, j) && (SsnForm(s, i, j) || CardForm(s, i, j) || EmailForm(s, i, j) || PhoneForm(s, i, j))
  }

  ghost predicate NothingSensitive(s: string) {
    forall i, j :: !Sensitive(s, i, j)
  }

  // --- A pattern matches exactly the texts of its form ---

  lemma SpaceIs(c: char)
    ensures IsSpace(c) <==> White(c)
  {
  }

  lemma {:induction false} DigitsMatched(s: string, i: nat, j: nat, n: nat)
    requires i <= j <= |s| && 2 <= n <= 4
    ensures Matches(if n == 2 then Two(Digit()) else if n == 3 then Three(Digit()) else Four(Digit()), s, i, j)
            <==> j == i + n && DigitsAt(s, i, n)
    decreases n
  {
    var r := if n == 2 then Two(Digit()) else if n == 3 then Three(Digit()) else Four(Digit());
    var tail := if n == 2 then Digit() else if n == 3 then Two(Digit()) else Three(Digit());
    assert r == Cat(Digit(), tail);
    if i < |s| && i + 1 <= j {
      if n > 2 {
        DigitsMatched(s, i + 1, j, n - 1);
      }
      assert Matches(tail, s, i + 1, j) <==> j == i + n && DigitsAt(s, i + 1, n - 1);
      assert Matches(Digit(), s, i, i + 1) <==> '0' <= s[i] <= '9';
    }
    if Matches(r, s, i, j) {
      var k := CatSplit(Digit(), tail, s, i, j);
      assert k == i + 1;
    }
    if j == i + n && DigitsAt(s, i, n) {
      assert '0' <= s[i] <= '9';
      CatJoin(Digit(), tail, s, i, i + 1, j);
    }
  }

  lemma GapMatched(p: char -> bool, chars: string, s: string, i: nat, j: nat)
    requires i <= j <= |s| && forall c :: p(c) <==> c in chars
    ensures Matches(Opt(One(p)), s, i, j) <==> Gap(s, i, j, chars)
  {
  }

  lemma PhoneGapMatched(s: string, i: nat, j: nat)
    requires i <= j <= |s|
    ensures Matches(Opt(One(IsPhoneGap)), s, i, j) <==> PhoneGap(s, i, j)
  {
    if i < |s| {
      SpaceIs(s[i]);
    }
  }

  lemma DashMatched(s: string, i: nat, j: nat)
    requires i <= j <= |s|
    ensures Matches(Opt(One(IsDash)), s, i, j) <==> Gap(s, i, j, "-")
  {
    GapMatched(IsDash, "-", s, i, j);
  }

  lemma CardGapMatched(s: string, i: nat, j: nat)
    requires i <= j <= |s|
    ensures Matches(Opt(One(IsDashOrSpace)), s, i, j) <==> Gap(s, i, j, "- ")
  {
    GapMatched(IsDashOrSpace, "- ", s, i, j);
  }

  lemma GapOrder(s: string, i: int, j: int, chars: string)
    requires Gap(s, i, j, chars)
    ensures i <= j <= i + 1
  {
  }

  lemma DigitsInside(s: string, i: int, n: nat)
    requires DigitsAt(s, i, n)
    ensures 0 <= i && i + n <= |s|
  {
  }

  lemma SsnTaken(s: string, i: nat, j: nat)
    requires i <= j <= |s| && Matches(SsnBody(), s, i, j)
    ensures SsnForm(s, i, j)
  {
    hide Matches, DigitsAt, Gap, Two, Three, Four, Digit;
    var dash := Opt(One(IsDash));
    var last := Cat(dash, Four(Digit()));
    var rest := Cat(Two(Digit()), last);
    var k := CatSplit(Three(Digit()), Cat(dash, rest), s, i, j);
    var a := CatSplit(dash, rest, s, k, j);
    var l := CatSplit(Two(Digit()), last, s, a, j);
    var b := CatSplit(dash, Four(Digit()), s, l, j);
    DigitsMatched(s, i, k, 3);
    DigitsMatched(s, a, l, 2);
    DigitsMatched(s, b, j, 4);
    DashMatched(s, k, a);
    DashMatched(s, l, b);
    assert SsnAt(s, i, a, b, j);
  }

  lemma SsnGiven(s: string, i: int, a: int, b: int, j: int)
    requires SsnAt(s, i, a, b, j)
    ensures 0 <= i < j <= |s| && Matches(SsnBody(), s, i, j)
  {
    hide Matches, DigitsAt, Gap, Two, Three, Four, Digit;
    DigitsInside(s, i, 3);
    DigitsInside(s, a, 2);
    DigitsInside(s, b, 4);
    GapOrder(s, i + 3, a, "-");
    GapOrder(s, a + 2, b, "-");
    var dash := Opt(One(IsDash));
    var last := Cat(dash, Four(Digit()));
    var rest := Cat(Two(Digit()), last);
    DigitsMatched(s, i, i + 3, 3);
    DigitsMatched(s, a, a + 2, 2);
    DigitsMatched(s, b, j, 4);
    DashMatched(s, i + 3, a);
    DashMatched(s, a + 2, b);
    CatJoin(dash, Four(Digit()), s, a + 2, b, j);
    CatJoin(Two(Digit()), last, s, a, a + 2, j);
    CatJoin(dash, rest, s, i + 3, a, j);
    CatJoin(Three(Digit()), Cat(dash, rest), s, i, i + 3, j);
  }

  lemma CardTaken(s: string, i: nat, j: nat)
    requires i <= j <= |s| && Matches(CardBody(), s, i, j)
    ensures CardForm(s, i, j)
  {
    hide Matches, DigitsAt, Gap, Two, Three, Four, Digit;
    var four, gap := Four(Digit()), Opt(One(IsDashOrSpace));
    var last := Cat(gap, four);
    var third := Cat(four, last);
    var second := Cat(four, Cat(gap, third));
    var k := CatSplit(four, Cat(gap, second), s, i, j);
    var a := CatSplit(gap, second, s, k, j);
    var l := CatSplit(four, Cat(gap, third), s, a, j);
    var b := CatSplit(gap, third, s, l, j);
    var m := CatSplit(four, last, s, b, j);
    var c := CatSplit(gap, four, s, m, j);
    DigitsMatched(s, i, k, 4);
    DigitsMatched(s, a, l, 4);
    DigitsMatched(s, b, m, 4);
    DigitsMatched(s, c, j, 4);
    CardGapMatched(s, k, a);
    CardGapMatched(s, l, b);
    CardGapMatched(s, m, c);
    assert CardAt(s, i, a, b, c, j);
  }

  lemma CardGiven(s: string, i: int, a: int, b: int, c: int, j: int)
    requires CardAt(s, i, a, b, c, j)
    ensures 0 <= i < j <= |s| && Matches(CardBody(), s, i, j)
  {
    hide Matches, DigitsAt, Gap, Two, Three, Four, Digit;
    DigitsInside(s, i, 4);
    DigitsInside(s, a, 4);
    DigitsInside(s, b, 4);
    DigitsInside(s, c, 4);
    GapOrder(s, i + 4, a, "- ");
    GapOrder(s, a + 4, b, "- ");
    GapOrder(s, b + 4, c, "- ");
    var four, gap := Four(Digit()), Opt(One(IsDashOrSpace));
    var last := Cat(gap, four);
    var third := Cat(four, last);
    var second := Cat(four, Cat(gap, third));
    DigitsMatched(s, i, i + 4, 4);
    DigitsMatched(s, a, a + 4, 4);
    DigitsMatched(s, b, b + 4, 4);
    DigitsMatched(s, c, j, 4);
    CardGapMatched(s, i + 4, a);
    CardGapMatched(s, a + 4, b);
    CardGapMatched(s, b + 4, c);
    CatJoin(gap, four, s, b + 4, c, j);
    CatJoin(four, last, s, b, b + 4, j);
    CatJoin(gap, third, s, a + 4, b, j);
    CatJoin(four, Cat(gap, third), s, a, a + 4, j);
    CatJoin(gap, second, s, i + 4, a, j);
    CatJoin(four, Cat(gap, second), s, i, i + 4, j);
  }

  lemma LocalMatched(s: string, i: nat, j: nat)
    requires i <= j <= |s|
    ensures Matches(Cat(One(IsLocal), Star(IsLocal)), s, i, j) <==> LocalPart(s, i, j)
  {
    SomeMatched(IsLocal, s, i, j);
    assert forall c :: IsLocal(c) <==> LetterOrDigit(c) || c in "._%+-";
  }

  lemma DomainMatched(s: string, i: nat, j: nat)
    requires i <= j <= |s|
    ensures Matches(Cat(One(IsDomain), Star(IsDomain)), s, i, j) <==> DomainPart(s, i, j)
  {
    SomeMatched(IsDomain, s, i, j);
    assert forall c :: IsDomain(c) <==> LetterOrDigit(c) || c in ".-";
  }

  /** A class repeated at least once. */
  lemma SomeMatched(p: char -> bool, s: string, i: nat, j: nat)
    requires i <= j <= |s|
    ensures Matches(Cat(One(p), Star(p)), s, i, j) <==> i < j && forall k | i <= k < j :: p(s[k])
  {
    if Matches(Cat(One(p), Star(p)), s, i, j) {
      var k := CatSplit(One(p), Star(p), s, i, j);
    }
    if i < j && forall k | i <= k < j :: p(s[k]) {
      CatJoin(One(p), Star(p), s, i, i + 1, j);
    }
  }

  lemma TopLevelMatched(s: string, i: nat, j: nat)
    requires i <= j <= |s|
    ensures Matches(Cat(Two(One(IsTld)), Star(IsTld)), s, i, j) <==> TopLevel(s, i, j)
  {
    var two, star := Two(One(IsTld)), Star(IsTld);
    if Matches(Cat(two, star), s, i, j) {
      var k := CatSplit(two, star, s, i, j);
      var l := CatSplit(One(IsTld), One(IsTld), s, i, k);
    }
    if TopLevel(s, i, j) {
      assert IsTld(s[i]) && IsTld(s[i + 1]);
      CatJoin(One(IsTld), One(IsTld), s, i, i + 1, i + 2);
      CatJoin(two, star, s, i, i + 2, j);
    }
  }

  lemma EmailTaken(s: string, i: nat, j: nat)
    requires i <= j <= |s| && Matches(EmailBody(), s, i, j)
    ensures EmailForm(s, i, j)
  {
    var local, domain, tld := Cat(One(IsLocal), Star(IsLocal)), Cat(One(IsDomain), Star(IsDomain)), Cat(Two(One(IsTld)), Star(IsTld));
    var tail := Cat(domain, Cat(One(IsDot), tld));
    var at := CatSplit(local, Cat(One(IsAt), tail), s, i, j);
    var k := CatSplit(One(IsAt), tail, s, at, j);
    var dot := CatSplit(domain, Cat(One(IsDot), tld), s, k, j);
    var l := CatSplit(One(IsDot), tld, s, dot, j);
    LocalMatched(s, i, at);
    DomainMatched(s, k, dot);
    TopLevelMatched(s, l, j);
    hide LocalPart, DomainPart, TopLevel;
    assert EmailAt(s, i, at, dot, j);
  }

  lemma EmailGiven(s: string, i: int, at: int, dot: int, j: int)
    requires EmailAt(s, i, at, dot, j)
    ensures 0 <= i < j <= |s| && Matches(EmailBody(), s, i, j)
  {
    var local, domain, tld := Cat(One(IsLocal), Star(IsLocal)), Cat(One(IsDomain), Star(IsDomain)), Cat(Two(One(IsTld)), Star(IsTld));
    var tail := Cat(domain, Cat(One(IsDot), tld));
    LocalMatched(s, i, at);
    DomainMatched(s, at + 1, dot);
    TopLevelMatched(s, dot + 1, j);
    CatJoin(One(IsDot), tld, s, dot, dot + 1, j);
    CatJoin(domain, Cat(One(IsDot), tld), s, at + 1, dot, j);
    CatJoin(One(IsAt), tail, s, at, at + 1, j);
    CatJoin(local, Cat(One(IsAt), tail), s, i, at, j);
  }

  lemma BracketMatched(s: string, i: nat, j: nat)
    requires i <= j <= |s|
    ensures Matches(Opt(One(IsOpen)), s, i, j) <==> Gap(s, i, j, "(")
    ensures Matches(Opt(One(IsClose)), s, i, j) <==> Gap(s, i, j, ")")
  {
    GapMatched(IsOpen, "(", s, i, j);
    GapMatched(IsClose, ")", s, i, j);
  }

  lemma PlusOneMatched(s: string, i: nat, j: nat)
    requires i <= j <= |s|
    ensures Matches(Opt(Cat(One(IsPlus), One(IsOne))), s, i, j) <==> j == i || (j == i + 2 && s[i] == '+' && s[i + 1] == '1')
  {
    var both := Cat(One(IsPlus), One(IsOne));
    if Matches(both, s, i, j) {
      var k := CatSplit(One(IsPlus), One(IsOne), s, i, j);
    }
    if j == i + 2 && s[i] == '+' && s[i + 1] == '1' {
      CatJoin(One(IsPlus), One(IsOne), s, i, i + 1, j);
    }
  }

  /** What follows the bracket. */
  function NumberBody(): Re {
    var gap := Opt(One(IsPhoneGap));
    Cat(Three(Digit()), Cat(Opt(One(IsClose)), Cat(gap, Cat(Three(Digit()), Cat(gap, Four(Digit()))))))
  }

  lemma PhoneBodyIs()
    ensures PhoneBody() == Cat(Opt(Cat(One(IsPlus), One(IsOne))), Cat(Opt(One(IsPhoneGap)), Cat(Opt(One(IsOpen)), NumberBody())))
  {
  }

  lemma NumberTaken(s: string, r: nat, j: nat) returns (t: nat, u: nat, v: nat)
    requires r <= j <= |s| && Matches(NumberBody(), s, r, j)
    ensures NumberAt(s, r, t, u, v, j)
  {
    hide Matches, DigitsAt, Gap, PhoneGap, Two, Three, Four, Digit;
    var three, four, gap, close := Three(Digit()), Four(Digit()), Opt(One(IsPhoneGap)), Opt(One(IsClose));
    var last := Cat(three, Cat(gap, four));
    var k := CatSplit(three, Cat(close, Cat(gap, last)), s, r, j);
    t := CatSplit(close, Cat(gap, last), s, k, j);
    u := CatSplit(gap, last, s, t, j);
    var l := CatSplit(three, Cat(gap, four), s, u, j);
    v := CatSplit(gap, four, s, l, j);
    DigitsMatched(s, r, k, 3);
    DigitsMatched(s, u, l, 3);
    DigitsMatched(s, v, j, 4);
    BracketMatched(s, k, t);
    PhoneGapMatched(s, t, u);
    PhoneGapMatched(s, l, v);
  }

  lemma NumberGiven(s: string, r: int, t: int, u: int, v: int, j: int)
    requires NumberAt(s, r, t, u, v, j)
    ensures 0 <= r < j <= |s| && Matches(NumberBody(), s, r, j)
  {
    DigitsInside(s, r, 3);
    DigitsInside(s, u, 3);
    DigitsInside(s, v, 4);
    GapOrder(s, r + 3, t, ")");
    assert t <= u <= t + 1 && u + 3 <= v <= u + 4;
    hide Matches, DigitsAt, Gap, PhoneGap, Two, Three, Four, Digit;
    var three, four, gap, close := Three(Digit()), Four(Digit()), Opt(One(IsPhoneGap)), Opt(One(IsClose));
    var last := Cat(three, Cat(gap, four));
    DigitsMatched(s, r, r + 3, 3);
    DigitsMatched(s, u, u + 3, 3);
    DigitsMatched(s, v, j, 4);
    BracketMatched(s, r + 3, t);
    PhoneGapMatched(s, t, u);
    PhoneGapMatched(s, u + 3, v);
    CatJoin(gap, four, s, u + 3, v, j);
    CatJoin(three, Cat(gap, four), s, u, u + 3, j);
    CatJoin(gap, last, s, t, u, j);
    CatJoin(close, Cat(gap, last), s, r + 3, t, j);
    CatJoin(three, Cat(close, Cat(gap, last)), s, r, r + 3, j);
  }

  lemma PhoneTaken(s: string, i: nat, j: nat)
    requires i <= j <= |s| && Matches(PhoneBody(), s, i, j)
    ensures PhoneForm(s, i, j)
  {
    PhoneBodyIs();
    hide PhoneBody, Matches, Gap, PhoneGap, NumberBody, NumberAt;
    var plus, gap, bracket := Opt(Cat(One(IsPlus), One(IsOne))), Opt(One(IsPhoneGap)), Opt(One(IsOpen));
    var p := CatSplit(plus, Cat(gap, Cat(bracket, NumberBody())), s, i, j);
    var q := CatSplit(gap, Cat(bracket, NumberBody()), s, p, j);
    var r := CatSplit(bracket, NumberBody(), s, q, j);
    PlusOneMatched(s, i, p);
    PhoneGapMatched(s, p, q);
    BracketMatched(s, q, r);
    var t, u, v := NumberTaken(s, r, j);
    assert PhoneAt(s, i, p, q, r, t, u, v, j);
  }

  lemma PhoneGiven(s: string, i: int, p: int, q: int, r: int, t: int, u: int, v: int, j: int)
    requires PhoneAt(s, i, p, q, r, t, u, v, j)
    ensures 0 <= i < j <= |s| && Matches(PhoneBody(), s, i, j)
  {
    PhoneBodyIs();
    NumberGiven(s, r, t, u, v, j);
    assert i <= p <= q <= r;
    hide PhoneBody, Matches, Gap, PhoneGap, NumberBody, NumberAt;
    var plus, gap, bracket := Opt(Cat(One(IsPlus), One(IsOne))), Opt(One(IsPhoneGap)), Opt(One(IsOpen));
    PlusOneMatched(s, i, p);
    PhoneGapMatched(s, p, q);
    BracketMatched(s, q, r);
    CatJoin(bracket, NumberBody(), s, q, r, j);
    CatJoin(gap, Cat(bracket, NumberBody()), s, p, q, j);
    CatJoin(plus, Cat(gap, Cat(bracket, NumberBody())), s, i, p, j);
  }

  /** The four patterns match a span exactly if its characters have the form. */
  lemma FormsExactly(s: string, i: nat, j: nat)
    requires i <= j <= |s|
    ensures Matches(SsnBody(), s, i, j) <==> SsnForm(s, i, j)
    ensures Matches(CardBody(), s, i, j) <==> CardForm(s, i, j)
    ensures Matches(EmailBody(), s, i, j) <==> EmailForm(s, i, j)
    ensures Matches(PhoneBody(), s, i, j) <==> PhoneForm(s, i, j)
  {
    hide Matches, SsnBody, CardBody, EmailBody, PhoneBody, SsnAt, CardAt, EmailAt, PhoneAt;
    if Matches(SsnBody(), s, i, j) { SsnTaken(s, i, j); }
    if a, b :| SsnAt(s, i, a, b, j) { SsnGiven(s, i, a, b, j); }
    if Matches(CardBody(), s, i, j) { CardTaken(s, i, j); }
    if a, b, c :| CardAt(s, i, a, b, c, j) { CardGiven(s, i, a, b, c, j); }
    if Matches(EmailBody(), s, i, j) { EmailTaken(s, i, j); }
    if at, dot :| EmailAt(s, i, at, dot, j) { EmailGiven(s, i, at, dot, j); }
    if Matches(PhoneBody(), s, i, j) { PhoneTaken(s, i, j); }
    if p, q, r, t, u, v :| PhoneAt(s, i, p, q, r, t, u, v, j) { PhoneGiven(s, i, p, q, r, t, u, v, j); }
  }

  lemma FormsInside(s: string, i: int, j: int)
    requires SsnForm(s, i, j) || CardForm(s, i, j) || EmailForm(s, i, j) || PhoneForm(s, i, j)
    ensures 0 <= i < j <= |s|
  {
    hide SsnAt, CardAt, EmailAt, PhoneAt;
    if a, b :| SsnAt(s, i, a, b, j) { SsnGiven(s, i, a, b, j); }
    if a, b, c :| CardAt(s, i, a, b, c, j) { CardGiven(s, i, a, b, c, j); }
    if at, dot :| EmailAt(s, i, at, dot, j) { EmailGiven(s, i, at, dot, j); }
    if p, q, r, t, u, v :| PhoneAt(s, i, p, q, r, t, u, v, j) { PhoneGiven(s, i, p, q, r, t, u, v, j); }
  }

  /** A text is clean exactly if nothing of the four forms stands in it between word edges. */
  lemma CleanExactly(s: string)
    ensures Clean(s) <==> NothingSensitive(s)
  {
    hide Hit, Sensitive, Clean;
    CleanHits(s);
    forall i, j ensures Sensitive(s, i, j) <==> 0 <= i && 0 <= j && SomeHit(s, i, j) {
      SensitiveIsHit(s, i, j);
    }
    if Clean(s) {
      assert forall i, j :: !Sensitive(s, i, j);
    }
    if NothingSensitive(s) {
      forall i: nat, j: nat
        ensures !Hit(SsnBody(), s, i, j) && !Hit(CardBody(), s, i, j) && !Hit(EmailBody(), s, i, j) && !Hit(PhoneBody(), s, i, j)
      {
        assert !Sensitive(s, i, j) && !SomeHit(s, i, j);
      }
    }
  }

  ghost predicate SomeHit(s: string, i: nat, j: nat) {
    Hit(SsnBody(), s, i, j) || Hit(CardBody(), s, i, j) || Hit(EmailBody(), s, i, j) || Hit(PhoneBody(), s, i, j)
  }

  lemma SensitiveIsHit(s: string, i: int, j: int)
    ensures Sensitive(s, i, j) <==> 0 <= i && 0 <= j && SomeHit(s, i, j)
  {
    hide Matches, SsnBody, CardBody, EmailBody, PhoneBody, SsnForm, CardForm, EmailForm, PhoneForm, Boundary, WordEdge;
    EdgeIs(s, i);
    EdgeIs(s, j);
    if Sensitive(s, i, j) {
      FormsInside(s, i, j);
    }
    if 0 <= i <= j <= |s| {
      FormsExactly(s, i, j);
    }
  }
}
