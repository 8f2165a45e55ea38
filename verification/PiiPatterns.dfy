/** src/utils/pii-filter.ts: the four value patterns and `redactSensitiveStrings`. */
module PiiPatterns {
  import opened Regex
  import opened Replacement

  // --- Character classes ---

  predicate IsDigit(c: char) { '0' <= c <= '9' }
  predicate IsLetter(c: char) { 'A' <= c <= 'Z' || 'a' <= c <= 'z' }
  predicate IsDash(c: char) { c == '-' }
  predicate IsDashOrSpace(c: char) { c == '-' || c == ' ' }
  predicate IsDot(c: char) { c == '.' }
  predicate IsAt(c: char) { c == '@' }
  predicate IsPlus(c: char) { c == '+' }
  predicate IsOne(c: char) { c == '1' }
  predicate IsOpen(c: char) { c == '(' }
  predicate IsClose(c: char) { c == ')' }
  predicate IsLocal(c: char) { IsLetter(c) || IsDigit(c) || c == '.' || c == '_' || c == '%' || c == '+' || c == '-' }
  predicate IsDomain(c: char) { IsLetter(c) || IsDigit(c) || c == '.' || c == '-' }
  /** [A-Z|a-z]: the class of the source holds the bar as well. */
  predicate IsTld(c: char) { IsLetter(c) || c == '|' }

  /** \s: WhiteSpace and LineTerminator of ECMA-262. */
  predicate IsSpace(c: char) {
    var u := c as int;
    9 <= u <= 13 || u == 32 || u == 0xA0 || u == 0x1680 || 0x2000 <= u <= 0x200A || u == 0x2028 || u == 0x2029
    || u == 0x202F || u == 0x205F || u == 0x3000 || u == 0xFEFF
  }

  predicate IsPhoneGap(c: char) { c == '-' || c == '.' || IsSpace(c) }

  // --- The patterns, each between two \b ---

  function Two(r: Re): Re { Cat(r, r) }
  function Three(r: Re): Re { Cat(r, Two(r)) }
  function Four(r: Re): Re { Cat(r, Three(r)) }
  function Digit(): Re { One(IsDigit) }

  /** \d{3}-?\d{2}-?\d{4} */
  function SsnBody(): Re {
    Cat(Three(Digit()), Cat(Opt(One(IsDash)), Cat(Two(Digit()), Cat(Opt(One(IsDash)), Four(Digit())))))
  }

  /** \d{4}[- ]?\d{4}[- ]?\d{4}[- ]?\d{4} */
  function CardBody(): Re {
    var gap := Opt(One(IsDashOrSpace));
    Cat(Four(Digit()), Cat(gap, Cat(Four(Digit()), Cat(gap, Cat(Four(Digit()), Cat(gap, Four(Digit())))))))
  }

  /** [A-Za-z0-9._%+-]+@[A-Za-z0-9.-]+\.[A-Z|a-z]{2,} */
  function EmailBody(): Re {
    Cat(Cat(One(IsLocal), Star(IsLocal)),
        Cat(One(IsAt),
            Cat(Cat(One(IsDomain), Star(IsDomain)),
                Cat(One(IsDot), Cat(Two(One(IsTld)), Star(IsTld))))))
  }

  /** (\+1)?[-.\s]?\(?\d{3}\)?[-.\s]?\d{3}[-.\s]?\d{4} */
  function PhoneBody(): Re {
    var gap := Opt(One(IsPhoneGap));
    Cat(Opt(Cat(One(IsPlus), One(IsOne))),
        Cat(gap,
            Cat(Opt(One(IsOpen)),
                Cat(Three(Digit()),
                    Cat(Opt(One(IsClose)), Cat(gap, Cat(Three(Digit()), Cat(gap, Four(Digit())))))))))
  }

  lemma DigitsSealed()
    ensures Sealed(Digit()) && Sealed(Two(Digit())) && Sealed(Three(Digit())) && Sealed(Four(Digit()))
  {
  }

  lemma SsnSealed()
    ensures Sealed(SsnBody())
  {
    DigitsSealed();
  }

  lemma CardSealed()
    ensures Sealed(CardBody())
  {
    DigitsSealed();
  }

  lemma EmailSealed()
    ensures Sealed(EmailBody())
  {
    assert Needs(One(IsAt), IsMark);
  }

  lemma PhoneSealed()
    ensures Sealed(PhoneBody())
  {
    DigitsSealed();
    var gap := Opt(One(IsPhoneGap));
    var tail := Cat(Three(Digit()), Cat(gap, Four(Digit())));
    assert !IsPhoneGap('[') && !IsPhoneGap(']') && !IsPhoneGap('"');
    assert Inert(One(IsPhoneGap));
    assert Inert(gap);
    SealedCat(gap, Four(Digit()));
    SealedCat(Three(Digit()), Cat(gap, Four(Digit())));
    SealedCat(gap, tail);
    SealedCat(Opt(One(IsClose)), Cat(gap, tail));
    SealedCat(Three(Digit()), Cat(Opt(One(IsClose)), Cat(gap, tail)));
    var number := Cat(Three(Digit()), Cat(Opt(One(IsClose)), Cat(gap, tail)));
    SealedCat(Opt(One(IsOpen)), number);
    SealedCat(gap, Cat(Opt(One(IsOpen)), number));
    assert Inert(One(IsPlus)) && Inert(One(IsOne));
    assert Inert(Cat(One(IsPlus), One(IsOne)));
    SealedCat(Opt(Cat(One(IsPlus), One(IsOne))), Cat(gap, Cat(Opt(One(IsOpen)), number)));
  }

  // --- redactSensitiveStrings ---

  function Ssn(): Re { Bounded(SsnBody()) }
  function Card(): Re { Bounded(CardBody()) }
  function Email(): Re { Bounded(EmailBody()) }
  function Phone(): Re { Bounded(PhoneBody()) }

  /** Every pattern consumes text, so a global replacement makes progress. */
  lemma BodiesConsume()
    ensures Consumes(SsnBody()) && Consumes(CardBody()) && Consumes(EmailBody()) && Consumes(PhoneBody())
  {
    hide SsnBody, CardBody, EmailBody, PhoneBody;
    BodiesSealed();
  }

  lemma BodiesSealed()
    ensures Sealed(SsnBody()) && Sealed(CardBody()) && Sealed(EmailBody()) && Sealed(PhoneBody())
  {
    hide *;
    SsnSealed(); CardSealed(); EmailSealed(); PhoneSealed();
  }

  /** One pass: the matches of one pattern give way to its bracketed name. */
  function Pass(body: Re, name: string, s: string): string
    requires Consumes(body)
  {
    Replace(Bounded(body), Tag(name), s)
  }

  function Redacted(input: string): string {
    BodiesConsume();
    var s1 := Pass(SsnBody(), "SSN-REDACTED", input);
    var s2 := Pass(CardBody(), "CARD-REDACTED", s1);
    var s3 := Pass(EmailBody(), "EMAIL-REDACTED", s2);
    Pass(PhoneBody(), "PHONE-REDACTED", s3)
  }

  /** The text matches none of the four patterns anywhere. */
  ghost predicate Clean(s: string) {
    Free(Ssn(), s) && Free(Card(), s) && Free(Email(), s) && Free(Phone(), s)
  }

  /** A pass removes its own pattern. */
  lemma PassRemoves(body: Re, name: string, s: string)
    requires Sealed(body) && TagName(name)
    ensures NoHit(body, Pass(body, name, s))
  {
    SpansComplete(Bounded(body), s, 0);
    forall a: nat, c: nat | Hit(body, s, a, c) ensures Covered(Spans(Bounded(body), s, 0), a) {
      BoundedHit(body, s, a, c);
    }
    TaggedFree(body, body, name, s, 0);
  }

  /** A later pass never re-creates a match of an earlier pattern. */
  lemma PassKeeps(body: Re, name: string, s: string, earlier: Re)
    requires Sealed(body) && Sealed(earlier) && TagName(name)
    requires NoHit(earlier, s)
    ensures NoHit(earlier, Pass(body, name, s))
  {
    TaggedFree(body, earlier, name, s, 0);
  }

  lemma CleanHits(s: string)
    ensures Clean(s) <==> NoHit(SsnBody(), s) && NoHit(CardBody(), s) && NoHit(EmailBody(), s) && NoHit(PhoneBody(), s)
  {
    BoundedFree(SsnBody(), s);
    BoundedFree(CardBody(), s);
    BoundedFree(EmailBody(), s);
    BoundedFree(PhoneBody(), s);
  }

  ghost predicate TagName(name: string) {
    forall k | 0 <= k < |name| :: !IsMark(name[k])
  }

  lemma TagNames()
    ensures TagName("SSN-REDACTED") && TagName("CARD-REDACTED") && TagName("EMAIL-REDACTED") && TagName("PHONE-REDACTED")
  {
  }

  /** Four passes over any sealed patterns, in any order, leave a text free of all four. */
  lemma FourPasses(a: Re, b: Re, c: Re, d: Re, na: string, nb: string, nc: string, nd: string, s: string)
    requires Sealed(a) && Sealed(b) && Sealed(c) && Sealed(d)
    requires TagName(na) && TagName(nb) && TagName(nc) && TagName(nd)
    ensures var out := Pass(d, nd, Pass(c, nc, Pass(b, nb, Pass(a, na, s))));
            NoHit(a, out) && NoHit(b, out) && NoHit(c, out) && NoHit(d, out)
  {
    var s1 := Pass(a, na, s);
    var s2 := Pass(b, nb, s1);
    var s3 := Pass(c, nc, s2);
    PassRemoves(a, na, s);
    PassRemoves(b, nb, s1);
    PassKeeps(b, nb, s1, a);
    PassRemoves(c, nc, s2);
    PassKeeps(c, nc, s2, a);
    PassKeeps(c, nc, s2, b);
    PassRemoves(d, nd, s3);
    PassKeeps(d, nd, s3, a);
    PassKeeps(d, nd, s3, b);
    PassKeeps(d, nd, s3, c);
  }

  /** No SSN, card, e-mail or phone number survives redaction, whatever the input. */
  lemma RedactedIsClean(input: string)
    ensures Clean(Redacted(input))
  {
    BodiesSealed();
    TagNames();
    FourPasses(SsnBody(), CardBody(), EmailBody(), PhoneBody(),
               "SSN-REDACTED", "CARD-REDACTED", "EMAIL-REDACTED", "PHONE-REDACTED", input);
    CleanHits(Redacted(input));
  }

  lemma PassNothing(body: Re, name: string, s: string)
    requires Consumes(body) && Free(Bounded(body), s)
    ensures Pass(body, name, s) == s
  {
    ReplaceNothing(Bounded(body), Tag(name), s);
  }

  /** Redaction changes a text if and only if some pattern matches it. */
  lemma UnchangedIffClean(s: string)
    ensures Redacted(s) == s <==> Clean(s)
  {
    BodiesConsume();
    hide SsnBody, CardBody, EmailBody, PhoneBody, Pass, Free;
    if Clean(s) {
      PassNothing(SsnBody(), "SSN-REDACTED", s);
      PassNothing(CardBody(), "CARD-REDACTED", s);
      PassNothing(EmailBody(), "EMAIL-REDACTED", s);
      PassNothing(PhoneBody(), "PHONE-REDACTED", s);
    }
    RedactedIsClean(s);
  }

  lemma RedactedTwice(s: string)
    ensures Redacted(Redacted(s)) == Redacted(s)
  {
    RedactedIsClean(s);
    UnchangedIffClean(Redacted(s));
  }

  // --- Which pattern gives which tag ---

  /** A later pass leaves the tag of an earlier one alone. */
  lemma TagStays(body: Re, name: string, other: string)
    requires Sealed(body) && TagName(other)
    ensures Pass(body, name, "[" + other + "]") == "[" + other + "]"
  {
    var tag := "[" + other + "]";
    InnocentFree(body, tag);
    BoundedFree(body, tag);
    PassNothing(body, name, tag);
  }

  /** A text that is one match as a whole becomes the tag of the first pattern that matches it. */
  lemma WholePasses(a: Re, b: Re, c: Re, d: Re, na: string, nb: string, nc: string, nd: string, s: string)
    requires Sealed(a) && Sealed(b) && Sealed(c) && Sealed(d)
    requires TagName(na) && TagName(nb) && TagName(nc) && TagName(nd)
    ensures var out := Pass(d, nd, Pass(c, nc, Pass(b, nb, Pass(a, na, s))));
            && (Whole(a, s) ==> out == "[" + na + "]")
            && (Free(Bounded(a), s) && Whole(b, s) ==> out == "[" + nb + "]")
            && (Free(Bounded(a), s) && Free(Bounded(b), s) && Whole(c, s) ==> out == "[" + nc + "]")
            && (Free(Bounded(a), s) && Free(Bounded(b), s) && Free(Bounded(c), s) && Whole(d, s) ==> out == "[" + nd + "]")
  {
    OnePass(a, na, s);
    OnePass(b, nb, s);
    OnePass(c, nc, s);
    OnePass(d, nd, s);
    TagStays(b, nb, na);
    TagStays(c, nc, na);
    TagStays(d, nd, na);
    TagStays(c, nc, nb);
    TagStays(d, nd, nb);
    TagStays(d, nd, nc);
    hide Pass, Whole, Free;
  }

  /** ... so each kind of text gets its own tag. */
  lemma WholeTagged(s: string)
    ensures Whole(SsnBody(), s) ==> Redacted(s) == "[" + "SSN-REDACTED" + "]"
    ensures Free(Ssn(), s) && Whole(CardBody(), s) ==> Redacted(s) == "[" + "CARD-REDACTED" + "]"
    ensures Free(Ssn(), s) && Free(Card(), s) && Whole(EmailBody(), s) ==> Redacted(s) == "[" + "EMAIL-REDACTED" + "]"
    ensures Free(Ssn(), s) && Free(Card(), s) && Free(Email(), s) && Whole(PhoneBody(), s) ==> Redacted(s) == "[" + "PHONE-REDACTED" + "]"
  {
    BodiesSealed();
    TagNames();
    WholePasses(SsnBody(), CardBody(), EmailBody(), PhoneBody(),
                "SSN-REDACTED", "CARD-REDACTED", "EMAIL-REDACTED", "PHONE-REDACTED", s);
    hide SsnBody, CardBody, EmailBody, PhoneBody, Free, Whole, Pass, TagName, Bounded;
  }

  lemma OnePass(body: Re, name: string, s: string)
    requires Consumes(body)
    ensures Whole(body, s) ==> Pass(body, name, s) == "[" + name + "]"
    ensures Free(Bounded(body), s) ==> Pass(body, name, s) == s
  {
    if Whole(body, s) { ReplaceWhole(body, Tag(name), s); }
    if Free(Bounded(body), s) { PassNothing(body, name, s); }
  }

  lemma DigitsMatch(s: string, i: nat, n: nat)
    requires 2 <= n <= 4 && i + n <= |s| && forall k | i <= k < i + n :: IsDigit(s[k])
    ensures n == 2 ==> Matches(Two(Digit()), s, i, i + n)
    ensures n == 3 ==> Matches(Three(Digit()), s, i, i + n)
    ensures n == 4 ==> Matches(Four(Digit()), s, i, i + n)
    decreases n
  {
    if n == 2 {
      CatJoin(Digit(), Digit(), s, i, i + 1, i + 2);
    } else {
      DigitsMatch(s, i + 1, n - 1);
      CatJoin(Digit(), if n == 3 then Two(Digit()) else Three(Digit()), s, i, i + 1, i + n);
    }
  }

  lemma NineDigitsMatch(s: string, i: nat)
    requires i + 9 <= |s| && forall k | i <= k < i + 9 :: IsDigit(s[k])
    ensures Matches(SsnBody(), s, i, i + 9)
  {
    DigitsMatch(s, i, 3);
    DigitsMatch(s, i + 3, 2);
    DigitsMatch(s, i + 5, 4);
    var dash := Opt(One(IsDash));
    assert Matches(dash, s, i + 3, i + 3) && Matches(dash, s, i + 5, i + 5);
    hide Two, Three, Four, Digit, Matches;
    CatJoin(dash, Four(Digit()), s, i + 5, i + 5, i + 9);
    CatJoin(Two(Digit()), Cat(dash, Four(Digit())), s, i + 3, i + 5, i + 9);
    CatJoin(dash, Cat(Two(Digit()), Cat(dash, Four(Digit()))), s, i + 3, i + 3, i + 9);
    CatJoin(Three(Digit()), Cat(dash, Cat(Two(Digit()), Cat(dash, Four(Digit())))), s, i, i + 3, i + 9);
  }

  /** Every text of nine digits is redacted as a social security number. */
  lemma NineDigits(s: string)
    requires |s| == 9 && forall k | 0 <= k < 9 :: IsDigit(s[k])
    ensures Redacted(s) == "[" + "SSN-REDACTED" + "]"
  {
    NineDigitsMatch(s, 0);
    hide SsnBody, CardBody, EmailBody, PhoneBody, Redacted;
    assert Boundary(s, 0) && Boundary(s, 9) && forall j | 0 < j < 9 :: !Boundary(s, j);
    BoundedHit(SsnBody(), s, 0, 9);
    EndsExact(Bounded(SsnBody()), s, 0, 9);
    var j := Ends(Bounded(SsnBody()), s, 0)[0];
    EndsExact(Bounded(SsnBody()), s, 0, j);
    BoundedHit(SsnBody(), s, 0, j);
    BodiesConsume();
    MatchConsumes(SsnBody(), s, 0, j);
    WholeTagged(s);
  }
}
