/** src/utils/pii-filter.ts: the key patterns, `keyMatchesPII` and `isUuidIdKey`. */
module PiiKeys {
  import opened FoldedWords
  import opened Regex

  /** The `.` of a pattern: any character but a line terminator. */
  predicate NotNewline(c: char) {
    c != '\n' && c != '\r' && c as int != 0x2028 && c as int != 0x2029
  }

  /** a.*b */
  function Around(a: string, b: string): Re
    requires |a| > 0 && |b| > 0
  {
    Cat(Word(a), Cat(Star(NotNewline), Word(b)))
  }

  /** a.*b.*c */
  function Around3(a: string, b: string, c: string): Re
    requires |a| > 0 && |b| > 0 && |c| > 0
  {
    Cat(Word(a), Cat(Star(NotNewline), Around(b, c)))
  }

  /** \bw\b */
  function Alone(w: string): Re
    requires |w| > 0
  {
    Cat(Edge, Cat(Word(w), Edge))
  }

  /** The patterns that are a bare word. */
  function KeyWords(): (ws: seq<string>)
    ensures forall k | 0 <= k < |ws| :: |ws[k]| > 0
  {
    ["email", "phone", "ssn", "password", "secret", "token", "routing"]
  }

  /** The patterns with a gap or with word boundaries. */
  function KeyShapes(): seq<Re> {
    [Around("social", "security"), Around("tax", "id"), Alone("tin"), Alone("jwt"), Around("credit", "card"),
     Around("card", "number"), Alone("cvv"), Around("account", "number"), Around("routing", "number"), Alone("dob"),
     Around3("date", "of", "birth"), Around("birth", "date")]
  }

  /** `PII_KEY_PATTERNS.some(rx => rx.test(key))`; the order of the patterns does not matter. */
  predicate KeyMatchesPII(key: string) {
    hide KeyWords, KeyShapes, Word, Test;
    || (exists k :: 0 <= k < |KeyWords()| && Test(Word(KeyWords()[k]), key))
    || (exists k :: 0 <= k < |KeyShapes()| && Test(KeyShapes()[k], key))
  }

  /** /(?:ids|_ids)$/i */
  predicate IsUuidIdKey(key: string) {
    Test(Cat(Alt(Word("ids"), Word("_ids")), End), key)
  }

  // --- What the key tests mean ---

  /** No line terminator in key[i..j]. */
  ghost predicate SameLine(key: string, i: int, j: int) {
    && 0 <= i <= j <= |key|
    && forall k | i <= k < j :: key[k] != '\n' && key[k] != '\r' && key[k] as int != 0x2028 && key[k] as int != 0x2029
  }

  ghost predicate GapAt(a: string, b: string, key: string, i: int, j: int) {
    FoldsToAt(a, key, i) && SameLine(key, i + |a|, j) && FoldsToAt(b, key, j)
  }

  /** `a` and later, on the same line, `b`. */
  ghost predicate Gapped(a: string, b: string, key: string) {
    exists i, j :: GapAt(a, b, key, i, j)
  }

  ghost predicate Gapped3(a: string, b: string, c: string, key: string) {
    exists i, j, k :: GapAt(a, b, key, i, j) && GapAt(b, c, key, j, k)
  }

  ghost predicate AloneAt(w: string, key: string, i: int) {
    FoldsToAt(w, key, i) && WordEdge(key, i) && WordEdge(key, i + |w|)
  }

  /** `w` as a word of its own. */
  ghost predicate StandsAlone(w: string, key: string) {
    exists i :: AloneAt(w, key, i)
  }

  lemma AroundMatches(a: string, b: string, key: string, i: nat, j: nat)
    requires |a| > 0 && |b| > 0 && i <= j <= |key|
    ensures Matches(Around(a, b), key, i, j) <==> GapAt(a, b, key, i, j - |b|)
  {
    hide FoldsToAt, Word;
    var gap := Star(NotNewline);
    if Matches(Around(a, b), key, i, j) {
      var k := CatSplit(Word(a), Cat(gap, Word(b)), key, i, j);
      var l := CatSplit(gap, Word(b), key, k, j);
      WordMatches(a, key, i, k);
      WordMatches(b, key, l, j);
    }
    if GapAt(a, b, key, i, j - |b|) {
      var k, l := i + |a|, j - |b|;
      WordMatches(a, key, i, k);
      WordMatches(b, key, l, j);
      CatJoin(gap, Word(b), key, k, l, j);
      CatJoin(Word(a), Cat(gap, Word(b)), key, i, k, j);
    }
  }

  lemma AroundTest(a: string, b: string, key: string)
    requires |a| > 0 && |b| > 0
    ensures Test(Around(a, b), key) <==> Gapped(a, b, key)
  {
    hide Matches, Around, Test;
    TestExact(Around(a, b), key);
    if i: nat, j: nat :| i <= j <= |key| && Matches(Around(a, b), key, i, j) {
      AroundMatches(a, b, key, i, j);
    }
    if i, j :| GapAt(a, b, key, i, j) {
      AroundMatches(a, b, key, i, j + |b|);
    }
  }

  lemma Around3Found(a: string, b: string, c: string, key: string, i: nat, j: nat)
    requires |a| > 0 && |b| > 0 && |c| > 0 && i <= j <= |key| && Matches(Around3(a, b, c), key, i, j)
    ensures Gapped3(a, b, c, key)
  {
    hide FoldsToAt, Word, Around;
    var gap, tail := Star(NotNewline), Around(b, c);
    var k := CatSplit(Word(a), Cat(gap, tail), key, i, j);
    var l := CatSplit(gap, tail, key, k, j);
    WordMatches(a, key, i, k);
    AroundMatches(b, c, key, l, j);
    assert GapAt(b, c, key, l, j - |c|);
    InRange(b, key, l);
    assert GapAt(a, b, key, i, l);
  }

  lemma Around3Matches(a: string, b: string, c: string, key: string, i: int, j: int, k: int)
    requires |a| > 0 && |b| > 0 && |c| > 0 && GapAt(a, b, key, i, j) && GapAt(b, c, key, j, k)
    ensures 0 <= i <= k + |c| <= |key| && Matches(Around3(a, b, c), key, i, k + |c|)
  {
    hide FoldsToAt, Word, Around;
    var gap, tail := Star(NotNewline), Around(b, c);
    InRange(a, key, i);
    InRange(c, key, k);
    WordMatches(a, key, i, i + |a|);
    AroundMatches(b, c, key, j, k + |c|);
    CatJoin(gap, tail, key, i + |a|, j, k + |c|);
    CatJoin(Word(a), Cat(gap, tail), key, i, i + |a|, k + |c|);
  }

  lemma Around3Test(a: string, b: string, c: string, key: string)
    requires |a| > 0 && |b| > 0 && |c| > 0
    ensures Test(Around3(a, b, c), key) <==> Gapped3(a, b, c, key)
  {
    hide GapAt, Test, Around3, Matches;
    TestExact(Around3(a, b, c), key);
    if i: nat, j: nat :| i <= j <= |key| && Matches(Around3(a, b, c), key, i, j) {
      Around3Found(a, b, c, key, i, j);
    }
    if i, j, k :| GapAt(a, b, key, i, j) && GapAt(b, c, key, j, k) {
      Around3Matches(a, b, c, key, i, j, k);
    }
  }

  lemma InRange(w: string, key: string, i: int)
    requires FoldsToAt(w, key, i)
    ensures 0 <= i && i + |w| <= |key|
  {
  }

  lemma AloneTest(w: string, key: string)
    requires |w| > 0
    ensures Test(Alone(w), key) <==> StandsAlone(w, key)
  {
    hide FoldsToAt, Word, Test;
    TestExact(Alone(w), key);
    if i: nat, j: nat :| i <= j <= |key| && Matches(Alone(w), key, i, j) {
      var k := CatSplit(Edge, Cat(Word(w), Edge), key, i, j);
      var l := CatSplit(Word(w), Edge, key, k, j);
      WordMatches(w, key, k, l);
      EdgeIs(key, i);
      EdgeIs(key, j);
      assert AloneAt(w, key, i);
    }
    if i :| AloneAt(w, key, i) {
      InRange(w, key, i);
      var j := i + |w|;
      EdgeIs(key, i);
      EdgeIs(key, j);
      WordMatches(w, key, i, j);
      assert Matches(Edge, key, i, i) && Matches(Edge, key, j, j);
      CatJoin(Word(w), Edge, key, i, j, j);
      CatJoin(Edge, Cat(Word(w), Edge), key, i, i, j);
      assert Matches(Alone(w), key, i, j);
    }
  }

  /** The PII keys, without regular expressions. */
  lemma KeyMatchesExactly(key: string)
    ensures KeyMatchesPII(key) <==>
              || Holds("email", key) || Holds("phone", key) || Holds("ssn", key) || Holds("password", key)
              || Holds("secret", key) || Holds("token", key) || Holds("routing", key)
              || Gapped("social", "security", key) || Gapped("tax", "id", key) || Gapped("credit", "card", key)
              || Gapped("card", "number", key) || Gapped("account", "number", key) || Gapped("birth", "date", key)
              || Gapped3("date", "of", "birth", key)
              || StandsAlone("tin", key) || StandsAlone("jwt", key) || StandsAlone("cvv", key) || StandsAlone("dob", key)
  {
    WordsExactly(key);
    ShapesExactly(key);
    RoutingNumber(key);
    hide Holds, Gapped, Gapped3, StandsAlone, Test;
  }

  lemma WordsExactly(key: string)
    ensures (exists k :: 0 <= k < |KeyWords()| && Test(Word(KeyWords()[k]), key)) <==>
              || Holds("email", key) || Holds("phone", key) || Holds("ssn", key) || Holds("password", key)
              || Holds("secret", key) || Holds("token", key) || Holds("routing", key)
  {
    hide FoldsToAt, Word, Test;
    var ws := KeyWords();
    forall k | 0 <= k < |ws| ensures Test(Word(ws[k]), key) <==> Holds(ws[k], key) {
      WordTest(ws[k], key);
    }
    assert ws[0] == "email" && ws[1] == "phone" && ws[2] == "ssn" && ws[3] == "password";
    assert ws[4] == "secret" && ws[5] == "token" && ws[6] == "routing" && |ws| == 7;
    hide Holds, KeyWords;
  }

  lemma ShapesExactly(key: string)
    ensures (exists k :: 0 <= k < |KeyShapes()| && Test(KeyShapes()[k], key)) <==>
              || Gapped("social", "security", key) || Gapped("tax", "id", key) || StandsAlone("tin", key) || StandsAlone("jwt", key)
              || Gapped("credit", "card", key) || Gapped("card", "number", key) || StandsAlone("cvv", key)
              || Gapped("account", "number", key) || Gapped("routing", "number", key) || StandsAlone("dob", key)
              || Gapped3("date", "of", "birth", key) || Gapped("birth", "date", key)
  {
    hide Around, Around3, Alone, Test, Gapped, Gapped3, StandsAlone;
    AroundTest("social", "security", key);
    AroundTest("tax", "id", key);
    AloneTest("tin", key);
    AloneTest("jwt", key);
    AroundTest("credit", "card", key);
    AroundTest("card", "number", key);
    AloneTest("cvv", key);
    AroundTest("account", "number", key);
    AroundTest("routing", "number", key);
    AloneTest("dob", key);
    Around3Test("date", "of", "birth", key);
    AroundTest("birth", "date", key);
    var rs := KeyShapes();
    assert |rs| == 12 && rs[0] == Around("social", "security") && rs[1] == Around("tax", "id") && rs[2] == Alone("tin");
    assert rs[3] == Alone("jwt") && rs[4] == Around("credit", "card") && rs[5] == Around("card", "number") && rs[6] == Alone("cvv");
    assert rs[7] == Around("account", "number") && rs[8] == Around("routing", "number") && rs[9] == Alone("dob");
    assert rs[10] == Around3("date", "of", "birth") && rs[11] == Around("birth", "date");
  }

  /** The pattern routing.*number adds nothing to the pattern routing. */
  lemma RoutingNumber(key: string)
    ensures Gapped("routing", "number", key) ==> Holds("routing", key)
  {
    hide FoldsToAt;
  }

  /** The id-key test is a case-insensitive suffix test for "ids". */
  lemma UuidIdKeySuffix(key: string)
    ensures IsUuidIdKey(key) <==> |key| >= 3 && FoldsToAt("ids", key, |key| - 3)
  {
    var alt := Alt(Word("ids"), Word("_ids"));
    TestExact(Cat(alt, End), key);
    if i: nat, j: nat :| i <= j <= |key| && Matches(Cat(alt, End), key, i, j) {
      var k := CatSplit(alt, End, key, i, j);
      WordMatches("ids", key, i, k);
      WordMatches("_ids", key, i, k);
      if Matches(Word("_ids"), key, i, k) {
        assert forall m | 0 <= m < 3 :: Lower(key[i + (m + 1)]) == "_ids"[m + 1] == "ids"[m];
        assert FoldsToAt("ids", key, i + 1);
      }
    }
    if |key| >= 3 && FoldsToAt("ids", key, |key| - 3) {
      var i: nat := |key| - 3;
      WordMatches("ids", key, i, |key|);
      assert Matches(alt, key, i, |key|) && Matches(End, key, |key|, |key|);
      assert Matches(Cat(alt, End), key, i, |key|);
    }
  }
}
