/** Words in patterns with the /i flag. */
module FoldedWords {
  import opened Regex

  /** The /i flag without /u folds ASCII letters only against ASCII patterns. */
  function Lower(c: char): char {
    if 'A' <= c <= 'Z' then ((c as int) + 32) as char else c
  }

  /** The capital letters, each in the place of its small one; every other character is its own. */
  lemma LowerTable(c: char)
    ensures var capitals, smalls := "ABCDEFGHIJKLMNOPQRSTUVWXYZ", "abcdefghijklmnopqrstuvwxyz";
            && (forall k | 0 <= k < |capitals| && capitals[k] == c :: Lower(c) == smalls[k])
            && (c !in capitals ==> Lower(c) == c)
  {
    var capitals, smalls := "ABCDEFGHIJKLMNOPQRSTUVWXYZ", "abcdefghijklmnopqrstuvwxyz";
    assert forall k | 0 <= k < 26 :: capitals[k] as int == 65 + k && smalls[k] as int == 97 + k;
    if 'A' <= c <= 'Z' {
      assert capitals[c as int - 65] == c;
    }
  }

  /** `toLowerCase` on ASCII text. */
  function ToLower(s: string): (l: string)
    ensures |l| == |s|
  {
    seq(|s|, i requires 0 <= i < |s| => Lower(s[i]))
  }

  function Folds(to: char): char -> bool {
    (c: char) => Lower(c) == to
  }

  /** A lower-case word, matched without regard to case. */
  function Word(w: string): Re
    requires |w| > 0
  {
    if |w| == 1 then One(Folds(w[0])) else Cat(One(Folds(w[0])), Word(w[1..]))
  }

  /** `w` stands at position `i` of `key`, in any case. */
  predicate FoldsToAt(w: string, key: string, i: int) {
    0 <= i && i + |w| <= |key| && forall k | 0 <= k < |w| :: Lower(key[i + k]) == w[k]
  }

  /** `w` stands somewhere in the text, in any case. */
  ghost predicate Holds(w: string, key: string) {
    exists i :: FoldsToAt(w, key, i)
  }

  lemma {:induction false} WordMatches(w: string, s: string, i: nat, j: nat)
    requires |w| > 0 && i <= j <= |s|
    ensures Matches(Word(w), s, i, j) <==> j == i + |w| && FoldsToAt(w, s, i)
  {
    if |w| > 1 {
      var tail := w[1..];
      if Matches(Word(w), s, i, j) {
        var k := CatSplit(One(Folds(w[0])), Word(tail), s, i, j);
        WordMatches(tail, s, k, j);
        assert forall k | 0 < k < |w| :: w[k] == tail[k - 1] && Lower(s[i + 1 + (k - 1)]) == tail[k - 1];
      }
      if j == i + |w| && FoldsToAt(w, s, i) {
        assert Lower(s[i + 0]) == w[0];
        assert forall k | 0 <= k < |tail| :: Lower(s[i + (k + 1)]) == w[k + 1] == tail[k];
        WordMatches(tail, s, i + 1, j);
        assert Matches(One(Folds(w[0])), s, i, i + 1);
      }
    } else if j == i + 1 && FoldsToAt(w, s, i) {
      assert Lower(s[i + 0]) == w[0];
    }
  }

  lemma WordTest(w: string, key: string)
    requires |w| > 0
    ensures Test(Word(w), key) <==> Holds(w, key)
  {
    TestExact(Word(w), key);
    if i: nat, j: nat :| i <= j <= |key| && Matches(Word(w), key, i, j) {
      WordMatches(w, key, i, j);
    }
    if i :| FoldsToAt(w, key, i) {
      WordMatches(w, key, i, i + |w|);
    }
  }
}
