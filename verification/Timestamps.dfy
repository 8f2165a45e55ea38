/** The `timestamp` field that winston adds to a log record (src/utils/logger.ts:36), in the format
    "YYYY-MM-DD HH:mm:ss.SSS": the filter leaves it alone. */
module Timestamps {
  import opened FoldedWords
  import opened PiiForms
  import opened PiiKeys
  import opened PiiPatterns
  import opened Regex

  /** Positions of the format that hold no digit. */
  predicate IsSeparator(k: int) {
    k == 4 || k == 7 || k == 10 || k == 13 || k == 16 || k == 19
  }

  ghost predicate IsTimestamp(s: string) {
    && |s| == 23
    && (forall k | 0 <= k < 23 :: !IsSeparator(k) <==> IsDigit(s[k]))
    && s[4] == '-' && s[7] == '-' && s[10] == ' ' && s[13] == ':' && s[16] == ':' && s[19] == '.'
  }

  /** Timestamps exist. */
  lemma SomeTimestamp()
    ensures IsTimestamp("2026-06-03 07:05:09.120")
  {
  }

  lemma NoSsn(s: string, i: int, a: int, b: int, j: int)
    requires IsTimestamp(s)
    ensures !(WordEdge(s, i) && SsnAt(s, i, a, b, j))
  {
  }

  lemma NoCard(s: string, i: int, a: int, b: int, c: int, j: int)
    requires IsTimestamp(s)
    ensures !CardAt(s, i, a, b, c, j)
  {
  }

  lemma NoPhone(s: string, r: int, t: int, u: int, v: int, j: int)
    requires IsTimestamp(s)
    ensures !NumberAt(s, r, t, u, v, j)
  {
  }

  lemma NoAt(s: string)
    requires IsTimestamp(s)
    ensures forall k | 0 <= k < |s| :: s[k] != '@'
  {
    forall k | 0 <= k < |s| ensures s[k] != '@' {
      assert IsSeparator(k) || IsDigit(s[k]);
    }
  }

  /** None of the four forms stands in a timestamp, so redaction leaves it as it is. */
  lemma TimestampKept(s: string)
    requires IsTimestamp(s)
    ensures NothingSensitive(s) && Redacted(s) == s
  {
    NoAt(s);
    hide SsnAt, CardAt, NumberAt, WordEdge, IsTimestamp, Redacted, Clean;
    forall i, j ensures !Sensitive(s, i, j) {
      forall a, b ensures !(WordEdge(s, i) && SsnAt(s, i, a, b, j)) { NoSsn(s, i, a, b, j); }
      forall a, b, c ensures !CardAt(s, i, a, b, c, j) { NoCard(s, i, a, b, c, j); }
      forall r, t, u, v ensures !NumberAt(s, r, t, u, v, j) { NoPhone(s, r, t, u, v, j); }
    }
    CleanExactly(s);
    UnchangedIffClean(s);
  }

  // --- Its key ---

  /** A word with a letter that the key lacks is not in the key. */
  lemma Absent(w: string, key: string, n: nat)
    requires n < |w| && forall k | 0 <= k < |key| :: Lower(key[k]) != w[n]
    ensures !Holds(w, key) && !StandsAlone(w, key)
    ensures forall b :: !Gapped(w, b, key)
    ensures forall b, c :: !Gapped3(w, b, c, key)
  {
    forall i ensures !FoldsToAt(w, key, i) {
      assert 0 <= i && i + |w| <= |key| ==> Lower(key[i + n]) != w[n];
    }
  }

  lemma LowerStays(c: char)
    requires 'a' <= c <= 'z'
    ensures Lower(c) == c
  {
  }

  /** A key of small letters that lacks ten letters and does not hold "email" is no PII key. */
  lemma PlainKey(key: string)
    requires forall k | 0 <= k < |key| :: 'a' <= key[k] <= 'z' && key[k] !in "hnwckrxbdj"
    requires !Holds("email", key)
    ensures !KeyMatchesPII(key)
  {
    hide *;
    forall k | 0 <= k < |key| ensures Lower(key[k]) == key[k] { LowerStays(key[k]); }
    Absent("phone", key, 1);
    Absent("ssn", key, 2);
    Absent("password", key, 4);
    Absent("secret", key, 2);
    Absent("token", key, 2);
    Absent("routing", key, 0);
    Absent("social", key, 2);
    Absent("tax", key, 2);
    Absent("credit", key, 0);
    Absent("card", key, 0);
    Absent("account", key, 1);
    Absent("birth", key, 0);
    Absent("date", key, 0);
    Absent("tin", key, 2);
    Absent("jwt", key, 0);
    Absent("cvv", key, 0);
    Absent("dob", key, 0);
    KeyMatchesExactly(key);
  }

  lemma Small(key: string)
    requires key == "timestamp" || key == "message" || key == "level"
    ensures forall k | 0 <= k < |key| :: 'a' <= key[k] <= 'z' && key[k] !in "hnwckrxbdj" && Lower(key[k]) == key[k]
    ensures forall k | 0 <= k < |key| :: key[k] != if key == "level" then 'm' else 'l'
  {
  }

  /** Three of winston's own keys are no PII keys. */
  lemma OwnKeys()
    ensures !KeyMatchesPII("timestamp") && !KeyMatchesPII("message") && !KeyMatchesPII("level")
  {
    hide *;
    Small("timestamp");
    Small("message");
    Small("level");
    Absent("email", "timestamp", 4);
    Absent("email", "message", 4);
    Absent("email", "level", 1);
    PlainKey("timestamp");
    PlainKey("message");
    PlainKey("level");
  }

  /** So is the fourth: its letters make up "cvv", but not next to each other. */
  lemma ServiceKey()
    ensures !KeyMatchesPII("service")
  {
    hide *;
    var key := "service";
    ServiceLetters();
    Absent("email", key, 1);
    Absent("phone", key, 0);
    Absent("ssn", key, 2);
    Absent("password", key, 0);
    Absent("secret", key, 5);
    Absent("token", key, 0);
    Absent("routing", key, 1);
    Absent("social", key, 1);
    Absent("tax", key, 0);
    Absent("credit", key, 3);
    Absent("card", key, 1);
    Absent("account", key, 0);
    Absent("birth", key, 0);
    Absent("date", key, 0);
    Absent("tin", key, 0);
    Absent("jwt", key, 0);
    Absent("dob", key, 0);
    NoCvv();
    KeyMatchesExactly(key);
  }

  lemma ServiceLetters()
    ensures forall k | 0 <= k < |"service"| :: Lower("service"[k]) == "service"[k] && "service"[k] in "servic"
  {
  }

  lemma NoCvv()
    ensures !StandsAlone("cvv", "service")
  {
    var w, key := "cvv", "service";
    forall i ensures !FoldsToAt(w, key, i) {
      assert 0 <= i && i + 3 <= |key| ==> Lower(key[i + 0]) != w[0] || Lower(key[i + 1]) != w[1];
    }
  }
}
