/** The derivations of a slug from a name, on ASCII names: src/db/onboard-property.ts,
    src/db/seed-property-geo.ts, src/db/seed.ts, the SQL of the matching queries and
    tools/housing-qa/retriever.py. */
module Slugs {
  import opened FoldedWords
  import opened Strings

  type Test = char -> bool

  predicate IsAlnum(c: char) {
    'a' <= c <= 'z' || '0' <= c <= '9'
  }

  /** Python's \s and str.strip on ASCII. */
  predicate IsSpace(c: char) {
    c == ' ' || 9 <= c as int <= 13 || 28 <= c as int <= 31
  }

  /** s.replace(/[^keep]+/g, sep): each maximal run of other characters becomes one separator.
      `inRun`: the character before is part of a run that has its separator already. */
  function Collapse(s: string, keep: Test, sep: char, inRun: bool): string {
    if s == "" then ""
    else if keep(s[0]) then [s[0]] + Collapse(s[1..], keep, sep, false)
    else (if inRun then "" else [sep]) + Collapse(s[1..], keep, sep, true)
  }

  function TrimStart(s: string, c: char): string {
    if s != "" && s[0] == c then TrimStart(s[1..], c) else s
  }

  function TrimEnd(s: string, c: char): string {
    if s != "" && s[|s| - 1] == c then TrimEnd(s[..|s| - 1], c) else s
  }

  /** onboard-property.ts, seed-property-geo.ts: .replace(/^-+|-+$/g, "") */
  function Slugify(name: string): string {
    TrimEnd(TrimStart(Collapse(ToLower(name), IsAlnum, '-', false), '-'), '-')
  }

  /** seed.ts: .replace(/(^-|-$)/g, "") */
  function SlugifySeed(name: string): string {
    var s := Collapse(ToLower(name), IsAlnum, '-', false);
    var t := if s != "" && s[0] == '-' then s[1..] else s;
    if t != "" && t[|t| - 1] == '-' then t[..|t| - 1] else t
  }

  /** trim(BOTH '-' FROM regexp_replace(LOWER(name), '[^a-z0-9]+', '-', 'g')) */
  function SlugSql(name: string): string {
    TrimStart(TrimEnd(Collapse(ToLower(name), IsAlnum, '-', false), '-'), '-')
  }

  function Replaced(s: string, from: Test, into: char): string {
    seq(|s|, i requires 0 <= i < |s| => if from(s[i]) then into else s[i])
  }

  /** Everything but letters, digits and white space becomes a space, runs of white space one space,
      and the ends are stripped. */
  function NormName(name: string): string {
    var spaced := Replaced(ToLower(name), c => !IsAlnum(c) && !IsSpace(c), ' ');
    TrimEnd(TrimStart(Collapse(spaced, c => !IsSpace(c), ' ', false), ' '), ' ')
  }

  /** retriever.py: _norm_name(name).replace(" ", "-"), before the fallback for an empty result. */
  function SlugRetriever(name: string): string {
    Replaced(NormName(name), c => c == ' ', '-')
  }

  // --- The specification: the words of the name, joined by dashes ---

  function RunLength(s: string, keep: Test): (n: nat)
    ensures n <= |s|
    ensures forall k | 0 <= k < n :: keep(s[k])
    ensures n < |s| ==> !keep(s[n])
  {
    if s == "" || !keep(s[0]) then 0 else 1 + RunLength(s[1..], keep)
  }

  /** The maximal runs of kept characters. */
  function Words(s: string, keep: Test): (ws: seq<string>)
    decreases |s|
  {
    if s == "" then []
    else if !keep(s[0]) then Words(s[1..], keep)
    else
      var n := RunLength(s, keep);
      [s[..n]] + Words(s[n..], keep)
  }

  function Slug(name: string): string {
    Join(Words(ToLower(name), IsAlnum), ['-'])
  }

  ghost predicate AreWords(ws: seq<string>, keep: Test) {
    forall w | w in ws :: w != "" && forall k | 0 <= k < |w| :: keep(w[k])
  }

  lemma {:induction false} WordsAreWords(s: string, keep: Test)
    ensures AreWords(Words(s, keep), keep)
    decreases |s|
  {
    if s != "" {
      if !keep(s[0]) {
        WordsAreWords(s[1..], keep);
      } else {
        WordsAreWords(s[RunLength(s, keep)..], keep);
      }
    }
  }

  // --- Collapsing leaves the joined words, with a separator at an end that has one ---

  function Lead(s: string, keep: Test, sep: char, inRun: bool): string {
    if s != "" && !keep(s[0]) && !inRun then [sep] else ""
  }

  function Trail(s: string, keep: Test, sep: char): string {
    if s != "" && !keep(s[|s| - 1]) && Words(s, keep) != [] then [sep] else ""
  }

  lemma {:induction false} CollapseRun(s: string, keep: Test, sep: char, n: nat)
    requires n <= |s| && forall k | 0 <= k < n :: keep(s[k])
    ensures Collapse(s, keep, sep, false) == s[..n] + Collapse(s[n..], keep, sep, false)
  {
    if n > 0 {
      CollapseRun(s[1..], keep, sep, n - 1);
      assert s[1..][n - 1..] == s[n..] && s[..n] == [s[0]] + s[1..][..n - 1];
    }
  }

  lemma {:induction false} NoWords(s: string, keep: Test)
    ensures Words(s, keep) == [] ==> forall k | 0 <= k < |s| :: !keep(s[k])
    decreases |s|
  {
    if s != "" && !keep(s[0]) {
      NoWords(s[1..], keep);
      assert forall k | 0 < k < |s| :: s[k] == s[1..][k - 1];
    }
  }

  lemma JoinFirst(w: string, words: seq<string>, sep: char)
    ensures Join([w] + words, [sep]) == if words == [] then w else w + [sep] + Join(words, [sep])
  {
    assert ([w] + words)[1..] == words;
  }

  /** Collapsing leaves the joined words, with a separator at an end that has one. */
  lemma {:induction false} CollapseShape(s: string, keep: Test, sep: char, inRun: bool)
    ensures Collapse(s, keep, sep, inRun) == Lead(s, keep, sep, inRun) + Join(Words(s, keep), [sep]) + Trail(s, keep, sep)
    decreases |s|
  {
    hide Collapse, Join, Words, Trail, Lead, RunLength;
    if s == "" {
      EmptyShape(keep, sep, inRun);
    } else if !keep(s[0]) {
      CollapseShape(s[1..], keep, sep, true);
      ShapeAfterSkip(s, keep, sep, inRun);
    } else {
      var n := RunLength(s, keep);
      CollapseShape(s[n..], keep, sep, false);
      ShapeAfterRun(s, keep, sep, n, inRun);
    }
  }

  lemma EmptyShape(keep: Test, sep: char, inRun: bool)
    ensures Collapse("", keep, sep, inRun) == Lead("", keep, sep, inRun) + Join(Words("", keep), [sep]) + Trail("", keep, sep)
  {
  }

  lemma ShapeAfterSkip(s: string, keep: Test, sep: char, inRun: bool)
    requires s != "" && !keep(s[0])
    requires Collapse(s[1..], keep, sep, true) ==
             Lead(s[1..], keep, sep, true) + Join(Words(s[1..], keep), [sep]) + Trail(s[1..], keep, sep)
    ensures Collapse(s, keep, sep, inRun) == Lead(s, keep, sep, inRun) + Join(Words(s, keep), [sep]) + Trail(s, keep, sep)
  {
    assert Words(s, keep) == Words(s[1..], keep) && Trail(s, keep, sep) == Trail(s[1..], keep, sep);
    SkipStep(s, keep, sep, inRun);
    hide Collapse, Join, Words, Trail, Lead;
    DropEmpty(Lead(s, keep, sep, inRun), Join(Words(s[1..], keep), [sep]), Trail(s[1..], keep, sep));
  }

  lemma SkipStep(s: string, keep: Test, sep: char, inRun: bool)
    requires s != "" && !keep(s[0])
    ensures Collapse(s, keep, sep, inRun) == Lead(s, keep, sep, inRun) + Collapse(s[1..], keep, sep, true)
    ensures Lead(s[1..], keep, sep, true) == ""
  {
  }

  lemma DropEmpty(a: string, b: string, c: string)
    ensures a + ("" + b + c) == a + b + c
  {
  }

  lemma ShapeAfterRun(s: string, keep: Test, sep: char, n: nat, inRun: bool)
    requires s != "" && keep(s[0]) && n == RunLength(s, keep)
    requires Collapse(s[n..], keep, sep, false) ==
             Lead(s[n..], keep, sep, false) + Join(Words(s[n..], keep), [sep]) + Trail(s[n..], keep, sep)
    ensures Collapse(s, keep, sep, inRun) == Lead(s, keep, sep, inRun) + Join(Words(s, keep), [sep]) + Trail(s, keep, sep)
  {
    hide *;
    var run, tail := s[..n], s[n..];
    CollapseRun(s, keep, sep, n);
    RunStep(s, keep, sep, n, inRun);
    TrailAfterRun(s, keep, sep, n);
    if tail == "" || Words(tail, keep) == [] {
      DropEmpty(run, "", Trail(s, keep, sep));
    } else {
      AppendJoint(run, [sep], Join(Words(tail, keep), [sep]), Trail(tail, keep, sep));
    }
  }

  lemma AppendJoint(run: string, lead: string, joined: string, trail: string)
    ensures run + (lead + joined + trail) == "" + (run + lead + joined) + trail
  {
  }

  lemma RunStep(s: string, keep: Test, sep: char, n: nat, inRun: bool)
    requires s != "" && keep(s[0]) && n == RunLength(s, keep)
    ensures Collapse(s, keep, sep, inRun) == Collapse(s, keep, sep, false) && Lead(s, keep, sep, inRun) == ""
    ensures Lead(s[n..], keep, sep, false) == if s[n..] == "" then "" else [sep]
    ensures var words := Words(s[n..], keep);
            && (s[n..] == "" ==> words == [])
            && Join(words, [sep]) == (if words == [] then "" else Join(words, [sep]))
            && Join(Words(s, keep), [sep]) == if words == [] then s[..n] else s[..n] + [sep] + Join(words, [sep])
  {
    assert Words(s, keep) == [s[..n]] + Words(s[n..], keep);
    JoinFirst(s[..n], Words(s[n..], keep), sep);
  }

  lemma TrailAfterRun(s: string, keep: Test, sep: char, n: nat)
    requires s != "" && keep(s[0]) && n == RunLength(s, keep)
    ensures Trail(s, keep, sep) == if Words(s[n..], keep) != [] || s[n..] == "" then Trail(s[n..], keep, sep) else [sep]
    ensures Words(s[n..], keep) == [] ==> Trail(s[n..], keep, sep) == ""
  {
    NoWords(s[n..], keep);
    assert s[n..] != "" ==> s[n..][|s[n..]| - 1] == s[|s| - 1];
  }

  // --- All derivations give the slug ---

  /** A joined list of words neither starts nor ends with the separator. */
  lemma {:induction false} JoinEnds(words: seq<string>, keep: Test, sep: char)
    requires AreWords(words, keep) && words != []
    ensures Join(words, [sep]) != "" && keep(Join(words, [sep])[0]) && keep(Join(words, [sep])[|Join(words, [sep])| - 1])
  {
    assert words[0] in words;
    if |words| > 1 {
      assert forall w | w in words[1..] :: w in words;
      JoinEnds(words[1..], keep, sep);
    }
  }

  /** Trimming one separator or all of them, from either end first, leaves the joined words. */
  lemma TrimmedShape(s: string, keep: Test, sep: char)
    requires !keep(sep)
    ensures var c := Collapse(s, keep, sep, false);
            var once := if c != "" && c[0] == sep then c[1..] else c;
            && TrimEnd(TrimStart(c, sep), sep) == Join(Words(s, keep), [sep])
            && TrimStart(TrimEnd(c, sep), sep) == Join(Words(s, keep), [sep])
            && (if once != "" && once[|once| - 1] == sep then once[..|once| - 1] else once) == Join(Words(s, keep), [sep])
  {
    var c, j := Collapse(s, keep, sep, false), Join(Words(s, keep), [sep]);
    CollapseShape(s, keep, sep, false);
    WordsAreWords(s, keep);
    var lead, trail := Lead(s, keep, sep, false), Trail(s, keep, sep);
    if Words(s, keep) == [] {
      assert c == lead;
      TrimSame(lead, sep);
    } else {
      JoinEnds(Words(s, keep), keep, sep);
      hide Collapse, Join, Words;
      TrimPadded(lead, j, trail, sep);
    }
  }

  lemma TrimSame(lead: string, sep: char)
    requires lead == "" || lead == [sep]
    ensures TrimStart(lead, sep) == "" == TrimEnd(lead, sep)
  {
  }

  lemma TrimPadded(lead: string, j: string, trail: string, sep: char)
    requires (lead == "" || lead == [sep]) && (trail == "" || trail == [sep])
    requires j != "" && j[0] != sep && j[|j| - 1] != sep
    ensures TrimEnd(TrimStart(lead + j + trail, sep), sep) == j == TrimStart(TrimEnd(lead + j + trail, sep), sep)
  {
    hide TrimStart, TrimEnd;
    assert lead + j + trail == lead + (j + trail);
    TrimLead(lead, j + trail, sep);
    TrimTrail(j, trail, sep);
    TrimTrail(lead + j, trail, sep);
    TrimLead(lead, j, sep);
  }

  lemma TrimLead(lead: string, j: string, sep: char)
    requires (lead == "" || lead == [sep]) && j != "" && j[0] != sep
    ensures TrimStart(lead + j, sep) == j
  {
    if lead == "" {
      assert lead + j == j;
    } else {
      assert (lead + j)[1..] == j;
    }
  }

  lemma TrimTrail(j: string, trail: string, sep: char)
    requires (trail == "" || trail == [sep]) && j != "" && j[|j| - 1] != sep
    ensures TrimEnd(j + trail, sep) == j
  {
    if trail == "" {
      assert j + trail == j;
    } else {
      assert (j + trail)[..|j|] == j;
    }
  }

  /** Collapsing looks only at which characters are kept. */
  lemma {:induction false} CollapseSame(s: string, t: string, keep: Test, keep': Test, sep: char, inRun: bool)
    requires |s| == |t| && forall k | 0 <= k < |s| :: keep(s[k]) == keep'(t[k]) && (keep(s[k]) ==> s[k] == t[k])
    ensures Collapse(s, keep, sep, inRun) == Collapse(t, keep', sep, inRun)
  {
    if s != "" {
      CollapseSame(s[1..], t[1..], keep, keep', sep, !keep(s[0]));
    }
  }

  /** The form that trims every dash, the one that trims one dash at each end and the SQL form all
      give the lower-case words of the name joined by dashes. */
  lemma SlugsAgree(name: string)
    ensures Slugify(name) == SlugifySeed(name) == SlugSql(name) == Slug(name)
  {
    TrimmedShape(ToLower(name), IsAlnum, '-');
  }

  lemma SpacedSame(s: string)
    ensures var spaced := Replaced(s, c => !IsAlnum(c) && !IsSpace(c), ' ');
            Collapse(spaced, c => !IsSpace(c), ' ', false) == Collapse(s, IsAlnum, ' ', false)
  {
    var spaced := Replaced(s, c => !IsAlnum(c) && !IsSpace(c), ' ');
    CollapseSame(s, spaced, IsAlnum, c => !IsSpace(c), ' ', false);
  }

  /** Joining with one separator and replacing it is joining with the other. */
  lemma {:induction false} JoinReplaced(words: seq<string>, keep: Test, sep: char, into: char)
    requires AreWords(words, keep) && !keep(sep)
    ensures Replaced(Join(words, [sep]), c => c == sep, into) == Join(words, [into])
  {
    if words != [] {
      assert words[0] in words;
      ReplacedKept(words[0], keep, sep, into);
      if |words| > 1 {
        assert forall w | w in words[1..] :: w in words;
        JoinReplaced(words[1..], keep, sep, into);
        ReplacedJoint(words[0], Join(words[1..], [sep]), sep, into);
      }
    }
  }

  lemma ReplacedKept(w: string, keep: Test, sep: char, into: char)
    requires !keep(sep) && forall k | 0 <= k < |w| :: keep(w[k])
    ensures Replaced(w, c => c == sep, into) == w
  {
  }

  lemma ReplacedJoint(w: string, rest: string, sep: char, into: char)
    ensures Replaced(w + [sep] + rest, c => c == sep, into) ==
            Replaced(w, c => c == sep, into) + [into] + Replaced(rest, c => c == sep, into)
  {
  }

  /** The retriever's normalise-then-replace form gives the same slug. */
  lemma RetrieverAgrees(name: string)
    ensures NormName(name) == Join(Words(ToLower(name), IsAlnum), [' '])
    ensures SlugRetriever(name) == Slug(name)
  {
    SpacedSame(ToLower(name));
    TrimmedShape(ToLower(name), IsAlnum, ' ');
    WordsAreWords(ToLower(name), IsAlnum);
    JoinReplaced(Words(ToLower(name), IsAlnum), IsAlnum, ' ', '-');
  }

  // --- What a slug looks like ---

  ghost predicate SlugShape(s: string) {
    && (forall k | 0 <= k < |s| :: IsAlnum(s[k]) || s[k] == '-')
    && (s != "" ==> s[0] != '-' && s[|s| - 1] != '-')
    && (forall k | 0 <= k < |s| - 1 :: s[k] != '-' || s[k + 1] != '-')
  }

  lemma {:induction false} JoinShape(words: seq<string>)
    requires AreWords(words, IsAlnum)
    ensures SlugShape(Join(words, ['-']))
  {
    if words != [] {
      var w := words[0];
      assert w in words;
      if |words| > 1 {
        assert forall w | w in words[1..] :: w in words;
        JoinShape(words[1..]);
        JoinEnds(words[1..], IsAlnum, '-');
        ShapeJoint(w, Join(words[1..], ['-']));
      }
    }
  }

  lemma ShapeJoint(w: string, rest: string)
    requires w != "" && (forall k | 0 <= k < |w| :: IsAlnum(w[k])) && rest != "" && SlugShape(rest)
    ensures SlugShape(w + ['-'] + rest)
  {
    var s := w + ['-'] + rest;
    forall k | |w| < k < |s| ensures s[k] == rest[k - |w| - 1] {
    }
  }

  /** The words of joined words are those words. */
  lemma {:induction false} WordsOfJoin(words: seq<string>, keep: Test, sep: char)
    requires AreWords(words, keep) && !keep(sep)
    ensures Words(Join(words, [sep]), keep) == words
  {
    hide *;
    if words == [] {
      NothingJoined(keep, sep);
    } else {
      var w, rest := words[0], words[1..];
      FirstWord(words, keep);
      WordsOfJoin(rest, keep, sep);
      JoinFirst(w, rest, sep);
      assert [w] + rest == words;
      if rest == [] {
        WordsAfterWord(w, "", keep, "");
        NothingJoined(keep, sep);
        assert w + "" == w;
      } else {
        var joined := Join(rest, [sep]);
        var tail := [sep] + joined;
        assert w + tail == w + [sep] + joined && tail[1..] == joined;
        WordsAfterWord(w, tail, keep, joined);
      }
    }
  }

  lemma NothingJoined(keep: Test, sep: char)
    ensures Join([], [sep]) == "" && Words("", keep) == []
  {
  }

  lemma FirstWord(words: seq<string>, keep: Test)
    requires AreWords(words, keep) && words != []
    ensures words[0] != "" && (forall k | 0 <= k < |words[0]| :: keep(words[0][k])) && AreWords(words[1..], keep)
  {
    assert words[0] in words && forall v | v in words[1..] :: v in words;
  }

  lemma WordsAfterWord(w: string, tail: string, keep: Test, rest: string)
    requires w != "" && (forall k | 0 <= k < |w| :: keep(w[k]))
    requires (tail == "" == rest) || (tail != "" && !keep(tail[0]) && tail[1..] == rest)
    ensures Words(w + tail, keep) == [w] + Words(rest, keep)
  {
    RunOfWord(w, tail, keep);
    assert (w + tail)[..|w|] == w && (w + tail)[|w|..] == tail;
  }

  lemma {:induction false} RunOfWord(w: string, tail: string, keep: Test)
    requires (forall k | 0 <= k < |w| :: keep(w[k])) && (tail == "" || !keep(tail[0]))
    ensures RunLength(w + tail, keep) == |w|
  {
    if w == "" {
      assert w + tail == tail;
    } else {
      RunOfWord(w[1..], tail, keep);
      assert (w + tail)[1..] == w[1..] + tail;
    }
  }

  /** The characters of a slug's words. */
  lemma AlnumTable(c: char)
    ensures IsAlnum(c) <==> c in "abcdefghijklmnopqrstuvwxyz0123456789"
  {
    var table := "abcdefghijklmnopqrstuvwxyz0123456789";
    assert forall k | 0 <= k < 36 :: table[k] as int == if k < 26 then 97 + k else 22 + k;
    if IsAlnum(c) {
      assert table[if c as int >= 97 then c as int - 97 else c as int - 22] == c;
    }
  }

  /** A slug has no leading, trailing or doubled dash, and is its own slug. */
  lemma SlugTwice(name: string)
    ensures SlugShape(Slug(name)) && Slug(Slug(name)) == Slug(name)
  {
    var words := Words(ToLower(name), IsAlnum);
    WordsAreWords(ToLower(name), IsAlnum);
    JoinShape(words);
    WordsOfJoin(words, IsAlnum, '-');
    assert ToLower(Slug(name)) == Slug(name);
  }

  /** The normalised name and the slug each determine the words of the name. */
  lemma NormSlug(name: string)
    ensures Words(NormName(name), IsAlnum) == Words(ToLower(name), IsAlnum) == Words(Slug(name), IsAlnum)
    ensures NormName(name) == Join(Words(ToLower(name), IsAlnum), [' ']) && Slug(name) == Join(Words(ToLower(name), IsAlnum), ['-'])
  {
    var words := Words(ToLower(name), IsAlnum);
    RetrieverAgrees(name);
    WordsAreWords(ToLower(name), IsAlnum);
    WordsOfJoin(words, IsAlnum, ' ');
    WordsOfJoin(words, IsAlnum, '-');
  }
}
