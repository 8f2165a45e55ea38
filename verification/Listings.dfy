/** tools/housing-qa/retriever.py: the answers that list records. A missing text of a record or of a
    question reads as the empty one, as it does in the source. */
module Listings {
  import opened FoldedWords
  import opened Lists
  import opened Strings
  import Slugs

  datatype Listing = Listing(city: string, kind: string, amiTiers: seq<string>, unitTypes: seq<string>, availableNow: bool)

  /** The arguments of `filter_attributes`. */
  datatype Query = Query(kind: string, amiTier: string, availableNow: bool, bedrooms: string, city: string)

  /** `part in text` */
  predicate Contains(text: string, part: string) {
    exists i :: 0 <= i <= |text| && StartsAt(text, part, i)
  }

  predicate StartsAt(text: string, part: string, i: int) {
    0 <= i && i + |part| <= |text| && text[i..i + |part|] == part
  }

  /** `strip()` */
  function Strip(s: string): string
    decreases |s|
  {
    if s != "" && Slugs.IsSpace(s[0]) then Strip(s[1..])
    else if s != "" && Slugs.IsSpace(s[|s| - 1]) then Strip(s[..|s| - 1])
    else s
  }

  /** A tier without its percent signs. */
  function TierName(tier: string): string {
    Strip(Filter(tier, c => c != '%'))
  }

  // --- What a listed record has to meet ---

  ghost predicate Within(part: string, text: string) {
    exists a, b :: text == a + part + b
  }

  ghost function WordsOf(name: string): string {
    Join(Slugs.Words(ToLower(name), Slugs.IsAlnum), " ")
  }

  ghost predicate BlankAt(s: string, k: int) {
    0 <= k < |s| && (s[k] == ' ' || 9 <= s[k] as int <= 13 || 28 <= s[k] as int <= 31)
  }

  ghost predicate CoreAt(text: string, core: string, i: int, j: int) {
    && 0 <= i <= j <= |text| && core == text[i..j]
    && (forall k | 0 <= k < i || j <= k < |text| :: BlankAt(text, k))
    && (i < j ==> !BlankAt(text, i) && !BlankAt(text, j - 1))
  }

  /** `core` is the text without the blanks at its ends. */
  ghost predicate Core(text: string, core: string) {
    exists i, j :: CoreAt(text, core, i, j)
  }

  ghost predicate WithoutPercent(tier: string, rest: string) {
    rest == Filter(tier, c => c != '%')
  }

  /** The tiers are the same but for percent signs and the blanks around what remains. */
  ghost predicate SameTier(a: string, b: string) {
    exists x, y, core :: WithoutPercent(a, x) && WithoutPercent(b, y) && Core(x, core) && Core(y, core)
  }

  /** An empty argument asks for nothing. Cities are compared by their slugs, kinds by their words. */
  ghost predicate Fits(q: Query, r: Listing) {
    && (Slugs.Slug(q.city) == "" || Slugs.Slug(r.city) == Slugs.Slug(q.city))
    && (q.kind == "" || Within(WordsOf(q.kind), WordsOf(r.kind)))
    && (q.amiTier == "" || exists k :: 0 <= k < |r.amiTiers| && SameTier(r.amiTiers[k], q.amiTier))
    && (q.availableNow ==> r.availableNow)
    && (q.bedrooms == "" || Within(ToLower(q.bedrooms), ToLower(Join(r.unitTypes, " "))))
  }

  lemma ContainsExactly(text: string, part: string)
    ensures Contains(text, part) <==> Within(part, text)
  {
    if i :| 0 <= i <= |text| && StartsAt(text, part, i) {
      assert text == text[..i] + part + text[i + |part|..];
    }
    if a, b :| text == a + part + b {
      assert StartsAt(text, part, |a|);
    }
  }

  lemma {:induction false} StripCore(s: string)
    ensures Core(s, Strip(s))
    decreases |s|
  {
    if s != "" && Slugs.IsSpace(s[0]) {
      StripCore(s[1..]);
      var i, j :| CoreAt(s[1..], Strip(s[1..]), i, j);
      BlankBefore(s, Strip(s), i, j);
    } else if s != "" && Slugs.IsSpace(s[|s| - 1]) {
      StripCore(s[..|s| - 1]);
      var i, j :| CoreAt(s[..|s| - 1], Strip(s[..|s| - 1]), i, j);
      BlankBehind(s, Strip(s), i, j);
    } else {
      assert CoreAt(s, s, 0, |s|);
    }
  }

  lemma BlankBefore(s: string, core: string, i: int, j: int)
    requires s != "" && BlankAt(s, 0) && CoreAt(s[1..], core, i, j)
    ensures CoreAt(s, core, i + 1, j + 1)
  {
    assert forall k | 0 <= k < |s| - 1 :: BlankAt(s[1..], k) <==> BlankAt(s, k + 1);
    assert s[1..][i..j] == s[i + 1..j + 1];
    forall k | 0 <= k < i + 1 || j + 1 <= k < |s| ensures BlankAt(s, k) {
      assert k > 0 ==> BlankAt(s[1..], k - 1);
    }
  }

  lemma BlankBehind(s: string, core: string, i: int, j: int)
    requires s != "" && BlankAt(s, |s| - 1) && CoreAt(s[..|s| - 1], core, i, j)
    ensures CoreAt(s, core, i, j)
  {
    var front := s[..|s| - 1];
    assert forall k | 0 <= k < |front| :: BlankAt(front, k) <==> BlankAt(s, k);
    assert front[i..j] == s[i..j];
  }

  /** There is only one core. */
  lemma CoreUnique(text: string, x: string, y: string)
    requires Core(text, x) && Core(text, y)
    ensures x == y
  {
    var i, j :| CoreAt(text, x, i, j);
    var k, l :| CoreAt(text, y, k, l);
    hide BlankAt;
    if i < j || k < l {
      assert i < j ==> !BlankAt(text, i) && !BlankAt(text, j - 1);
      assert k < l ==> !BlankAt(text, k) && !BlankAt(text, l - 1);
    }
  }

  lemma TierExactly(a: string, b: string)
    ensures TierName(a) == TierName(b) <==> SameTier(a, b)
  {
    var x, y := Filter(a, c => c != '%'), Filter(b, c => c != '%');
    assert WithoutPercent(a, x) && WithoutPercent(b, y);
    assert forall u :: WithoutPercent(a, u) ==> u == x;
    assert forall u :: WithoutPercent(b, u) ==> u == y;
    StripCore(x);
    StripCore(y);
    hide Core, Strip, Filter, WithoutPercent;
    if u, v, core :| WithoutPercent(a, u) && WithoutPercent(b, v) && Core(u, core) && Core(v, core) {
      CoreUnique(x, core, Strip(x));
      CoreUnique(y, core, Strip(y));
    }
  }

  /** What a city test compares. */
  lemma CityExactly(q: string, r: string)
    ensures Slugs.NormName(q) == "" || Slugs.NormName(r) == Slugs.NormName(q) <==> Slugs.Slug(q) == "" || Slugs.Slug(r) == Slugs.Slug(q)
  {
    hide *;
    CitiesAsSlugs(q, r);
    CitiesAsSlugs(q, "");
    EmptyName();
  }

  lemma EmptyName()
    ensures Slugs.NormName("") == "" && Slugs.Slug("") == ""
  {
  }

  lemma KindExactly(kind: string)
    ensures Slugs.NormName(kind) == WordsOf(kind)
  {
    hide *;
    Slugs.RetrieverAgrees(kind);
    WordsOfIs(kind);
  }

  lemma WordsOfIs(name: string)
    ensures WordsOf(name) == Join(Slugs.Words(ToLower(name), Slugs.IsAlnum), " ")
    ensures " " == [' ']
  {
  }

  // --- The loop ---

  /** The loop with its five tests lists exactly the records that meet them, in order. */
  method FilterAttributes(records: seq<Listing>, q: Query) returns (out: seq<Listing>)
    ensures out == Filtered(records, q)
    ensures forall r :: r in out <==> r in records && Fits(q, r)
  {
    hide *;
    out := [];
    assert records[..0] == [];
    NothingFiltered(q);
    var cnorm := Slugs.NormName(q.city);
    for k := 0 to |records|
      invariant out == Filtered(records[..k], q)
    {
      var r := records[k];
      assert records[..k + 1] == records[..k] + [r];
      FilteredNext(records[..k], r, q);
      FitsExactly(q, r);
      if cnorm != "" && Slugs.NormName(r.city) != cnorm { continue; }
      if q.kind != "" && !Contains(Slugs.NormName(r.kind), Slugs.NormName(q.kind)) { continue; }
      if q.amiTier != "" && TierName(q.amiTier) !in Map(TierName, r.amiTiers) { continue; }
      if q.availableNow && !r.availableNow { continue; }
      if q.bedrooms != "" && !Contains(ToLower(Join(r.unitTypes, " ")), ToLower(q.bedrooms)) { continue; }
      out := out + [r];
    }
    assert records[..|records|] == records;
    forall r ensures r in out <==> r in records && Fits(q, r) {
      FilteredMeans(records, q, r);
    }
  }

  /** The records that fit, in order. */
  ghost function Filtered(records: seq<Listing>, q: Query): seq<Listing> {
    if records == [] then []
    else
      var r := records[|records| - 1];
      Filtered(records[..|records| - 1], q) + (if Fits(q, r) then [r] else [])
  }

  lemma NothingFiltered(q: Query)
    ensures Filtered([], q) == []
  {
  }

  lemma FilteredNext(records: seq<Listing>, r: Listing, q: Query)
    ensures Filtered(records + [r], q) == Filtered(records, q) + (if Fits(q, r) then [r] else [])
  {
    hide Fits;
    assert (records + [r])[..|records|] == records;
  }

  lemma {:induction false} FilteredMeans(records: seq<Listing>, q: Query, r: Listing)
    ensures r in Filtered(records, q) <==> r in records && Fits(q, r)
  {
    hide Fits;
    if records != [] {
      FilteredMeans(records[..|records| - 1], q, r);
      assert records == records[..|records| - 1] + [records[|records| - 1]];
    }
  }

  /** The source's tests, one by one. */
  lemma FitsExactly(q: Query, r: Listing)
    ensures Fits(q, r) <==>
              && (Slugs.NormName(q.city) == "" || Slugs.NormName(r.city) == Slugs.NormName(q.city))
              && (q.kind == "" || Contains(Slugs.NormName(r.kind), Slugs.NormName(q.kind)))
              && (q.amiTier == "" || TierName(q.amiTier) in Map(TierName, r.amiTiers))
              && (q.availableNow ==> r.availableNow)
              && (q.bedrooms == "" || Contains(ToLower(Join(r.unitTypes, " ")), ToLower(q.bedrooms)))
  {
    CityExactly(q.city, r.city);
    KindExactly(q.kind);
    KindExactly(r.kind);
    ContainsExactly(Slugs.NormName(r.kind), Slugs.NormName(q.kind));
    ContainsExactly(ToLower(Join(r.unitTypes, " ")), ToLower(q.bedrooms));
    hide Slugs.NormName, Slugs.Slug, Contains, Within, WordsOf, ToLower, Join, TierName, SameTier;
    forall k | 0 <= k < |r.amiTiers| ensures TierName(r.amiTiers[k]) == TierName(q.amiTier) <==> SameTier(r.amiTiers[k], q.amiTier) {
      TierExactly(r.amiTiers[k], q.amiTier);
    }
    var names := Map(TierName, r.amiTiers);
    assert forall k | 0 <= k < |names| :: names[k] == TierName(r.amiTiers[k]);
  }

  /** Two cities are the same city exactly if their slugs are the same. */
  lemma CitiesAsSlugs(a: string, b: string)
    ensures Slugs.NormName(a) == Slugs.NormName(b) <==> Slugs.Slug(a) == Slugs.Slug(b)
  {
    hide *;
    Slugs.NormSlug(a);
    Slugs.NormSlug(b);
  }

  // --- Sorting and capping ---

  const K_COMPACT := 8

  /** A stable sort by `0 if available now else 1`, and the first eight. */
  function Shown<T>(recs: seq<T>, available: T -> bool): seq<T> {
    var sorted := Filter(recs, available) + Filter(recs, r => !available(r));
    sorted[..if |sorted| > K_COMPACT then K_COMPACT else |sorted|]
  }

  lemma Partition<T>(recs: seq<T>, available: T -> bool)
    ensures multiset(Filter(recs, available) + Filter(recs, r => !available(r))) == multiset(recs)
  {
    hide Filter;
    FilterParts(recs, available, r => !available(r));
  }

  /** At most eight of the matches are shown, all of them if there are no more, and a match that is
      available now is left out only if all that are shown are available now. */
  lemma AvailableShownFirst<T>(recs: seq<T>, available: T -> bool)
    ensures |Shown(recs, available)| == if |recs| > 8 then 8 else |recs|
    ensures forall r | r in Shown(recs, available) :: r in recs
    ensures |recs| <= 8 ==> multiset(Shown(recs, available)) == multiset(recs)
    ensures forall r, s | r in recs && available(r) && r !in Shown(recs, available) && s in Shown(recs, available) :: available(s)
  {
    var first, second := Filter(recs, available), Filter(recs, r => !available(r));
    Partition(recs, available);
    hide Filter;
    SameLength(first + second, recs);
    forall r, s | r in recs && available(r) && r !in Shown(recs, available) && s in Shown(recs, available) ensures available(s) {
      assert r in multiset(first + second);
      InTake(first, second, |Shown(recs, available)|, r, s);
    }
    forall r | r in Shown(recs, available) ensures r in recs {
      assert r in first || r in second;
    }
    if |recs| <= K_COMPACT {
      assert Shown(recs, available) == first + second;
    }
  }

  lemma SameLength<T>(a: seq<T>, b: seq<T>)
    requires multiset(a) == multiset(b)
    ensures |a| == |b|
  {
    assert |multiset(a)| == |a| && |multiset(b)| == |b|;
  }

  /** If an element of the first part is cut off, all that is kept is of the first part. */
  lemma InTake<T>(first: seq<T>, second: seq<T>, m: nat, r: T, s: T)
    requires m <= |first + second| && s in (first + second)[..m] && r !in (first + second)[..m]
    ensures r in first ==> s in first
  {
    if |first| <= m {
      assert forall k | 0 <= k < |first| :: (first + second)[..m][k] == first[k];
    } else {
      assert (first + second)[..m] == first[..m];
    }
  }
}
