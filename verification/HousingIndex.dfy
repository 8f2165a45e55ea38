/** tools/housing-qa/retriever.py: merging the GPMG feed into the statewide records. The match function is
    a parameter: it sees where the records come from, which settles their names and cities, since overlays
    never change those. */
module HousingIndex {
  import opened Lists
  import opened Options

  /** The index of the statewide record, or of the GPMG record that was appended as its own. */
  datatype Origin = Statewide(k: nat) | Appended(g: nat)

  /** A record on values. `feed`: the GPMG record whose data it carries; a record is available now
      exactly if there is one. */
  datatype Entry = Entry(origin: Origin, feed: Option<nat>)

  datatype Index = Index(entries: seq<Entry>, overlaid: seq<nat>)

  type Match = (nat, seq<Origin>) -> Option<nat>

  ghost predicate PicksPresent(pick: Match) {
    forall g, origins :: pick(g, origins).Some? ==> pick(g, origins).value < |origins|
  }

  function Origins(entries: seq<Entry>): (os: seq<Origin>)
    ensures |os| == |entries|
  {
    Map((e: Entry) => e.origin, entries)
  }

  function Merge(index: Index, g: nat, target: Option<nat>): Index
    requires target.Some? ==> target.value < |index.entries|
  {
    if target.Some? && target.value !in index.overlaid then
      var t := target.value;
      Index(index.entries[t := index.entries[t].(feed := Some(g))], index.overlaid + [t])
    else index.(entries := index.entries + [Entry(Appended(g), Some(g))])
  }

  /** The index after the first `g` GPMG records. */
  ghost function Built(statewide: nat, pick: Match, g: nat): Index
    requires PicksPresent(pick)
  {
    if g == 0 then Index(seq(statewide, k requires 0 <= k < statewide => Entry(Statewide(k), None)), [])
    else
      var index := Built(statewide, pick, g - 1);
      Merge(index, g - 1, pick(g - 1, Origins(index.entries)))
  }

  // --- In place ---

  datatype Status = StatewideOnly | AvailableNow

  /** A dictionary of the index. */
  class Record {
    const origin: Origin
    var status: Status
    var feed: Option<nat>

    constructor (origin: Origin, status: Status, feed: Option<nat>)
      ensures this.origin == origin && this.status == status && this.feed == feed
    {
      this.origin, this.status, this.feed := origin, status, feed;
    }

    ghost predicate Shows(e: Entry)
      reads this
    {
      origin == e.origin && feed == e.feed && (status == AvailableNow <==> feed.Some?)
    }

    /** _enrich_with_gpmg */
    method Enrich(g: nat)
      modifies this
      ensures status == AvailableNow && feed == Some(g)
    {
      status, feed := AvailableNow, Some(g);
    }
  }

  /** The records are different objects and show the entries. */
  ghost predicate Represents(records: seq<Record>, entries: seq<Entry>)
    reads records
  {
    && |records| == |entries|
    && (forall i, j | 0 <= i < |records| && 0 <= j < |records| && records[i] == records[j] :: i == j)
    && (forall k | 0 <= k < |records| :: records[k].Shows(entries[k]))
  }

  /** `matchedIds` holds the identities of the overlaid records. */
  ghost predicate MatchedAre(matchedIds: set<Record>, records: seq<Record>, overlaid: seq<nat>) {
    && (forall t | t in overlaid :: t < |records| && records[t] in matchedIds)
    && (forall k | 0 <= k < |records| && records[k] in matchedIds :: k in overlaid)
    && (forall r | r in matchedIds :: r in records)
  }

  method LoadStatewide(statewide: nat, pick: Match) returns (records: seq<Record>)
    requires PicksPresent(pick)
    ensures Represents(records, Built(statewide, pick, 0).entries) && Built(statewide, pick, 0).overlaid == []
    ensures forall r | r in records :: fresh(r)
  {
    records := [];
    for k := 0 to statewide
      invariant fresh(records)
      invariant Represents(records, seq(k, i requires 0 <= i < k => Entry(Statewide(i), None)))
    {
      var r := new Record(Statewide(k), StatewideOnly, None);
      records := records + [r];
    }
  }

  method BuildIndex(statewide: nat, gpmg: nat, pick: Match) returns (records: seq<Record>)
    requires PicksPresent(pick)
    ensures Represents(records, Built(statewide, pick, gpmg).entries)
    ensures forall r | r in records :: fresh(r)
  {
    hide Built, Represents, Origins, PicksPresent;
    records := LoadStatewide(statewide, pick);
    var matchedIds: set<Record> := {};
    assert MatchedAre(matchedIds, records, []);
    hide MatchedAre;
    for g := 0 to gpmg
      invariant forall r | r in records :: fresh(r)
      invariant Represents(records, Built(statewide, pick, g).entries)
      invariant MatchedAre(matchedIds, records, Built(statewide, pick, g).overlaid)
    {
      ghost var index := Built(statewide, pick, g);
      var origins := OriginsOf(records);
      SameOrigins(records, index.entries, origins);
      var target := pick(g, origins);
      BuiltNext(statewide, pick, g);
      records, matchedIds := MergeOne(records, matchedIds, g, target, index);
    }
  }

  method OriginsOf(records: seq<Record>) returns (origins: seq<Origin>)
    ensures |origins| == |records| && forall k | 0 <= k < |records| :: origins[k] == records[k].origin
  {
    origins := Map((r: Record) => r.origin, records);
  }

  lemma SameOrigins(records: seq<Record>, entries: seq<Entry>, origins: seq<Origin>)
    requires Represents(records, entries)
    requires |origins| == |records| && forall k | 0 <= k < |records| :: origins[k] == records[k].origin
    ensures origins == Origins(entries) && |records| == |entries|
  {
  }

  /** One turn of the loop over the feed. */
  method MergeOne(records: seq<Record>, matchedIds: set<Record>, g: nat, target: Option<nat>, ghost index: Index)
    returns (merged: seq<Record>, matched: set<Record>)
    requires Represents(records, index.entries) && MatchedAre(matchedIds, records, index.overlaid)
    requires target.Some? ==> target.value < |index.entries|
    modifies set r | r in records
    ensures Represents(merged, Merge(index, g, target).entries) && MatchedAre(matched, merged, Merge(index, g, target).overlaid)
    ensures forall r | r in merged :: r in records || fresh(r)
  {
    if target.Some? && records[target.value] !in matchedIds {
      records[target.value].Enrich(g);
      merged, matched := records, matchedIds + {records[target.value]};
    } else {
      var r := new Record(Appended(g), AvailableNow, Some(g));
      merged, matched := records + [r], matchedIds;
    }
  }

  lemma BuiltNext(statewide: nat, pick: Match, g: nat)
    requires PicksPresent(pick)
    ensures var index := Built(statewide, pick, g);
            var target := pick(g, Origins(index.entries));
            && (target.Some? ==> target.value < |index.entries|)
            && Built(statewide, pick, g + 1) == Merge(index, g, target)
  {
  }

  // --- What the merge conserves ---

  /** Every GPMG record is overlaid or appended; statewide records keep their place at the front; each
      record is overlaid at most once, and is available now if it was overlaid or appended. */
  lemma {:induction false} Conserved(statewide: nat, pick: Match, g: nat)
    requires PicksPresent(pick)
    ensures var index := Built(statewide, pick, g);
            && |index.entries| + |index.overlaid| == statewide + g && |index.entries| >= statewide
            && Distinct(index.overlaid)
            && (forall t | t in index.overlaid :: t < |index.entries|)
            && (forall k | 0 <= k < |index.entries| ::
                  && (k < statewide ==> index.entries[k].origin == Statewide(k))
                  && (k >= statewide ==> index.entries[k].origin.Appended?))
            && FedAre(index, statewide)
  {
    if g > 0 {
      Conserved(statewide, pick, g - 1);
    }
  }

  function AvailableNowCount(entries: seq<Entry>): nat {
    if entries == [] then 0
    else AvailableNowCount(entries[..|entries| - 1]) + (if entries[|entries| - 1].feed.Some? then 1 else 0)
  }

  /** How many of the overlays hit a record that had been appended. */
  function OverwrittenCount(overlaid: seq<nat>, statewide: nat): nat {
    if overlaid == [] then 0
    else OverwrittenCount(overlaid[..|overlaid| - 1], statewide) + (if overlaid[|overlaid| - 1] >= statewide then 1 else 0)
  }

  lemma {:induction false} CountUpdate(entries: seq<Entry>, t: nat, e: Entry)
    requires t < |entries| && e.feed.Some?
    ensures AvailableNowCount(entries[t := e]) == AvailableNowCount(entries) + (if entries[t].feed.Some? then 0 else 1)
  {
    var n := |entries| - 1;
    if t < n {
      CountUpdate(entries[..n], t, e);
      assert entries[t := e][..n] == entries[..n][t := e];
    } else {
      assert entries[t := e][..n] == entries[..n];
    }
  }

  ghost predicate FedAre(index: Index, statewide: nat) {
    forall k | 0 <= k < |index.entries| :: index.entries[k].feed.Some? <==> k >= statewide || k in index.overlaid
  }

  lemma FedExactly(statewide: nat, pick: Match, g: nat)
    requires PicksPresent(pick)
    ensures FedAre(Built(statewide, pick, g), statewide)
  {
    Conserved(statewide, pick, g);
  }

  /** The records shown as available are the GPMG records less those whose place was taken. */
  lemma {:induction false} AvailableCounted(statewide: nat, pick: Match, g: nat)
    requires PicksPresent(pick)
    ensures AvailableNowCount(Built(statewide, pick, g).entries) + OverwrittenCount(Built(statewide, pick, g).overlaid, statewide) == g
  {
    hide *;
    if g == 0 {
      NoneAvailableAtStart(statewide, pick);
    } else {
      AvailableCounted(statewide, pick, g - 1);
      FedExactly(statewide, pick, g - 1);
      BuiltNext(statewide, pick, g - 1);
      var index := Built(statewide, pick, g - 1);
      var target := pick(g - 1, Origins(index.entries));
      MergeCounted(index, statewide, g - 1, target);
    }
  }

  lemma NoneAvailableAtStart(statewide: nat, pick: Match)
    requires PicksPresent(pick)
    ensures AvailableNowCount(Built(statewide, pick, 0).entries) == 0 == OverwrittenCount(Built(statewide, pick, 0).overlaid, statewide)
  {
    NoneAvailable(Built(statewide, pick, 0).entries);
  }

  lemma MergeCounted(index: Index, statewide: nat, g: nat, target: Option<nat>)
    requires target.Some? ==> target.value < |index.entries|
    requires FedAre(index, statewide)
    ensures AvailableNowCount(Merge(index, g, target).entries) + OverwrittenCount(Merge(index, g, target).overlaid, statewide)
         == AvailableNowCount(index.entries) + OverwrittenCount(index.overlaid, statewide) + 1
  {
    if target.Some? && target.value !in index.overlaid {
      var t := target.value;
      CountUpdate(index.entries, t, index.entries[t].(feed := Some(g)));
      assert (index.overlaid + [t])[..|index.overlaid|] == index.overlaid;
    } else {
      var e := Entry(Appended(g), Some(g));
      assert (index.entries + [e])[..|index.entries|] == index.entries;
    }
  }

  lemma {:induction false} NoneAvailable(entries: seq<Entry>)
    requires forall k | 0 <= k < |entries| :: entries[k].feed == None
    ensures AvailableNowCount(entries) == 0
  {
    if entries != [] {
      NoneAvailable(entries[..|entries| - 1]);
    }
  }

  ghost predicate Carried(index: Index, g: nat) {
    exists k :: 0 <= k < |index.entries| && index.entries[k].feed == Some(g)
  }

  /** A later GPMG record was overlaid on the record that had been appended for `g`. */
  ghost predicate Overwritten(index: Index, g: nat) {
    exists k :: 0 <= k < |index.entries| && k in index.overlaid && index.entries[k].origin == Appended(g)
  }

  /** Feeds are below `g` and differ, and a record that was not overlaid carries its own. */
  ghost predicate WellFed(index: Index, g: nat) {
    && (forall t | t in index.overlaid :: t < |index.entries|)
    && (forall i, j | 0 <= i < |index.entries| && 0 <= j < |index.entries| && index.entries[i].feed.Some?
                      && index.entries[i].feed == index.entries[j].feed :: i == j)
    && (forall k | 0 <= k < |index.entries| ::
          && (index.entries[k].feed.Some? ==> index.entries[k].feed.value < g)
          && (index.entries[k].origin.Appended? ==> index.entries[k].origin.g < g)
          && (k !in index.overlaid ==> index.entries[k].feed == OwnFeed(index.entries[k].origin)))
  }

  function OwnFeed(origin: Origin): Option<nat> {
    if origin.Appended? then Some(origin.g) else None
  }

  lemma MergeFeeds(index: Index, g: nat, target: Option<nat>)
    requires WellFed(index, g) && (target.Some? ==> target.value < |index.entries|)
    ensures WellFed(Merge(index, g, target), g + 1)
  {
  }

  lemma {:induction false} FeedsDiffer(statewide: nat, pick: Match, g: nat)
    requires PicksPresent(pick)
    ensures WellFed(Built(statewide, pick, g), g)
  {
    if g > 0 {
      hide WellFed, Merge;
      FeedsDiffer(statewide, pick, g - 1);
      var index := Built(statewide, pick, g - 1);
      MergeFeeds(index, g - 1, pick(g - 1, Origins(index.entries)));
    }
  }

  /** Where the record comes from that the match function picks for GPMG record `g`. */
  ghost function PickedOrigin(statewide: nat, pick: Match, g: nat): Option<Origin>
    requires PicksPresent(pick)
  {
    var origins := Origins(Built(statewide, pick, g).entries);
    var target := pick(g, origins);
    if target.Some? then Some(origins[target.value]) else None
  }

  ghost predicate PickedAt(statewide: nat, pick: Match, g: nat, t: nat)
    requires PicksPresent(pick)
  {
    pick(g, Origins(Built(statewide, pick, g).entries)) == Some(t)
  }

  /** For one of the records before `gpmg` the function picks the record appended for `g`. */
  ghost predicate Taken(statewide: nat, pick: Match, gpmg: nat, g: nat)
    requires PicksPresent(pick)
  {
    exists later | 0 <= later < gpmg :: PickedOrigin(statewide, pick, later) == Some(Appended(g))
  }

  ghost predicate PickedBefore(statewide: nat, pick: Match, gpmg: nat, t: nat)
    requires PicksPresent(pick)
  {
    exists g | 0 <= g < gpmg :: PickedAt(statewide, pick, g, t)
  }

  /** The first pick of a record overlays it, and nothing else is overlaid. */
  lemma {:induction false} OverlaidIsPicked(statewide: nat, pick: Match, gpmg: nat, t: nat)
    requires PicksPresent(pick)
    ensures t in Built(statewide, pick, gpmg).overlaid <==> PickedBefore(statewide, pick, gpmg, t)
  {
    hide Origins;
    if gpmg > 0 {
      OverlaidIsPicked(statewide, pick, gpmg - 1, t);
      BuiltNext(statewide, pick, gpmg - 1);
      PickedNext(statewide, pick, gpmg - 1, t);
      hide Built, PickedBefore;
    }
  }

  lemma PickedNext(statewide: nat, pick: Match, g: nat, t: nat)
    requires PicksPresent(pick)
    ensures PickedBefore(statewide, pick, g + 1, t) <==> PickedBefore(statewide, pick, g, t) || PickedAt(statewide, pick, g, t)
  {
    hide PickedAt;
    if PickedBefore(statewide, pick, g, t) {
      var k :| 0 <= k < g && PickedAt(statewide, pick, k, t);
      assert k < g + 1;
    }
  }

  /** Records stay where they are, so what was picked can be read off the finished index. */
  lemma {:induction false} OriginsStay(statewide: nat, pick: Match, g: nat, gpmg: nat)
    requires PicksPresent(pick) && g <= gpmg
    ensures Origins(Built(statewide, pick, g).entries) <= Origins(Built(statewide, pick, gpmg).entries)
  {
    hide *;
    if g < gpmg {
      OriginsStay(statewide, pick, g, gpmg - 1);
      BuiltNext(statewide, pick, gpmg - 1);
      var index := Built(statewide, pick, gpmg - 1);
      MergeOrigins(index, gpmg - 1, pick(gpmg - 1, Origins(index.entries)));
    }
  }

  lemma MergeOrigins(index: Index, g: nat, target: Option<nat>)
    requires target.Some? ==> target.value < |index.entries|
    ensures Origins(index.entries) <= Origins(Merge(index, g, target).entries)
  {
  }

  lemma PickedOriginAt(statewide: nat, pick: Match, g: nat, gpmg: nat, t: nat)
    requires PicksPresent(pick) && g < gpmg && PickedAt(statewide, pick, g, t)
    ensures var entries := Built(statewide, pick, gpmg).entries;
            t < |entries| && PickedOrigin(statewide, pick, g) == Some(entries[t].origin)
  {
    OriginsStay(statewide, pick, g, gpmg);
    hide Built;
  }

  lemma OverwrittenIsTaken(statewide: nat, pick: Match, gpmg: nat, g: nat)
    requires PicksPresent(pick)
    ensures Overwritten(Built(statewide, pick, gpmg), g) <==> Taken(statewide, pick, gpmg, g)
  {
    hide Built, Origins, PickedAt;
    var index := Built(statewide, pick, gpmg);
    if Overwritten(index, g) {
      var k :| 0 <= k < |index.entries| && k in index.overlaid && index.entries[k].origin == Appended(g);
      OverlaidIsPicked(statewide, pick, gpmg, k);
      var later :| 0 <= later < gpmg && PickedAt(statewide, pick, later, k);
      PickedOriginAt(statewide, pick, later, gpmg, k);
    }
    if Taken(statewide, pick, gpmg, g) {
      var later :| 0 <= later < gpmg && PickedOrigin(statewide, pick, later) == Some(Appended(g));
      var t := PickedPosition(statewide, pick, later);
      PickedOriginAt(statewide, pick, later, gpmg, t);
      OverlaidIsPicked(statewide, pick, gpmg, t);
    }
  }

  lemma PickedPosition(statewide: nat, pick: Match, g: nat) returns (t: nat)
    requires PicksPresent(pick) && PickedOrigin(statewide, pick, g).Some?
    ensures PickedAt(statewide, pick, g, t)
  {
    t := pick(g, Origins(Built(statewide, pick, g).entries)).value;
  }

  /** The data of a GPMG record is in the index unless the match function picks the record appended
      for it when a later one comes: then it is gone. */
  lemma CarriedExactly(statewide: nat, pick: Match, gpmg: nat, g: nat)
    requires PicksPresent(pick) && g < gpmg
    ensures Carried(Built(statewide, pick, gpmg), g) <==> !Taken(statewide, pick, gpmg, g)
  {
    CarriedUnlessOverwritten(statewide, pick, gpmg, g);
    OverwrittenIsTaken(statewide, pick, gpmg, g);
  }

  lemma {:induction false} CarriedUnlessOverwritten(statewide: nat, pick: Match, gpmg: nat, g: nat)
    requires PicksPresent(pick) && g < gpmg
    ensures Carried(Built(statewide, pick, gpmg), g) <==> !Overwritten(Built(statewide, pick, gpmg), g)
  {
    hide WellFed, Carried, Overwritten, Merge;
    var before := Built(statewide, pick, gpmg - 1);
    var target := pick(gpmg - 1, Origins(before.entries));
    FeedsDiffer(statewide, pick, gpmg - 1);
    if g < gpmg - 1 {
      CarriedUnlessOverwritten(statewide, pick, gpmg - 1, g);
      CarriedLater(before, gpmg - 1, target, g);
    } else {
      NewCarried(before, g, target);
    }
  }

  lemma NewCarried(before: Index, g: nat, target: Option<nat>)
    requires WellFed(before, g) && (target.Some? ==> target.value < |before.entries|)
    ensures Carried(Merge(before, g, target), g) && !Overwritten(Merge(before, g, target), g)
  {
    var index := Merge(before, g, target);
    var k := if target.Some? && target.value !in before.overlaid then target.value else |before.entries|;
    assert index.entries[k].feed == Some(g);
  }

  lemma CarriedLater(before: Index, last: nat, target: Option<nat>, g: nat)
    requires WellFed(before, last) && g < last && (target.Some? ==> target.value < |before.entries|)
    requires Carried(before, g) <==> !Overwritten(before, g)
    ensures Carried(Merge(before, last, target), g) <==> !Overwritten(Merge(before, last, target), g)
  {
    var index := Merge(before, last, target);
    var overlay := target.Some? && target.value !in before.overlaid;
    if Overwritten(before, g) {
      var k :| 0 <= k < |before.entries| && k in before.overlaid && before.entries[k].origin == Appended(g);
      assert k in index.overlaid && index.entries[k].origin == Appended(g);
      assert overlay ==> before.entries[target.value].feed != Some(g);
    } else {
      var k :| 0 <= k < |before.entries| && before.entries[k].feed == Some(g);
      if overlay && k == target.value {
        assert k in index.overlaid && index.entries[k].origin == Appended(g);
      } else {
        assert index.entries[k].feed == Some(g);
        assert overlay ==> before.entries[target.value].origin != Appended(g);
      }
    }
  }

  /** As many records are available as the feed has, exactly if the match function never picks an
      appended record. */
  lemma CountExactly(statewide: nat, pick: Match, gpmg: nat)
    requires PicksPresent(pick)
    ensures AvailableNowCount(Built(statewide, pick, gpmg).entries) == gpmg <==>
              forall g | 0 <= g < gpmg :: !PicksAppended(statewide, pick, g)
  {
    AvailableCounted(statewide, pick, gpmg);
    NoneOverwritten(Built(statewide, pick, gpmg).overlaid, statewide);
    BelowIsStatewide(statewide, pick, gpmg);
  }

  ghost predicate PicksAppended(statewide: nat, pick: Match, g: nat)
    requires PicksPresent(pick)
  {
    var origin := PickedOrigin(statewide, pick, g);
    origin.Some? && origin.value.Appended?
  }

  lemma BelowIsStatewide(statewide: nat, pick: Match, gpmg: nat)
    requires PicksPresent(pick)
    ensures AllBelow(Built(statewide, pick, gpmg).overlaid, statewide) <==>
              forall g | 0 <= g < gpmg :: !PicksAppended(statewide, pick, g)
  {
    hide Built, Origins, PickedAt, PickedOrigin;
    var index := Built(statewide, pick, gpmg);
    Conserved(statewide, pick, gpmg);
    forall k | 0 <= k < |index.overlaid| && index.overlaid[k] >= statewide
      ensures exists g :: 0 <= g < gpmg && PicksAppended(statewide, pick, g)
    {
      var t := index.overlaid[k];
      OverlaidIsPicked(statewide, pick, gpmg, t);
      var g :| 0 <= g < gpmg && PickedAt(statewide, pick, g, t);
      PickedOriginAt(statewide, pick, g, gpmg, t);
      assert PicksAppended(statewide, pick, g);
    }
    forall g | 0 <= g < gpmg && PicksAppended(statewide, pick, g)
      ensures !AllBelow(index.overlaid, statewide)
    {
      var t := PickedPosition(statewide, pick, g);
      PickedOriginAt(statewide, pick, g, gpmg, t);
      OverlaidIsPicked(statewide, pick, gpmg, t);
      assert t in index.overlaid && t >= statewide;
    }
  }

  ghost predicate AllBelow(ts: seq<nat>, bound: nat) {
    forall k | 0 <= k < |ts| :: ts[k] < bound
  }

  lemma {:induction false} NoneOverwritten(overlaid: seq<nat>, statewide: nat)
    ensures OverwrittenCount(overlaid, statewide) == 0 <==> AllBelow(overlaid, statewide)
  {
    if overlaid != [] {
      NoneOverwritten(overlaid[..|overlaid| - 1], statewide);
    }
  }

  /** A function that picks the first record whenever there is one: of a feed of two records without
      statewide ones, the second takes the place of the first. */
  lemma FeedLost(pick: Match)
    requires forall g, origins :: pick(g, origins) == if |origins| > 0 then Some(0) else None
    ensures PicksPresent(pick)
    ensures Built(0, pick, 2).entries == [Entry(Appended(0), Some(1))]
    ensures AvailableNowCount(Built(0, pick, 2).entries) == 1 && !Carried(Built(0, pick, 2), 0)
  {
    var one := Built(0, pick, 1);
    assert Built(0, pick, 0) == Index([], []);
    assert one == Index([Entry(Appended(0), Some(0))], []);
    assert Built(0, pick, 2) == Merge(one, 1, Some(0));
    assert Built(0, pick, 2).entries == [Entry(Appended(0), Some(1))];
    assert Built(0, pick, 2).entries[..0] == [];
  }
}
