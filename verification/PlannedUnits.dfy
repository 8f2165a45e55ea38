/** src/db/onboard-property.ts: each unit that `buildUnitPlan` plans, read off the input and the source's
    tables, and the method that plans them. */
module PlannedUnits {
  import opened Options
  import opened UnitPlan
  import Decimal
  import FoldedWords

  // --- The tables, written out ---

  /** The labels, in any case, and their numbers of bedrooms. */
  ghost predicate Labels(name: string, b: int) {
    var l := FoldedWords.ToLower(name);
    || (b == 0 && (l == "studio" || l == "0br"))
    || (b == 1 && l == "1br")
    || (b == 2 && l == "2br")
    || (b == 3 && l == "3br")
  }

  ghost predicate KnownLabel(name: string) {
    exists b: int :: Labels(name, b)
  }

  ghost predicate Furnished(b: int, bathrooms: real, sqft: int, anchor: int) {
    || (b == 0 && bathrooms == 1.0 && sqft == 450 && anchor == 747)
    || (b == 1 && bathrooms == 1.0 && sqft == 650 && anchor == 995)
    || (b == 2 && bathrooms == 1.5 && sqft == 900 && anchor == 1194)
    || (b == 3 && bathrooms == 2.0 && sqft == 1150 && anchor == 1380)
  }

  /** The text prints `n` with at least `width` digits, and with no more zeros in front than that takes. */
  ghost predicate Padded(text: string, width: nat, n: nat) {
    && Decimal.AllDigits(text) && Decimal.Value(text) == n
    && |text| >= width && (|text| > width ==> text[0] != '0')
  }

  /** S-001, A-101, B-201, C-301, ... */
  ghost predicate NumberIs(text: string, b: int, n: nat) {
    || (b == 0 && exists digits :: text == "S-" + digits && Padded(digits, 3, n))
    || (b == 1 && exists digits :: text == "A-1" + digits && Padded(digits, 2, n))
    || (b == 2 && exists digits :: text == "B-2" + digits && Padded(digits, 2, n))
    || (b == 3 && exists digits :: text == "C-3" + digits && Padded(digits, 2, n))
  }

  // --- The rent of a label ---

  ghost predicate Prefixed(key: string, name: string) {
    |key| > |name| && FoldedWords.ToLower(key)[..|name| + 1] == FoldedWords.ToLower(name) + "_"
  }

  ghost predicate FirstNamed(sched: seq<RentEntry>, name: string, i: int) {
    0 <= i < |sched| && sched[i].key == name && forall j | 0 <= j < i :: sched[j].key != name
  }

  ghost predicate FirstPrefixed(sched: seq<RentEntry>, name: string, i: int) {
    0 <= i < |sched| && Prefixed(sched[i].key, name) && forall j | 0 <= j < i :: !Prefixed(sched[j].key, name)
  }

  /** The entry of the label itself, else the first whose key continues the label with an underscore, in any
      case, else the anchor of the kind. */
  ghost predicate RentIs(sched: seq<RentEntry>, name: string, anchor: int, rent: int) {
    && (forall i | FirstNamed(sched, name, i) :: rent == sched[i].rent)
    && ((forall i :: !FirstNamed(sched, name, i)) ==>
          && (forall i | FirstPrefixed(sched, name, i) :: rent == sched[i].rent)
          && ((forall i :: !FirstPrefixed(sched, name, i)) ==> rent == anchor))
  }

  // --- The units of a label, and of a tier ---

  ghost predicate UnitFromMix(unit: PlannedUnit, entry: MixEntry, input: Input) {
    && Labels(entry.name, unit.bedrooms) && unit.ami == input.amiDesignation
    && exists anchor :: Furnished(unit.bedrooms, unit.bathrooms, unit.sqft, anchor)
                        && RentIs(input.rentSchedule, entry.name, anchor, unit.monthlyRent)
  }

  /** What stands before the first underscore of the key, and what follows it; without one the label lacks the
      last character of the key. */
  ghost predicate Splits(key: string, name: string, tier: string) {
    || (exists p :: 0 <= p < |key| && key[p] == '_' && '_' !in key[..p] && name == key[..p] && tier == key[p + 1..])
    || ('_' !in key && tier == key && name == if key == "" then "" else key[..|key| - 1])
  }

  ghost predicate UnitFromTier(unit: PlannedUnit, tier: Tier) {
    && unit.monthlyRent == tier.rent
    && (exists anchor :: Furnished(unit.bedrooms, unit.bathrooms, unit.sqft, anchor))
    && exists name, rest :: Splits(tier.key, name, rest) && Labels(name, unit.bedrooms)
                            && unit.ami == if FoldedWords.Holds("market", rest) then Some("market") else None
  }

  /** How many units the entries ask for: those of known labels, and none for a negative count. */
  ghost function MixCount(mix: seq<MixEntry>): nat {
    if mix == [] then 0
    else
      var e := mix[|mix| - 1];
      MixCount(mix[..|mix| - 1]) + (if KnownLabel(e.name) && e.units > 0 then e.units else 0)
  }

  ghost function TierCount(tiers: seq<Tier>): nat {
    if tiers == [] then 0
    else
      var t := tiers[|tiers| - 1];
      TierCount(tiers[..|tiers| - 1]) + (if t.units > 0 && KnownTier(t) then t.units else 0)
  }

  ghost predicate KnownTier(tier: Tier) {
    exists name, rest :: Splits(tier.key, name, rest) && KnownLabel(name)
  }

  /** Unit `i` of the plan carries the next number of its kind. */
  ghost predicate NumberedAt(plan: seq<PlannedUnit>, i: nat)
    requires i < |plan|
  {
    NumberIs(plan[i].unitNumber, plan[i].bedrooms, CountBed(plan[..i], plan[i].bedrooms) + 1)
  }

  ghost predicate FromEntry(input: Input, unit: PlannedUnit, i: nat, k: nat) {
    k < |input.mix| && MixCount(input.mix[..k]) <= i < MixCount(input.mix[..k + 1]) && UnitFromMix(unit, input.mix[k], input)
  }

  ghost predicate FromTier(input: Input, unit: PlannedUnit, i: nat, k: nat) {
    && k < |input.breakdown| && TierCount(input.breakdown[..k]) <= i < TierCount(input.breakdown[..k + 1])
    && UnitFromTier(unit, input.breakdown[k])
  }

  ghost predicate Belongs(input: Input, unit: PlannedUnit, i: nat) {
    if input.breakdown == [] then exists k :: FromEntry(input, unit, i, k) else exists k :: FromTier(input, unit, i, k)
  }

  /** The whole plan: entry by entry or tier by tier, each unit with its own number. */
  ghost predicate Planned(input: Input, plan: seq<PlannedUnit>) {
    && |plan| == (if input.breakdown == [] then MixCount(input.mix) else TierCount(input.breakdown))
    && (forall i | 0 <= i < |plan| :: NumberedAt(plan, i) && Belongs(input, plan[i], i))
  }

  // --- The tables are those of the model ---

  lemma LabelsExactly(name: string)
    ensures KnownLabel(name) <==> LabelBedrooms(name).Some?
    ensures forall b: Bedrooms :: Labels(name, b) <==> LabelBedrooms(name) == Some(b)
  {
    hide FoldedWords.ToLower;
    if LabelBedrooms(name).Some? {
      assert Labels(name, LabelBedrooms(name).value);
    }
  }

  lemma FurnishedExactly(b: Bedrooms)
    ensures Furnished(b, BedroomMeta(b).bathrooms, BedroomMeta(b).sqft, BedroomMeta(b).anchorRent)
  {
  }

  lemma PaddedExactly(n: nat, width: nat)
    requires width > 0
    ensures Padded(Decimal.PadZero(Decimal.Print(n), width), width, n)
  {
    Decimal.PaddedValue(n, width);
    Decimal.PaddedLength(Decimal.Print(n), width);
    Decimal.NoLeadingZero(n);
    hide Decimal.PadZero, Decimal.Print;
  }

  lemma NumberExactly(b: Bedrooms, n: nat)
    ensures NumberIs(UnitNumber(b, n), b, n)
  {
    PaddedExactly(n, 2);
    PaddedExactly(n, 3);
    FloorPrinted();
    hide Decimal.PadZero, Padded;
    var two, three := Decimal.PadZero(Decimal.Print(n), 2), Decimal.PadZero(Decimal.Print(n), 3);
    assert b == 0 ==> UnitNumber(b, n) == "S-" + three;
    assert b == 1 ==> UnitNumber(b, n) == "A-1" + two;
    assert b == 2 ==> UnitNumber(b, n) == "B-2" + two;
    assert b == 3 ==> UnitNumber(b, n) == "C-3" + two;
  }

  lemma FloorPrinted()
    ensures Decimal.Print(1) == "1" && Decimal.Print(2) == "2" && Decimal.Print(3) == "3"
  {
  }

  lemma PrefixIs(key: string, name: string)
    ensures StartsWith(FoldedWords.ToLower(key), FoldedWords.ToLower(name) + "_") <==> Prefixed(key, name)
  {
  }

  lemma {:induction false} NamedExactly(sched: seq<RentEntry>, name: string)
    ensures RentOf(sched, name) == None ==> forall i | 0 <= i < |sched| :: sched[i].key != name
    ensures RentOf(sched, name).Some? ==> exists i :: FirstNamed(sched, name, i) && RentOf(sched, name) == Some(sched[i].rent)
  {
    if sched != [] {
      if sched[0].key == name {
        assert FirstNamed(sched, name, 0);
      } else {
        NamedExactly(sched[1..], name);
        assert forall i | 0 <= i < |sched| - 1 :: sched[1..][i] == sched[i + 1];
        if i :| FirstNamed(sched[1..], name, i) && RentOf(sched[1..], name) == Some(sched[1..][i].rent) {
          assert forall j | 0 < j < i + 1 :: sched[j] == sched[1..][j - 1];
          assert FirstNamed(sched, name, i + 1);
        }
      }
    }
  }

  lemma {:induction false} PrefixedExactly(sched: seq<RentEntry>, name: string)
    ensures var rent := RentWithPrefix(sched, FoldedWords.ToLower(name) + "_");
            && (rent == None ==> forall i | 0 <= i < |sched| :: !Prefixed(sched[i].key, name))
            && (rent.Some? ==> exists i :: FirstPrefixed(sched, name, i) && rent == Some(sched[i].rent))
  {
    hide Prefixed, StartsWith, FoldedWords.ToLower;
    if sched != [] {
      PrefixIs(sched[0].key, name);
      if Prefixed(sched[0].key, name) {
        assert FirstPrefixed(sched, name, 0);
      } else {
        PrefixedExactly(sched[1..], name);
        assert forall i | 0 <= i < |sched| - 1 :: sched[1..][i] == sched[i + 1];
        if i :| FirstPrefixed(sched[1..], name, i) && RentWithPrefix(sched[1..], FoldedWords.ToLower(name) + "_") == Some(sched[1..][i].rent) {
          assert forall j | 0 < j < i + 1 :: sched[j] == sched[1..][j - 1];
          assert FirstPrefixed(sched, name, i + 1);
        }
      }
    }
  }

  /** The rent of a label is the one the schedule gives it, or the anchor. */
  lemma RentExactly(name: string, b: Bedrooms, sched: seq<RentEntry>)
    ensures RentIs(sched, name, BedroomMeta(b).anchorRent, ResolveRent(name, b, sched))
  {
    NamedExactly(sched, name);
    PrefixedExactly(sched, name);
    hide RentOf, RentWithPrefix, Prefixed, FoldedWords.ToLower, BedroomMeta;
  }

  lemma FirstUnderscore(key: string)
    ensures var p := IndexOf(key, '_'); if p < 0 then '_' !in key else p < |key| && key[p] == '_' && '_' !in key[..p]
  {
    hide IndexOf;
  }

  lemma OnlyFirst(key: string, q: int)
    requires 0 <= q < |key| && key[q] == '_' && '_' !in key[..q]
    ensures q == IndexOf(key, '_')
  {
    assert forall k | 0 <= k < q :: key[..q][k] == key[k];
    hide IndexOf;
  }

  lemma SplitsExactly(key: string)
    ensures Splits(key, LabelOf(key), key[IndexOf(key, '_') + 1..])
    ensures forall name, tier | Splits(key, name, tier) :: name == LabelOf(key) && tier == key[IndexOf(key, '_') + 1..]
  {
    hide IndexOf;
    FirstUnderscore(key);
    var p := IndexOf(key, '_');
    assert key[0..] == key;
    forall name, tier | Splits(key, name, tier) ensures name == LabelOf(key) && tier == key[p + 1..] {
      if q :| 0 <= q < |key| && key[q] == '_' && '_' !in key[..q] && name == key[..q] && tier == key[q + 1..] {
        OnlyFirst(key, q);
      }
    }
  }

  /** A unit of a batch that a label of the mix gives. */
  lemma MixUnitIs(input: Input, k: nat, unit: PlannedUnit)
    requires k < |input.mix| && UnitOf(unit, MixBatches(input)[k])
    ensures UnitFromMix(unit, input.mix[k], input)
  {
    var e := input.mix[k];
    hide LabelBedrooms, ResolveRent, BedroomMeta, RentIs, Furnished, Labels;
    LabelsExactly(e.name);
    FurnishedExactly(unit.bedrooms);
    RentExactly(e.name, unit.bedrooms, input.rentSchedule);
  }

  lemma TierUnitIs(tier: Tier, unit: PlannedUnit)
    requires UnitOf(unit, Batch(LabelOf(tier.key), tier.units, tier.rent, TierAmi(tier.key)))
    ensures UnitFromTier(unit, tier)
  {
    SplitsExactly(tier.key);
    TierAmiExact(tier.key);
    LabelsExactly(LabelOf(tier.key));
    FurnishedExactly(unit.bedrooms);
    hide LabelBedrooms, BedroomMeta, Furnished, Labels, Splits, LabelOf, TierAmi, FoldedWords.Holds;
    assert Splits(tier.key, LabelOf(tier.key), tier.key[IndexOf(tier.key, '_') + 1..]);
  }

  lemma {:induction false} MixCountIs(input: Input, n: nat)
    requires n <= |input.mix|
    ensures MixCount(input.mix[..n]) == TotalSize(MixBatches(input)[..n])
  {
    hide LabelBedrooms, KnownLabel, ResolveRent;
    if n > 0 {
      MixCountIs(input, n - 1);
      LabelsExactly(input.mix[n - 1].name);
      assert input.mix[..n][..n - 1] == input.mix[..n - 1] && MixBatches(input)[..n][..n - 1] == MixBatches(input)[..n - 1];
    }
  }

  lemma KnownTierIs(tier: Tier)
    ensures KnownTier(tier) <==> LabelBedrooms(LabelOf(tier.key)).Some?
  {
    SplitsExactly(tier.key);
    LabelsExactly(LabelOf(tier.key));
    hide LabelBedrooms, KnownLabel, LabelOf, Splits;
    assert Splits(tier.key, LabelOf(tier.key), tier.key[IndexOf(tier.key, '_') + 1..]);
  }

  lemma {:induction false} TierCountIs(tiers: seq<Tier>, n: nat)
    requires n <= |tiers|
    ensures TierCount(tiers[..n]) == TotalSize(TierBatches(tiers)[..n])
  {
    hide LabelBedrooms, KnownTier, TierAmi, LabelOf;
    if n > 0 {
      TierCountIs(tiers, n - 1);
      KnownTierIs(tiers[n - 1]);
      assert tiers[..n][..n - 1] == tiers[..n - 1] && TierBatches(tiers)[..n][..n - 1] == TierBatches(tiers)[..n - 1];
    }
  }

  /** The batch that unit `i` belongs to. */
  lemma {:induction false} BatchAt(batches: seq<Batch>, i: nat) returns (k: nat)
    requires i < TotalSize(batches)
    ensures k < |batches| && TotalSize(batches[..k]) <= i < TotalSize(batches[..k + 1])
  {
    hide BatchSize;
    var n := |batches| - 1;
    assert batches[..n + 1] == batches;
    if i < TotalSize(batches[..n]) {
      k := BatchAt(batches[..n], i);
      assert batches[..n][..k] == batches[..k] && batches[..n][..k + 1] == batches[..k + 1];
    } else {
      k := n;
    }
  }

  /** Every plan is the one that the input's labels and tiers describe. */
  lemma PlanIsPlanned(input: Input)
    requires Plan(input).Some?
    ensures Planned(input, Plan(input).value)
  {
    var plan, batches := Plan(input).value, Batches(input);
    UnitNumbersUnique(input);
    PlanIs(input);
    hide *;
    PlanLength(batches);
    CountIs(input);
    forall i | 0 <= i < |plan| ensures NumberedAt(plan, i) && Belongs(input, plan[i], i) {
      NumberFollows(plan, i);
      var k := BatchAt(batches, i);
      BatchUnits(batches, k, i);
      BelongsTo(input, plan[i], i, k);
    }
    PlannedIs(input, plan);
  }

  lemma PlannedIs(input: Input, plan: seq<PlannedUnit>)
    requires |plan| == if input.breakdown == [] then MixCount(input.mix) else TierCount(input.breakdown)
    requires forall i | 0 <= i < |plan| :: NumberedAt(plan, i) && Belongs(input, plan[i], i)
    ensures Planned(input, plan)
  {
  }

  lemma PlanIs(input: Input)
    requires Plan(input).Some?
    ensures Plan(input).value == AddBatches([], Batches(input))
  {
  }

  lemma CountIs(input: Input)
    ensures TotalSize(Batches(input)) == if input.breakdown == [] then MixCount(input.mix) else TierCount(input.breakdown)
  {
    hide TotalSize, MixCount, TierCount, MixBatches, TierBatches;
    var n, m := |input.mix|, |input.breakdown|;
    MixCountIs(input, n);
    TierCountIs(input.breakdown, m);
    assert input.mix[..n] == input.mix && input.breakdown[..m] == input.breakdown;
    assert MixBatches(input)[..n] == MixBatches(input) && TierBatches(input.breakdown)[..m] == TierBatches(input.breakdown);
  }

  lemma NumberFollows(plan: seq<PlannedUnit>, i: nat)
    requires i < |plan| && Numbered(plan)
    ensures NumberedAt(plan, i)
  {
    var b := plan[i].bedrooms;
    assert plan[..i + 1][..i] == plan[..i] && plan[..i + 1][i] == plan[i];
    assert CountBed(plan[..i + 1], b) == CountBed(plan[..i], b) + 1;
    hide NumberIs, UnitNumber, CountBed;
    NumberExactly(b, CountBed(plan[..i], b) + 1);
  }

  lemma BelongsTo(input: Input, unit: PlannedUnit, i: nat, k: nat)
    requires k < |Batches(input)| && TotalSize(Batches(input)[..k]) <= i < TotalSize(Batches(input)[..k + 1])
    requires UnitOf(unit, Batches(input)[k])
    ensures Belongs(input, unit, i)
  {
    hide UnitOf, UnitFromMix, UnitFromTier, TotalSize, MixCount, TierCount, LabelOf, TierAmi, ResolveRent, LabelBedrooms;
    if input.breakdown == [] {
      MixCountIs(input, k);
      MixCountIs(input, k + 1);
      MixUnitIs(input, k, unit);
      assert FromEntry(input, unit, i, k);
    } else {
      TierCountIs(input.breakdown, k);
      TierCountIs(input.breakdown, k + 1);
      TierUnitIs(input.breakdown[k], unit);
      assert FromTier(input, unit, i, k);
    }
  }

  // --- The operation ---

  /** `buildUnitPlan`. None where the source throws, for a breakdown that does not add up to the mix. */
  method BuildUnitPlan(input: Input) returns (plan: Option<seq<PlannedUnit>>)
    ensures plan == Plan(input)
    ensures plan.Some? <==> input.breakdown == [] || Reconciled(input.mix, input.breakdown)
    ensures plan.Some? ==> Planned(input, plan.value)
  {
    hide AddBatches, Reconciled, TierBatches, MixBatches;
    if input.breakdown != [] {
      var reconciled := Reconcile(input.mix, input.breakdown);
      if !reconciled { return None; }
    }
    var batches := Batches(input);
    assert Plan(input) == Some(AddBatches([], batches));
    hide Batches, Plan, AddBatch;
    var planner := new Planner();
    NoBatches();
    for i := 0 to |batches|
      invariant planner.Valid() && fresh(planner)
      invariant planner.plan == AddBatches([], batches[..i])
    {
      assert batches[..i + 1] == batches[..i] + [batches[i]];
      AddNext(batches[..i], batches[i]);
      planner.Emit(batches[i]);
    }
    assert batches[..|batches|] == batches;
    plan := Some(planner.plan);
    PlanIsPlanned(input);
  }
}
