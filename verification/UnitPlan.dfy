/** src/db/onboard-property.ts: `buildUnitPlan` and the rail of `run` that feeds it. Counts and
    rents are whole numbers here. */
module UnitPlan {
  import opened Options
  import opened Lists
  import Decimal
  import FoldedWords
  import Regex

  // --- Tables ---

  datatype Meta = Meta(letter: char, floor: nat, bathrooms: real, sqft: nat, anchorRent: int)

  type Bedrooms = b: nat | b < 4

  function BedroomMeta(b: Bedrooms): Meta {
    match b
    case 0 => Meta('S', 1, 1.0, 450, 747)
    case 1 => Meta('A', 1, 1.0, 650, 995)
    case 2 => Meta('B', 2, 1.5, 900, 1194)
    case _ => Meta('C', 3, 2.0, 1150, 1380)
  }

  /** `LABEL_TO_BEDROOMS[label.toLowerCase()]` */
  function LabelBedrooms(name: string): Option<Bedrooms> {
    var l := FoldedWords.ToLower(name);
    if l == "studio" || l == "0br" then Some(0)
    else if l == "1br" then Some(1)
    else if l == "2br" then Some(2)
    else if l == "3br" then Some(3)
    else None
  }

  // --- Input ---

  datatype MixEntry = MixEntry(name: string, units: int)
  datatype Tier = Tier(key: string, units: int, rent: int)
  datatype RentEntry = RentEntry(key: string, rent: int)

  /** The objects of the input as their entries, in order. */
  datatype Input = Input(
    unitCount: int,
    mix: seq<MixEntry>,
    breakdown: seq<Tier>,
    rentSchedule: seq<RentEntry>,
    amiDesignation: Option<string>)

  function MixOf(mix: seq<MixEntry>, name: string): Option<int> {
    if mix == [] then None else if mix[0].name == name then Some(mix[0].units) else MixOf(mix[1..], name)
  }

  function IndexOf(s: string, c: char): (i: int)
    ensures -1 <= i < |s| && (i >= 0 ==> s[i] == c)
    ensures forall k | 0 <= k < (if i < 0 then |s| else i) :: s[k] != c
  {
    if s == "" then -1
    else if s[0] == c then 0
    else
      var i := IndexOf(s[1..], c);
      if i < 0 then -1 else i + 1
  }

  /** `key.slice(0, key.indexOf("_"))`: without an underscore the last character goes. */
  function LabelOf(key: string): string {
    var i := IndexOf(key, '_');
    if i >= 0 then key[..i] else if key == "" then "" else key[..|key| - 1]
  }

  function TierAmi(key: string): Option<string> {
    if Regex.Test(FoldedWords.Word("market"), key[IndexOf(key, '_') + 1..]) then Some("market") else None
  }

  /** The designation is "market" exactly if what follows the label says so, in any case. */
  lemma TierAmiExact(key: string)
    ensures TierAmi(key) == Some("market") <==> FoldedWords.Holds("market", key[IndexOf(key, '_') + 1..])
    ensures TierAmi(key) != Some("market") ==> TierAmi(key) == None
  {
    FoldedWords.WordTest("market", key[IndexOf(key, '_') + 1..]);
  }

  predicate StartsWith(s: string, prefix: string) {
    |prefix| <= |s| && s[..|prefix|] == prefix
  }

  function RentWithPrefix(sched: seq<RentEntry>, prefix: string): Option<int> {
    if sched == [] then None
    else if StartsWith(FoldedWords.ToLower(sched[0].key), prefix) then Some(sched[0].rent)
    else RentWithPrefix(sched[1..], prefix)
  }

  function RentOf(sched: seq<RentEntry>, key: string): Option<int> {
    if sched == [] then None else if sched[0].key == key then Some(sched[0].rent) else RentOf(sched[1..], key)
  }

  function ResolveRent(name: string, b: Bedrooms, sched: seq<RentEntry>): int {
    match RentOf(sched, name)
    case Some(rent) => rent
    case None =>
      match RentWithPrefix(sched, FoldedWords.ToLower(name) + "_")
      case Some(rent) => rent
      case None => BedroomMeta(b).anchorRent
  }

  // --- Unit numbers ---

  function UnitNumber(b: Bedrooms, n: nat): string {
    var m := BedroomMeta(b);
    if m.letter == 'S' then "S-" + Decimal.PadZero(Decimal.Print(n), 3)
    else [m.letter, '-'] + Decimal.Print(m.floor) + Decimal.PadZero(Decimal.Print(n), 2)
  }

  /** A unit number tells which unit of which kind it names. */
  lemma UnitNumberInjective(b: Bedrooms, m: nat, c: Bedrooms, n: nat)
    requires UnitNumber(b, m) == UnitNumber(c, n)
    ensures b == c && m == n
  {
    hide Decimal.PadZero, Decimal.Value;
    var s, t := UnitNumber(b, m), UnitNumber(c, n);
    assert s[0] == BedroomMeta(b).letter && t[0] == BedroomMeta(c).letter;
    var width := if b == 0 then 3 else 2;
    var x, y := Decimal.PadZero(Decimal.Print(m), width), Decimal.PadZero(Decimal.Print(n), width);
    var skip := if b == 0 then 2 else 3;
    assert |Decimal.Print(BedroomMeta(b).floor)| == 1;
    assert s[skip..] == x && t[skip..] == y;
    Decimal.PaddedValue(m, width);
    Decimal.PaddedValue(n, width);
  }

  // --- The plan ---

  datatype PlannedUnit = PlannedUnit(
    unitNumber: string, bedrooms: Bedrooms, bathrooms: real, sqft: nat, monthlyRent: int, ami: Option<string>)

  /** One call of the inner `emit`. */
  datatype Batch = Batch(name: string, units: int, rent: int, ami: Option<string>)

  function CountBed(plan: seq<PlannedUnit>, b: Bedrooms): nat {
    if plan == [] then 0
    else CountBed(plan[..|plan| - 1], b) + (if plan[|plan| - 1].bedrooms == b then 1 else 0)
  }

  /** A unit of the kind, numbered after those that the plan already holds. */
  function NextUnit(plan: seq<PlannedUnit>, b: Bedrooms, rent: int, ami: Option<string>): PlannedUnit {
    var m := BedroomMeta(b);
    PlannedUnit(UnitNumber(b, CountBed(plan, b) + 1), b, m.bathrooms, m.sqft, rent, ami)
  }

  function AddUnits(plan: seq<PlannedUnit>, b: Bedrooms, count: nat, rent: int, ami: Option<string>): seq<PlannedUnit> {
    if count == 0 then plan
    else
      var plan' := AddUnits(plan, b, count - 1, rent, ami);
      plan' + [NextUnit(plan', b, rent, ami)]
  }

  /** `for (let i = 0; i < units; i++)` runs that often. */
  function Times(units: int): nat {
    if units < 0 then 0 else units
  }

  function AddBatch(plan: seq<PlannedUnit>, batch: Batch): seq<PlannedUnit> {
    match LabelBedrooms(batch.name)
    case None => plan
    case Some(b) => AddUnits(plan, b, Times(batch.units), batch.rent, batch.ami)
  }

  function AddBatches(plan: seq<PlannedUnit>, batches: seq<Batch>): seq<PlannedUnit> {
    if batches == [] then plan else AddBatch(AddBatches(plan, batches[..|batches| - 1]), batches[|batches| - 1])
  }

  function TierBatches(tiers: seq<Tier>): (bs: seq<Batch>)
    ensures |bs| == |tiers|
  {
    seq(|tiers|, i requires 0 <= i < |tiers| =>
      Batch(LabelOf(tiers[i].key), tiers[i].units, tiers[i].rent, TierAmi(tiers[i].key)))
  }

  function MixBatches(input: Input): (bs: seq<Batch>)
    ensures |bs| == |input.mix|
  {
    seq(|input.mix|, i requires 0 <= i < |input.mix| =>
      var e := input.mix[i];
      var b := match LabelBedrooms(e.name) case Some(b) => b case None => 0;
      Batch(e.name, e.units, ResolveRent(e.name, b, input.rentSchedule), input.amiDesignation))
  }

  /** `perLabel[label]` */
  function SumFor(tiers: seq<Tier>, name: string): int {
    if tiers == [] then 0 else (if LabelOf(tiers[0].key) == name then tiers[0].units else 0) + SumFor(tiers[1..], name)
  }

  /** Every label that the breakdown names has its sum in the mix; a missing label reads -1. */
  predicate Reconciled(mix: seq<MixEntry>, tiers: seq<Tier>) {
    forall i | 0 <= i < |tiers| :: Agrees(mix, tiers, LabelOf(tiers[i].key))
  }

  predicate Agrees(mix: seq<MixEntry>, tiers: seq<Tier>, name: string) {
    SumFor(tiers, name) == match MixOf(mix, name) case Some(n) => n case None => -1
  }

  function Batches(input: Input): seq<Batch> {
    if input.breakdown != [] then TierBatches(input.breakdown) else MixBatches(input)
  }

  /** The plan, or None where the source throws. */
  function Plan(input: Input): Option<seq<PlannedUnit>> {
    if input.breakdown != [] && !Reconciled(input.mix, input.breakdown) then None
    else Some(AddBatches([], Batches(input)))
  }

  // --- The plan as the source builds it ---

  /** The captured variables of `buildUnitPlan`. */
  class Planner {
    var seqByLetter: map<char, nat>
    var plan: seq<PlannedUnit>

    ghost predicate Valid()
      reads this
    {
      forall b: Bedrooms :: (if BedroomMeta(b).letter in seqByLetter then seqByLetter[BedroomMeta(b).letter] else 0) == CountBed(plan, b)
    }

    constructor ()
      ensures Valid() && plan == []
    {
      seqByLetter := map[];
      plan := [];
    }

    /** The body of the loop in `emit`. */
    method EmitUnit(b: Bedrooms, rent: int, ami: Option<string>)
      requires Valid()
      modifies this
      ensures Valid() && plan == old(plan) + [NextUnit(old(plan), b, rent, ami)]
    {
      hide UnitNumber, CountBed;
      var meta := BedroomMeta(b);
      var n := (if meta.letter in seqByLetter then seqByLetter[meta.letter] else 0) + 1;
      seqByLetter := seqByLetter[meta.letter := n];
      var unit := PlannedUnit(UnitNumber(b, n), b, meta.bathrooms, meta.sqft, rent, ami);
      CountBedAppend(plan, unit);
      plan := plan + [unit];
    }

    method Emit(batch: Batch)
      requires Valid()
      modifies this
      ensures Valid() && plan == AddBatch(old(plan), batch)
    {
      hide Valid, LabelBedrooms, NextUnit, BedroomMeta;
      match LabelBedrooms(batch.name)
      case None =>
      case Some(b) =>
        ghost var before := plan;
        for i := 0 to Times(batch.units)
          invariant Valid() && plan == AddUnits(before, b, i, batch.rent, batch.ami)
        {
          EmitUnit(b, batch.rent, batch.ami);
        }
    }
  }

  lemma CountBedAppend(plan: seq<PlannedUnit>, unit: PlannedUnit)
    ensures forall b: Bedrooms :: CountBed(plan + [unit], b) == CountBed(plan, b) + (if unit.bedrooms == b then 1 else 0)
  {
    assert (plan + [unit])[..|plan|] == plan;
  }

  /** The same sum of a label, counted from the back. */
  lemma {:induction false} SumForSnoc(tiers: seq<Tier>, name: string)
    requires tiers != []
    ensures var n := |tiers| - 1;
            SumFor(tiers, name) == SumFor(tiers[..n], name) + (if LabelOf(tiers[n].key) == name then tiers[n].units else 0)
  {
    if |tiers| > 1 {
      SumForSnoc(tiers[1..], name);
      assert tiers[1..][..|tiers| - 2] == tiers[..|tiers| - 1][1..];
    }
  }

  /** The labels of the first tiers. */
  ghost predicate NamesAre(names: set<string>, tiers: seq<Tier>) {
    && (forall k | 0 <= k < |tiers| :: LabelOf(tiers[k].key) in names)
    && (forall name | name in names :: exists k :: 0 <= k < |tiers| && LabelOf(tiers[k].key) == name)
  }

  lemma NamesNext(names: set<string>, tiers: seq<Tier>, i: nat)
    requires i < |tiers| && NamesAre(names, tiers[..i])
    ensures NamesAre(names + {LabelOf(tiers[i].key)}, tiers[..i + 1])
  {
    hide LabelOf;
    var front, longer := tiers[..i], tiers[..i + 1];
    assert longer[i] == tiers[i] && forall k | 0 <= k < i :: longer[k] == front[k];
    forall name | name in names ensures exists k :: 0 <= k < |longer| && LabelOf(longer[k].key) == name {
      var k :| 0 <= k < |front| && LabelOf(front[k].key) == name;
      assert LabelOf(longer[k].key) == name;
    }
  }

  /** `perLabel`: the sum of the tiers of each label that occurs. */
  method SumTiers(tiers: seq<Tier>) returns (perLabel: map<string, int>)
    ensures NamesAre(perLabel.Keys, tiers)
    ensures forall name | name in perLabel :: perLabel[name] == SumFor(tiers, name)
  {
    hide LabelOf, NamesAre;
    perLabel := map[];
    NoNames();
    assert perLabel.Keys == {} && tiers[..0] == [];
    for i := 0 to |tiers|
      invariant NamesAre(perLabel.Keys, tiers[..i])
      invariant forall name | name in perLabel :: perLabel[name] == SumFor(tiers[..i], name)
      invariant forall name | name !in perLabel :: SumFor(tiers[..i], name) == 0
    {
      NamesNext(perLabel.Keys, tiers, i);
      var name := LabelOf(tiers[i].key);
      assert tiers[..i + 1][..i] == tiers[..i] && tiers[..i + 1][i] == tiers[i];
      forall other ensures SumFor(tiers[..i + 1], other) == SumFor(tiers[..i], other) + (if name == other then tiers[i].units else 0) {
        SumForSnoc(tiers[..i + 1], other);
      }
      ghost var names := perLabel.Keys;
      perLabel := perLabel[name := (if name in perLabel then perLabel[name] else 0) + tiers[i].units];
      assert perLabel.Keys == names + {name};
    }
    assert tiers[..|tiers|] == tiers;
  }

  lemma NoNames()
    ensures NamesAre({}, [])
  {
  }

  /** The two loops of the reconciliation; the order of the labels does not matter. */
  method Reconcile(mix: seq<MixEntry>, tiers: seq<Tier>) returns (ok: bool)
    ensures ok == Reconciled(mix, tiers)
  {
    hide LabelOf, MixOf, SumFor;
    var perLabel := SumTiers(tiers);
    var todo := perLabel.Keys;
    while todo != {}
      invariant todo <= perLabel.Keys
      invariant forall name | name in perLabel && name !in todo :: Agrees(mix, tiers, name)
      decreases |todo|
    {
      var name :| name in todo;
      if perLabel[name] != (match MixOf(mix, name) case Some(n) => n case None => -1) {
        assert !Agrees(mix, tiers, name);
        return false;
      }
      todo := todo - {name};
    }
    return true;
  }

  lemma NoBatches()
    ensures AddBatches([], []) == []
  {
  }

  lemma AddNext(front: seq<Batch>, last: Batch)
    ensures AddBatches([], front + [last]) == AddBatch(AddBatches([], front), last)
  {
    assert (front + [last])[..|front|] == front;
  }

  // --- Unit numbers are unique and without gaps ---

  /** The i-th unit of its kind carries the number i. */
  ghost predicate Numbered(plan: seq<PlannedUnit>) {
    forall i | 0 <= i < |plan| :: plan[i].unitNumber == UnitNumber(plan[i].bedrooms, CountBed(plan[..i + 1], plan[i].bedrooms))
  }

  lemma NumberedAppend(plan: seq<PlannedUnit>, b: Bedrooms, rent: int, ami: Option<string>)
    requires Numbered(plan)
    ensures Numbered(plan + [NextUnit(plan, b, rent, ami)])
  {
    hide UnitNumber, BedroomMeta, CountBed;
    var unit := NextUnit(plan, b, rent, ami);
    var longer := plan + [unit];
    CountBedAppend(plan, unit);
    forall i | 0 <= i < |longer|
      ensures longer[i].unitNumber == UnitNumber(longer[i].bedrooms, CountBed(longer[..i + 1], longer[i].bedrooms))
    {
      if i < |plan| { assert longer[..i + 1] == plan[..i + 1]; } else { assert longer[..i + 1] == longer; }
    }
  }

  lemma {:induction false} AddUnitsNumbered(plan: seq<PlannedUnit>, b: Bedrooms, count: nat, rent: int, ami: Option<string>)
    requires Numbered(plan)
    ensures Numbered(AddUnits(plan, b, count, rent, ami))
  {
    hide NextUnit, Numbered;
    if count > 0 {
      AddUnitsNumbered(plan, b, count - 1, rent, ami);
      NumberedAppend(AddUnits(plan, b, count - 1, rent, ami), b, rent, ami);
    }
  }

  lemma {:induction false} AddBatchesNumbered(batches: seq<Batch>)
    ensures Numbered(AddBatches([], batches))
  {
    if batches != [] {
      var front, last := batches[..|batches| - 1], batches[|batches| - 1];
      AddBatchesNumbered(front);
      match LabelBedrooms(last.name)
      case None =>
      case Some(b) => AddUnitsNumbered(AddBatches([], front), b, Times(last.units), last.rent, last.ami);
    }
  }

  lemma {:induction false} CountBedGrows(plan: seq<PlannedUnit>, i: nat, j: nat, b: Bedrooms)
    requires i < j < |plan| && plan[j].bedrooms == b
    ensures CountBed(plan[..i + 1], b) < CountBed(plan[..j + 1], b)
    decreases j - i
  {
    assert plan[..j + 1][..j] == plan[..j];
    CountBedMonotone(plan, i + 1, j, b);
  }

  lemma {:induction false} CountBedMonotone(plan: seq<PlannedUnit>, i: nat, j: nat, b: Bedrooms)
    requires i <= j <= |plan|
    ensures CountBed(plan[..i], b) <= CountBed(plan[..j], b)
    decreases j - i
  {
    if i < j {
      CountBedMonotone(plan, i, j - 1, b);
      assert plan[..j][..j - 1] == plan[..j - 1];
    }
  }

  /** No two planned units have the same number, across all tiers, labels and kinds; and within
      a kind the numbers run 1, 2, 3, ... in the order of the plan. */
  lemma UnitNumbersUnique(input: Input)
    requires Plan(input).Some?
    ensures var plan := Plan(input).value;
            Numbered(plan) && forall i, j | 0 <= i < j < |plan| :: plan[i].unitNumber != plan[j].unitNumber
  {
    var plan := Plan(input).value;
    AddBatchesNumbered(Batches(input));
    forall i, j | 0 <= i < j < |plan| ensures plan[i].unitNumber != plan[j].unitNumber {
      if plan[i].unitNumber == plan[j].unitNumber {
        var b := plan[j].bedrooms;
        UnitNumberInjective(plan[i].bedrooms, CountBed(plan[..i + 1], plan[i].bedrooms), b, CountBed(plan[..j + 1], b));
        CountBedGrows(plan, i, j, b);
      }
    }
  }

  // --- How many units are planned ---

  /** The units of one batch: none for an unknown label. */
  function BatchSize(batch: Batch): nat {
    if LabelBedrooms(batch.name).Some? then Times(batch.units) else 0
  }

  function TotalSize(batches: seq<Batch>): nat {
    if batches == [] then 0 else TotalSize(batches[..|batches| - 1]) + BatchSize(batches[|batches| - 1])
  }

  /** The units planned under one label. */
  function SizeFor(batches: seq<Batch>, name: string): nat {
    if batches == [] then 0
    else SizeFor(batches[..|batches| - 1], name) + (if batches[|batches| - 1].name == name then BatchSize(batches[|batches| - 1]) else 0)
  }

  lemma {:induction false} AddUnitsLength(plan: seq<PlannedUnit>, b: Bedrooms, count: nat, rent: int, ami: Option<string>)
    ensures |AddUnits(plan, b, count, rent, ami)| == |plan| + count
  {
    if count > 0 { AddUnitsLength(plan, b, count - 1, rent, ami); }
  }

  /** The plan holds what its batches ask for. */
  lemma {:induction false} PlanLength(batches: seq<Batch>)
    ensures |AddBatches([], batches)| == TotalSize(batches)
  {
    if batches != [] {
      var front, last := batches[..|batches| - 1], batches[|batches| - 1];
      PlanLength(front);
      match LabelBedrooms(last.name)
      case None =>
      case Some(b) => AddUnitsLength(AddBatches([], front), b, Times(last.units), last.rent, last.ami);
    }
  }

  /** The unit is one of the batch: its kind, its rent and its designation. */
  predicate UnitOf(unit: PlannedUnit, batch: Batch) {
    var b := LabelBedrooms(batch.name);
    && b == Some(unit.bedrooms) && unit.monthlyRent == batch.rent && unit.ami == batch.ami
    && unit.bathrooms == BedroomMeta(unit.bedrooms).bathrooms && unit.sqft == BedroomMeta(unit.bedrooms).sqft
  }

  lemma {:induction false} AddUnitsOf(plan: seq<PlannedUnit>, batch: Batch, b: Bedrooms, count: nat)
    requires LabelBedrooms(batch.name) == Some(b)
    ensures var longer := AddUnits(plan, b, count, batch.rent, batch.ami);
            && |longer| == |plan| + count && longer[..|plan|] == plan
            && forall i | |plan| <= i < |longer| :: UnitOf(longer[i], batch)
  {
    hide LabelBedrooms, UnitNumber, BedroomMeta, CountBed;
    if count > 0 {
      AddUnitsOf(plan, batch, b, count - 1);
    }
  }

  /** The plan goes batch by batch: the units of batch `k` follow those of the earlier ones, and each
      has the rent and the designation of its own tier. */
  lemma {:induction false} BatchUnits(batches: seq<Batch>, k: nat, i: nat)
    requires k < |batches| && TotalSize(batches[..k]) <= i < TotalSize(batches[..k + 1])
    ensures i < |AddBatches([], batches)| && UnitOf(AddBatches([], batches)[i], batches[k])
  {
    hide *;
    var n := |batches| - 1;
    var front, last := batches[..n], batches[n];
    assert front + [last] == batches && batches[..n + 1] == batches;
    PlanLength(front);
    BatchNext(front, last);
    if k < n {
      assert front[..k] == batches[..k] && front[..k + 1] == batches[..k + 1];
      BatchUnits(front, k, i);
    }
  }

  /** The last batch adds its units behind the others. */
  lemma BatchNext(front: seq<Batch>, last: Batch)
    ensures var plan, longer := AddBatches([], front), AddBatches([], front + [last]);
            && TotalSize(front + [last]) == TotalSize(front) + BatchSize(last)
            && |longer| == |plan| + BatchSize(last)
            && (forall i | 0 <= i < |plan| :: longer[i] == plan[i])
            && (forall i | |plan| <= i < |longer| :: UnitOf(longer[i], last))
  {
    hide LabelBedrooms, UnitOf, AddUnits;
    assert (front + [last])[..|front|] == front;
    var plan, longer := AddBatches([], front), AddBatches([], front + [last]);
    assert longer == AddBatch(plan, last);
    if LabelBedrooms(last.name).Some? {
      AddUnitsOf(plan, last, LabelBedrooms(last.name).value, Times(last.units));
      assert forall i | 0 <= i < |plan| :: longer[i] == longer[..|plan|][i];
    }
  }

  ghost predicate NoNegative(tiers: seq<Tier>, name: string) {
    forall i | 0 <= i < |tiers| && LabelOf(tiers[i].key) == name :: tiers[i].units >= 0
  }

  /** For a known label the planned units are the sum of its tiers exactly when no tier of the
      label has a negative count: a negative count is summed but plans nothing. */
  lemma {:induction false} SizeForLabel(tiers: seq<Tier>, name: string)
    requires LabelBedrooms(name).Some?
    ensures SizeFor(TierBatches(tiers), name) >= SumFor(tiers, name)
    ensures SizeFor(TierBatches(tiers), name) == SumFor(tiers, name) <==> NoNegative(tiers, name)
  {
    hide LabelBedrooms, TierAmi, LabelOf;
    if tiers != [] {
      var n := |tiers| - 1;
      SizeForLabel(tiers[..n], name);
      SumForSnoc(tiers, name);
      assert TierBatches(tiers)[..n] == TierBatches(tiers[..n]);
      assert forall i | 0 <= i < n :: tiers[..n][i] == tiers[i];
    }
  }

  /** A breakdown that passes the reconciliation plans exactly `unit_mix[label]` units for each
      known label it names, if and only if none of the label's tiers has a negative count. */
  lemma BreakdownMatchesMix(input: Input, i: nat)
    requires i < |input.breakdown| && Plan(input).Some? && LabelBedrooms(LabelOf(input.breakdown[i].key)).Some?
    ensures var name := LabelOf(input.breakdown[i].key);
            (MixOf(input.mix, name) == Some(SizeFor(Batches(input), name)) <==> NoNegative(input.breakdown, name))
  {
    hide LabelBedrooms, TierAmi, LabelOf, SizeFor, SumFor, NoNegative, TierBatches, AddBatches;
    var name := LabelOf(input.breakdown[i].key);
    SizeForLabel(input.breakdown, name);
  }

  // --- The plan against unit_count ---

  function MixTotal(mix: seq<MixEntry>): int {
    if mix == [] then 0 else MixTotal(mix[..|mix| - 1]) + mix[|mix| - 1].units
  }

  /** Rail 2 of `run`, where units are generated. */
  predicate RailPasses(input: Input) {
    MixTotal(input.mix) > 0 && MixTotal(input.mix) == input.unitCount
  }

  ghost predicate DistinctNames(mix: seq<MixEntry>) {
    forall i, j | 0 <= i < j < |mix| :: mix[i].name != mix[j].name
  }

  /** What a batch counts for where it is known: negative counts included. */
  function Counted(batch: Batch): int {
    if LabelBedrooms(batch.name).Some? then batch.units else 0
  }

  function CountedSum(batches: seq<Batch>): int {
    if batches == [] then 0 else CountedSum(batches[..|batches| - 1]) + Counted(batches[|batches| - 1])
  }

  /** The magnitude of the negative batches with a known label. */
  function Deficit(batches: seq<Batch>): nat {
    if batches == [] then 0
    else
      var units := Counted(batches[|batches| - 1]);
      Deficit(batches[..|batches| - 1]) + (if units < 0 then -units else 0)
  }

  /** A negative count plans nothing, so the plan exceeds the counted sum by the deficit. */
  lemma {:induction false} SizeIsSumAndDeficit(batches: seq<Batch>)
    ensures TotalSize(batches) == CountedSum(batches) + Deficit(batches)
  {
    hide LabelBedrooms;
    if batches != [] {
      SizeIsSumAndDeficit(batches[..|batches| - 1]);
    }
  }

  function CountedFor(batches: seq<Batch>, name: string): int {
    if batches == [] then 0
    else
      var last := batches[|batches| - 1];
      CountedFor(batches[..|batches| - 1], name) + (if last.name == name then Counted(last) else 0)
  }

  /** Over all labels of the mix: what the batches count under each of them. */
  function CountedByMix(mix: seq<MixEntry>, batches: seq<Batch>): int {
    if mix == [] then 0 else CountedByMix(mix[..|mix| - 1], batches) + CountedFor(batches, mix[|mix| - 1].name)
  }

  ghost predicate InMix(mix: seq<MixEntry>, name: string) {
    exists i | 0 <= i < |mix| :: mix[i].name == name
  }

  lemma InMixNext(mix: seq<MixEntry>, e: MixEntry, name: string)
    ensures InMix(mix + [e], name) <==> InMix(mix, name) || e.name == name
  {
    var longer := mix + [e];
    assert longer[|mix|] == e && forall i | 0 <= i < |mix| :: longer[i] == mix[i];
  }

  lemma {:induction false} CountedByMixAppend(mix: seq<MixEntry>, batches: seq<Batch>, batch: Batch)
    requires DistinctNames(mix)
    ensures CountedByMix(mix, batches + [batch]) == CountedByMix(mix, batches) + (if InMix(mix, batch.name) then Counted(batch) else 0)
  {
    hide Counted;
    if mix != [] {
      var front, last := mix[..|mix| - 1], mix[|mix| - 1];
      assert mix == front + [last] && forall i | 0 <= i < |front| :: front[i] == mix[i];
      CountedByMixAppend(front, batches, batch);
      InMixNext(front, last, batch.name);
      assert (batches + [batch])[..|batches|] == batches;
    }
  }

  ghost predicate NamedIn(batches: seq<Batch>, mix: seq<MixEntry>) {
    forall k | 0 <= k < |batches| && LabelBedrooms(batches[k].name).Some? :: InMix(mix, batches[k].name)
  }

  /** The counted sum splits into the shares of the labels. */
  lemma {:induction false} CountedSumByMix(mix: seq<MixEntry>, batches: seq<Batch>)
    requires DistinctNames(mix) && NamedIn(batches, mix)
    ensures CountedSum(batches) == CountedByMix(mix, batches)
  {
    hide LabelBedrooms;
    if batches == [] {
      CountedByMixNothing(mix);
    } else {
      var front, last := batches[..|batches| - 1], batches[|batches| - 1];
      assert batches == front + [last] && forall k | 0 <= k < |front| :: front[k] == batches[k];
      CountedSumByMix(mix, front);
      CountedByMixAppend(mix, front, last);
    }
  }

  lemma {:induction false} CountedByMixNothing(mix: seq<MixEntry>)
    ensures CountedByMix(mix, []) == 0
  {
    if mix != [] { CountedByMixNothing(mix[..|mix| - 1]); }
  }

  ghost predicate NamedBy(tiers: seq<Tier>, name: string) {
    exists k | 0 <= k < |tiers| :: LabelOf(tiers[k].key) == name
  }

  lemma NamedByNext(tiers: seq<Tier>, t: Tier, name: string)
    ensures NamedBy(tiers + [t], name) <==> NamedBy(tiers, name) || LabelOf(t.key) == name
  {
    hide LabelOf;
    var longer := tiers + [t];
    assert longer[|tiers|] == t && forall k | 0 <= k < |tiers| :: longer[k] == tiers[k];
  }

  ghost predicate KnownAbsent(tiers: seq<Tier>, mix: seq<MixEntry>, name: string) {
    LabelBedrooms(name).Some? && !InMix(mix, name) && NamedBy(tiers, name)
  }

  /** The known labels of the breakdown that the mix does not have, each once. */
  ghost function AbsentNames(tiers: seq<Tier>, mix: seq<MixEntry>): (names: seq<string>)
    ensures Distinct(names)
    ensures forall name :: name in names <==> KnownAbsent(tiers, mix, name)
  {
    hide LabelBedrooms, LabelOf, NamedBy, InMix;
    if tiers == [] then
      NamedByNone();
      []
    else
      var front, last := tiers[..|tiers| - 1], tiers[|tiers| - 1];
      var names, name := AbsentNames(front, mix), LabelOf(last.key);
      AbsentNext(tiers, mix);
      if LabelBedrooms(name).Some? && !InMix(mix, name) && name !in names then names + [name] else names
  }

  lemma NamedByNone()
    ensures forall name :: !NamedBy([], name)
  {
  }

  lemma AbsentNext(tiers: seq<Tier>, mix: seq<MixEntry>)
    requires tiers != []
    ensures var front, last := tiers[..|tiers| - 1], tiers[|tiers| - 1];
            forall name :: KnownAbsent(tiers, mix, name) <==>
              KnownAbsent(front, mix, name) || (name == LabelOf(last.key) && LabelBedrooms(name).Some? && !InMix(mix, name))
  {
    hide LabelBedrooms, LabelOf, NamedBy, InMix;
    var front, last := tiers[..|tiers| - 1], tiers[|tiers| - 1];
    assert tiers == front + [last];
    forall name ensures NamedBy(tiers, name) <==> NamedBy(front, name) || LabelOf(last.key) == name {
      NamedByNext(front, last, name);
    }
  }

  /** The label is known and, where there is a breakdown, named by it. */
  ghost predicate Covered(input: Input, name: string) {
    LabelBedrooms(name).Some? && (input.breakdown != [] ==> NamedBy(input.breakdown, name))
  }

  /** The units of the entries of the mix that are not covered. */
  ghost function Uncovered(input: Input, mix: seq<MixEntry>): int {
    if mix == [] then 0
    else
      var last := mix[|mix| - 1];
      Uncovered(input, mix[..|mix| - 1]) + (if Covered(input, last.name) then 0 else last.units)
  }

  // What the batches count under one label.

  lemma {:induction false} CountedForTiers(tiers: seq<Tier>, name: string)
    ensures CountedFor(TierBatches(tiers), name) == if LabelBedrooms(name).Some? then SumFor(tiers, name) else 0
  {
    hide LabelBedrooms, TierAmi, LabelOf;
    if tiers != [] {
      var n := |tiers| - 1;
      CountedForTiers(tiers[..n], name);
      SumForSnoc(tiers, name);
      assert TierBatches(tiers)[..n] == TierBatches(tiers[..n]);
    }
  }

  lemma {:induction false} SumForUnnamed(tiers: seq<Tier>, name: string)
    requires !NamedBy(tiers, name)
    ensures SumFor(tiers, name) == 0
  {
    hide LabelOf;
    if tiers != [] {
      assert forall k | 0 <= k < |tiers[1..]| :: tiers[1..][k] == tiers[k + 1];
      assert LabelOf(tiers[0].key) != name;
      SumForUnnamed(tiers[1..], name);
    }
  }

  lemma {:induction false} CountedForOther(batches: seq<Batch>, name: string)
    requires forall k | 0 <= k < |batches| :: batches[k].name != name
    ensures CountedFor(batches, name) == 0
  {
    if batches != [] {
      CountedForOther(batches[..|batches| - 1], name);
    }
  }

  lemma {:induction false} CountedForOnly(batches: seq<Batch>, i: nat)
    requires i < |batches| && forall k | 0 <= k < |batches| && k != i :: batches[k].name != batches[i].name
    ensures CountedFor(batches, batches[i].name) == Counted(batches[i])
  {
    hide Counted;
    var n := |batches| - 1;
    assert forall k | 0 <= k < n :: batches[..n][k] == batches[k];
    if i == n {
      CountedForOther(batches[..n], batches[i].name);
    } else {
      CountedForOnly(batches[..n], i);
    }
  }

  lemma {:induction false} MixOfEntry(mix: seq<MixEntry>, i: nat)
    requires i < |mix| && DistinctNames(mix)
    ensures MixOf(mix, mix[i].name) == Some(mix[i].units)
  {
    if i > 0 {
      assert mix[0].name != mix[i].name;
      assert forall k | 0 <= k < |mix[1..]| :: mix[1..][k] == mix[k + 1];
      MixOfEntry(mix[1..], i - 1);
    }
  }

  lemma {:induction false} MixOfSome(mix: seq<MixEntry>, name: string)
    ensures MixOf(mix, name).Some? <==> InMix(mix, name)
  {
    if mix != [] {
      MixOfSome(mix[1..], name);
      assert mix == [mix[0]] + mix[1..];
      if InMix(mix[1..], name) {
        var i :| 0 <= i < |mix[1..]| && mix[1..][i].name == name;
        assert mix[i + 1].name == name;
      }
      if InMix(mix, name) && mix[0].name != name {
        var i :| 0 <= i < |mix| && mix[i].name == name;
        assert mix[1..][i - 1].name == name;
      }
    }
  }

  lemma NamedReconciled(input: Input, name: string)
    requires Plan(input).Some? && input.breakdown != [] && NamedBy(input.breakdown, name)
    ensures Agrees(input.mix, input.breakdown, name)
  {
    hide LabelOf, Agrees, AddBatches;
    var k :| 0 <= k < |input.breakdown| && LabelOf(input.breakdown[k].key) == name;
  }

  /** An entry of the mix counts with all its units if it is covered, else not at all. */
  lemma CountedForEntry(input: Input, i: nat)
    requires DistinctNames(input.mix) && Plan(input).Some? && i < |input.mix|
    ensures var e := input.mix[i];
            CountedFor(Batches(input), e.name) == if Covered(input, e.name) then e.units else 0
  {
    hide LabelBedrooms, TierAmi, LabelOf, CountedFor, SumFor, AddBatches, ResolveRent, NamedBy, Reconciled;
    var e := input.mix[i];
    if input.breakdown == [] {
      CountedForOnly(MixBatches(input), i);
    } else {
      CountedForTiers(input.breakdown, e.name);
      if NamedBy(input.breakdown, e.name) {
        MixOfEntry(input.mix, i);
        NamedReconciled(input, e.name);
      } else {
        SumForUnnamed(input.breakdown, e.name);
      }
    }
  }

  /** A known label that the mix lacks passes only with the sum -1. */
  lemma CountedForAbsent(input: Input, name: string)
    requires Plan(input).Some? && KnownAbsent(input.breakdown, input.mix, name)
    ensures CountedFor(Batches(input), name) == -1
  {
    hide LabelBedrooms, TierAmi, LabelOf, CountedFor, SumFor, AddBatches, NamedBy, Reconciled;
    NamedByNone();
    CountedForTiers(input.breakdown, name);
    MixOfSome(input.mix, name);
    NamedReconciled(input, name);
  }

  // The mix with an entry for each absent label.

  function Entries(names: seq<string>): (mix: seq<MixEntry>)
    ensures |mix| == |names|
  {
    seq(|names|, i requires 0 <= i < |names| => MixEntry(names[i], -1))
  }

  lemma EntriesIn(names: seq<string>, name: string)
    ensures InMix(Entries(names), name) <==> name in names
  {
    if name in names {
      var i :| 0 <= i < |names| && names[i] == name;
      assert Entries(names)[i].name == name;
    }
  }

  lemma ExtendedMix(mix: seq<MixEntry>, names: seq<string>)
    requires DistinctNames(mix) && Distinct(names) && forall name | name in names :: !InMix(mix, name)
    ensures DistinctNames(mix + Entries(names))
    ensures forall name :: InMix(mix + Entries(names), name) <==> InMix(mix, name) || name in names
  {
    var longer := mix + Entries(names);
    assert forall i | 0 <= i < |names| :: longer[|mix| + i].name == names[i] && names[i] in names;
    assert forall i | 0 <= i < |mix| :: longer[i] == mix[i];
    forall i, j | 0 <= i < j < |longer| ensures longer[i].name != longer[j].name {
      if i >= |mix| {
        assert names[i - |mix|] != names[j - |mix|];
      } else if j >= |mix| {
        assert longer[j].name == names[j - |mix|];
      }
    }
    forall name ensures InMix(longer, name) <==> InMix(mix, name) || name in names {
      EntriesIn(names, name);
      InMixConcat(mix, Entries(names), name);
    }
  }

  lemma InMixConcat(a: seq<MixEntry>, b: seq<MixEntry>, name: string)
    ensures InMix(a + b, name) <==> InMix(a, name) || InMix(b, name)
  {
    var c := a + b;
    assert forall i | 0 <= i < |a| :: c[i] == a[i];
    assert forall i | 0 <= i < |b| :: c[|a| + i] == b[i];
  }

  lemma {:induction false} CountedByEntries(mix: seq<MixEntry>, names: seq<string>, batches: seq<Batch>)
    requires forall name | name in names :: CountedFor(batches, name) == -1
    ensures CountedByMix(mix + Entries(names), batches) == CountedByMix(mix, batches) - |names|
  {
    hide CountedFor;
    if names == [] {
      assert mix + Entries(names) == mix;
    } else {
      var front := names[..|names| - 1];
      assert forall name | name in front :: name in names;
      CountedByEntries(mix, front, batches);
      var longer := mix + Entries(names);
      assert longer[..|longer| - 1] == mix + Entries(front);
      assert longer[|longer| - 1].name == names[|names| - 1] && names[|names| - 1] in names;
    }
  }

  lemma {:induction false} CountedByCovered(input: Input, mix: seq<MixEntry>, batches: seq<Batch>)
    requires forall i | 0 <= i < |mix| ::
               CountedFor(batches, mix[i].name) == if Covered(input, mix[i].name) then mix[i].units else 0
    ensures CountedByMix(mix, batches) == MixTotal(mix) - Uncovered(input, mix)
  {
    hide CountedFor, Covered;
    if mix != [] {
      var front := mix[..|mix| - 1];
      assert forall i | 0 <= i < |front| :: front[i] == mix[i];
      CountedByCovered(input, front, batches);
    }
  }

  lemma BatchesNamed(input: Input)
    requires Plan(input).Some?
    ensures forall k | 0 <= k < |Batches(input)| && LabelBedrooms(Batches(input)[k].name).Some? ::
              InMix(input.mix, Batches(input)[k].name) || Batches(input)[k].name in AbsentNames(input.breakdown, input.mix)
  {
    hide LabelBedrooms, TierAmi, LabelOf, AddBatches, ResolveRent, Reconciled, AbsentNames;
    var batches := Batches(input);
    forall k | 0 <= k < |batches| && LabelBedrooms(batches[k].name).Some?
      ensures InMix(input.mix, batches[k].name) || batches[k].name in AbsentNames(input.breakdown, input.mix)
    {
      if input.breakdown == [] {
        assert input.mix[k].name == batches[k].name;
      } else {
        assert NamedBy(input.breakdown, batches[k].name);
      }
    }
  }

  /** By how much a plan misses the total of the mix, for every input that is not refused: it exceeds it
      by what negative counts fail to take back, and falls short by the units of entries that are
      unknown or not named, and by one for each known label that passes only as a missing one. */
  lemma PlanAgainstMix(input: Input)
    requires DistinctNames(input.mix) && Plan(input).Some?
    ensures |Plan(input).value| - MixTotal(input.mix) ==
            Deficit(Batches(input)) - Uncovered(input, input.mix) - |AbsentNames(input.breakdown, input.mix)|
  {
    var batches, absent := Batches(input), AbsentNames(input.breakdown, input.mix);
    assert Plan(input).value == AddBatches([], batches);
    hide *;
    PlanLength(batches);
    SizeIsSumAndDeficit(batches);
    forall i | 0 <= i < |input.mix|
      ensures CountedFor(batches, input.mix[i].name) == if Covered(input, input.mix[i].name) then input.mix[i].units else 0
    {
      CountedForEntry(input, i);
    }
    CountedByCovered(input, input.mix, batches);
    AbsentOutside(input);
    forall name | name in absent ensures CountedFor(batches, name) == -1 {
      CountedForAbsent(input, name);
    }
    CountedByEntries(input.mix, absent, batches);
    BatchesNamed(input);
    ExtendedMix(input.mix, absent);
    AllNamed(batches, input.mix, absent);
    CountedSumByMix(input.mix + Entries(absent), batches);
  }

  lemma AbsentOutside(input: Input)
    ensures forall name | name in AbsentNames(input.breakdown, input.mix) :: !InMix(input.mix, name)
  {
  }

  lemma AllNamed(batches: seq<Batch>, mix: seq<MixEntry>, names: seq<string>)
    requires forall k | 0 <= k < |batches| && LabelBedrooms(batches[k].name).Some? ::
               InMix(mix, batches[k].name) || batches[k].name in names
    requires forall name :: InMix(mix + Entries(names), name) <==> InMix(mix, name) || name in names
    ensures NamedIn(batches, mix + Entries(names))
  {
    hide InMix, LabelBedrooms;
  }

  /** Behind rail 2 the plan has at most `unit_count` units if and only if the negative counts do not
      outweigh the uncovered units and the labels missing from the mix, and exactly as many if and only
      if they balance. */
  lemma PlanWithinUnitCount(input: Input)
    requires DistinctNames(input.mix) && RailPasses(input) && Plan(input).Some?
    ensures var short := Uncovered(input, input.mix) + |AbsentNames(input.breakdown, input.mix)|;
            && (|Plan(input).value| <= input.unitCount <==> Deficit(Batches(input)) <= short)
            && (|Plan(input).value| == input.unitCount <==> Deficit(Batches(input)) == short)
  {
    PlanAgainstMix(input);
    hide Plan, MixTotal, Uncovered, AbsentNames, Deficit, Batches;
  }

  ghost predicate CountsNotNegative(input: Input) {
    (forall i | 0 <= i < |input.mix| :: input.mix[i].units >= 0)
    && (forall i | 0 <= i < |input.breakdown| :: input.breakdown[i].units >= 0)
  }

  lemma {:induction false} NoDeficit(batches: seq<Batch>)
    requires forall k | 0 <= k < |batches| :: batches[k].units >= 0
    ensures Deficit(batches) == 0
  {
    hide LabelBedrooms;
    if batches != [] {
      NoDeficit(batches[..|batches| - 1]);
    }
  }

  lemma {:induction false} SumForNotNegative(tiers: seq<Tier>, name: string)
    requires forall i | 0 <= i < |tiers| :: tiers[i].units >= 0
    ensures SumFor(tiers, name) >= 0
  {
    if tiers != [] {
      assert forall k | 0 <= k < |tiers[1..]| :: tiers[1..][k] == tiers[k + 1];
      SumForNotNegative(tiers[1..], name);
    }
  }

  lemma {:induction false} UncoveredNotNegative(input: Input, mix: seq<MixEntry>)
    requires forall i | 0 <= i < |mix| :: mix[i].units >= 0
    ensures Uncovered(input, mix) >= 0
    ensures Uncovered(input, mix) == 0 <==> forall i | 0 <= i < |mix| && mix[i].units > 0 :: Covered(input, mix[i].name)
  {
    hide Covered;
    if mix != [] {
      var front := mix[..|mix| - 1];
      assert forall i | 0 <= i < |front| :: front[i] == mix[i];
      UncoveredNotNegative(input, front);
    }
  }

  /** Without negative counts the plan has at most `unit_count` units, and exactly as many if and only
      if every label with units is known and covered. */
  lemma PlanWithoutNegatives(input: Input)
    requires DistinctNames(input.mix) && RailPasses(input) && Plan(input).Some? && CountsNotNegative(input)
    ensures |Plan(input).value| <= input.unitCount
    ensures |Plan(input).value| == input.unitCount
            <==> forall i | 0 <= i < |input.mix| && input.mix[i].units > 0 :: Covered(input, input.mix[i].name)
  {
    PlanWithinUnitCount(input);
    BatchesNotNegative(input);
    NoDeficit(Batches(input));
    UncoveredNotNegative(input, input.mix);
    var absent := AbsentNames(input.breakdown, input.mix);
    if absent != [] {
      NoneAbsent(input, absent[0]);
    }
    hide *;
  }

  lemma BatchesNotNegative(input: Input)
    requires CountsNotNegative(input)
    ensures forall k | 0 <= k < |Batches(input)| :: Batches(input)[k].units >= 0
  {
    hide LabelBedrooms, LabelOf, TierAmi, ResolveRent;
  }

  lemma NoneAbsent(input: Input, name: string)
    requires Plan(input).Some? && CountsNotNegative(input)
    ensures name !in AbsentNames(input.breakdown, input.mix)
  {
    if name in AbsentNames(input.breakdown, input.mix) {
      CountedForAbsent(input, name);
      hide LabelBedrooms, LabelOf, CountedFor, SumFor, AddBatches, TierBatches, NamedBy;
      NamedByNone();
      CountedForTiers(input.breakdown, name);
      SumForNotNegative(input.breakdown, name);
    }
  }

  // --- Inputs on which negative counts show ---

  lemma KnownLabels()
    ensures LabelBedrooms("1BR") == Some(1) && LabelBedrooms("2BR") == Some(2)
  {
    assert FoldedWords.ToLower("1BR") == "1br" && FoldedWords.ToLower("2BR") == "2br";
  }

  lemma LabelBefore(key: string, name: string)
    requires |key| > |name| && key[..|name|] == name && key[|name|] == '_' && forall k | 0 <= k < |name| :: name[k] != '_'
    ensures LabelOf(key) == name
  {
    assert forall k | 0 <= k < |name| :: key[k] == key[..|name|][k];
    assert IndexOf(key, '_') == |name|;
  }

  lemma TierLabels()
    ensures LabelOf("1BR_a") == LabelOf("1BR_b") == "1BR" && LabelOf("2BR_a") == LabelOf("2BR_b") == "2BR"
  {
    LabelBefore("1BR_a", "1BR");
    LabelBefore("1BR_b", "1BR");
    LabelBefore("2BR_a", "2BR");
    LabelBefore("2BR_b", "2BR");
  }

  lemma OneBatch(a: Batch)
    ensures TotalSize([a]) == BatchSize(a) && forall name :: SizeFor([a], name) == if a.name == name then BatchSize(a) else 0
  {
    hide BatchSize;
    assert [a][..0] == [];
  }

  lemma TwoBatches(a: Batch, b: Batch)
    ensures TotalSize([a, b]) == |AddBatches([], [a, b])| == BatchSize(a) + BatchSize(b)
    ensures forall name :: SizeFor([a, b], name) ==
              (if a.name == name then BatchSize(a) else 0) + (if b.name == name then BatchSize(b) else 0)
  {
    hide BatchSize;
    OneBatch(a);
    PlanLength([a, b]);
    assert [a, b][..1] == [a];
  }

  lemma ThreeBatches(a: Batch, b: Batch, c: Batch)
    ensures |AddBatches([], [a, b, c])| == BatchSize(a) + BatchSize(b) + BatchSize(c)
  {
    hide BatchSize;
    TwoBatches(a, b);
    PlanLength([a, b, c]);
    assert [a, b, c][..2] == [a, b];
  }

  function UnitsFor(t: Tier, name: string): int {
    if LabelOf(t.key) == name then t.units else 0
  }

  lemma OneTier(a: Tier, name: string)
    ensures SumFor([a], name) == UnitsFor(a, name)
  {
    hide LabelOf;
    assert [a][1..] == [];
  }

  lemma TwoTiers(a: Tier, b: Tier, name: string)
    ensures SumFor([a, b], name) == UnitsFor(a, name) + UnitsFor(b, name)
  {
    hide LabelOf;
    OneTier(b, name);
    assert [a, b][1..] == [b];
  }

  lemma ThreeTiers(a: Tier, b: Tier, c: Tier, name: string)
    ensures SumFor([a, b, c], name) == UnitsFor(a, name) + UnitsFor(b, name) + UnitsFor(c, name)
  {
    hide LabelOf;
    TwoTiers(b, c, name);
    assert [a, b, c][1..] == [b, c];
  }

  /** Five units minus two pass the rail as three, and five are planned. */
  lemma NegativeMix(input: Input)
    requires input.mix == [MixEntry("1BR", 5), MixEntry("2BR", -2)] && input.breakdown == [] && input.unitCount == 3
    ensures RailPasses(input) && Plan(input).Some? && |Plan(input).value| == 5
  {
    KnownLabels();
    hide LabelBedrooms, ResolveRent, AddBatches;
    var batches := MixBatches(input);
    assert input.mix[..1] == [MixEntry("1BR", 5)] && input.mix[..1][..0] == [];
    assert MixTotal(input.mix[..1]) == 5;
    assert batches == [batches[0], batches[1]];
    TwoBatches(batches[0], batches[1]);
  }

  /** The known label 2BR is missing from the mix, and its tiers sum to the -1 that a missing label
      reads as: one unit passes the rail, and four are planned. */
  lemma SentinelTiers(input: Input)
    requires input.mix == [MixEntry("1BR", 1)] && input.unitCount == 1
    requires input.breakdown == [Tier("1BR_a", 1, 0), Tier("2BR_a", 3, 0), Tier("2BR_b", -4, 0)]
    ensures RailPasses(input) && Plan(input).Some? && |Plan(input).value| == 4
  {
    KnownLabels();
    TierLabels();
    hide LabelBedrooms, LabelOf, TierAmi, AddBatches;
    var tiers := input.breakdown;
    assert input.mix[..0] == [] && input.mix[1..] == [] && tiers == [tiers[0], tiers[1], tiers[2]];
    assert "1BR"[0] != "2BR"[0];
    assert "1BR" != "2BR";
    ThreeTiers(tiers[0], tiers[1], tiers[2], "1BR");
    ThreeTiers(tiers[0], tiers[1], tiers[2], "2BR");
    assert SumFor(tiers, "2BR") == -1;
    assert MixTotal(input.mix) == MixTotal(input.mix[..0]) + 1;
    assert MixOf(input.mix[1..], "2BR") == None;
    assert Agrees(input.mix, tiers, "1BR") && Agrees(input.mix, tiers, "2BR");
    var batches := TierBatches(tiers);
    assert batches == [batches[0], batches[1], batches[2]];
    ThreeBatches(batches[0], batches[1], batches[2]);
  }

  /** Three units and minus one: the two of the mix are accepted, and three are planned. */
  lemma NegativeTier(input: Input)
    requires input.mix == [MixEntry("1BR", 2)]
    requires input.breakdown == [Tier("1BR_a", 3, 0), Tier("1BR_b", -1, 0)]
    ensures Plan(input).Some? && MixOf(input.mix, "1BR") == Some(2) && SizeFor(Batches(input), "1BR") == 3
  {
    KnownLabels();
    TierLabels();
    hide LabelBedrooms, LabelOf, TierAmi, AddBatches;
    var tiers := input.breakdown;
    assert tiers == [tiers[0], tiers[1]];
    TwoTiers(tiers[0], tiers[1], "1BR");
    assert Agrees(input.mix, tiers, "1BR");
    var batches := TierBatches(tiers);
    assert batches == [batches[0], batches[1]];
    TwoBatches(batches[0], batches[1]);
  }
}
