/** client-tenant/src/lib/ami.ts: income tiers and rent caps over exact rationals. The tables are
    parameters. */
module AmiTiers {
  import opened JsNumbers
  import opened Options

  datatype Tier = T30 | T50 | T60 | T80

  /** The published figures of one county: the 50% income base by household size 1 to 12, and the 60%
      rent by bedroom key. */
  datatype County = County(mtsp50: seq<nat>, rent60: map<string, nat>)

  const TIER_ORDER: seq<Tier> := [T30, T50, T60, T80]
  const MIN_HH := 1
  const MAX_HH := 12

  function Percent(tier: Tier): nat {
    match tier
    case T30 => 30
    case T50 => 50
    case T60 => 60
    case T80 => 80
  }

  function Multiplier(tier: Tier): real {
    match tier
    case T30 => 0.6
    case T50 => 1.0
    case T60 => 1.2
    case T80 => 1.6
  }

  ghost predicate Valid(county: County) {
    |county.mtsp50| == MAX_HH
  }

  ghost predicate Monotone(county: County) {
    forall i, j | 0 <= i <= j < |county.mtsp50| :: county.mtsp50[i] <= county.mtsp50[j]
  }

  function ClampHouseholdSize(n: Number): (hh: int)
    ensures MIN_HH <= hh <= MAX_HH
  {
    if !n.Finite? || n.value.Floor < MIN_HH then MIN_HH
    else if n.value.Floor > MAX_HH then MAX_HH
    else n.value.Floor
  }

  /** `Math.round` */
  function Round(x: real): int {
    (x + 0.5).Floor
  }

  function IncomeLimit(county: County, tier: Tier, size: Number): int
    requires Valid(county)
  {
    Scaled(county.mtsp50[ClampHouseholdSize(size) - 1], Multiplier(tier))
  }

  function Scaled(base: nat, multiplier: real): int {
    Round(base as real * multiplier)
  }

  function MaxRent(county: County, tier: Tier, bedroom: string): Option<int> {
    if bedroom !in county.rent60 then None
    else if tier == T60 then Some(county.rent60[bedroom])
    else Some((county.rent60[bedroom] as real * Multiplier(tier) / Multiplier(T60)).Floor)
  }

  /** The first tier from position `i` on whose limit the income meets. */
  function FirstTier(county: County, size: Number, income: real, i: nat): (t: Option<Tier>)
    requires Valid(county) && i <= |TIER_ORDER|
    decreases |TIER_ORDER| - i
  {
    if i == |TIER_ORDER| then None
    else if income <= IncomeLimit(county, TIER_ORDER[i], size) as real then Some(TIER_ORDER[i])
    else FirstTier(county, size, income, i + 1)
  }

  /** The lowest tier whose limit the income meets; none for an income that is negative or not finite. */
  method QualifyAmiTier(county: County, size: Number, income: Number) returns (t: Option<Tier>)
    requires Valid(county)
    ensures t == Qualified(county, size, income)
    ensures t.Some? ==> Meets(county, size, income, t.value)
    ensures forall tier | Meets(county, size, income, tier) :: t.Some? && Percent(t.value) <= Percent(tier)
  {
    LowestMet(county, size, income);
    hide Meets, IncomeLimit;
    if !income.Finite? || income.value < 0.0 { return None; }
    for i := 0 to |TIER_ORDER|
      invariant FirstTier(county, size, income.value, 0) == FirstTier(county, size, income.value, i)
    {
      if income.value <= IncomeLimit(county, TIER_ORDER[i], size) as real {
        return Some(TIER_ORDER[i]);
      }
    }
    return None;
  }

  function Qualified(county: County, size: Number, income: Number): Option<Tier>
    requires Valid(county)
  {
    if !income.Finite? || income.value < 0.0 then None else FirstTier(county, size, income.value, 0)
  }

  ghost predicate Meets(county: County, size: Number, income: Number, tier: Tier)
    requires Valid(county)
  {
    income.Finite? && 0.0 <= income.value <= IncomeLimit(county, tier, size) as real
  }

  lemma LowestMet(county: County, size: Number, income: Number)
    requires Valid(county)
    ensures var t := Qualified(county, size, income);
            && (t.Some? ==> Meets(county, size, income, t.value))
            && forall tier | Meets(county, size, income, tier) :: t.Some? && Percent(t.value) <= Percent(tier)
  {
    hide IncomeLimit, FirstTier;
    if income.Finite? && income.value >= 0.0 {
      assert TIER_ORDER[0..] == TIER_ORDER && T30 in TIER_ORDER by { AllTiers(T30); }
      FirstTierIsLowest(county, size, income.value, 0, T30);
      forall tier | Meets(county, size, income, tier)
        ensures Qualified(county, size, income).Some? && Percent(Qualified(county, size, income).value) <= Percent(tier)
      {
        AllTiers(tier);
        FirstTierIsLowest(county, size, income.value, 0, tier);
      }
    }
  }

  function IndexOf(tiers: seq<Tier>, tier: Tier): (i: nat)
    requires tier in tiers
    ensures i < |tiers| && tiers[i] == tier
  {
    if tiers[0] == tier then 0 else 1 + IndexOf(tiers[1..], tier)
  }

  lemma AllTiers(tier: Tier)
    ensures tier in TIER_ORDER
  {
    assert TIER_ORDER[0] == T30 && TIER_ORDER[1] == T50 && TIER_ORDER[2] == T60 && TIER_ORDER[3] == T80;
  }

  function QualifyingTiers(minTier: Option<Tier>): seq<Tier> {
    match minTier
    case None => []
    case Some(tier) =>
      AllTiers(tier);
      TIER_ORDER[IndexOf(TIER_ORDER, tier)..]
  }

  // --- Properties ---

  lemma InOrder(tier: Tier)
    ensures tier in TIER_ORDER
    ensures forall other :: other in TIER_ORDER[IndexOf(TIER_ORDER, tier)..] <==> Percent(tier) <= Percent(other)
  {
    assert TIER_ORDER[0] == T30 && TIER_ORDER[1] == T50 && TIER_ORDER[2] == T60 && TIER_ORDER[3] == T80;
    var i := IndexOf(TIER_ORDER, tier);
    assert i == match tier case T30 => 0 case T50 => 1 case T60 => 2 case T80 => 3;
    forall other ensures other in TIER_ORDER[i..] <==> Percent(tier) <= Percent(other) {
      var j := match other case T30 => 0 case T50 => 1 case T60 => 2 case T80 => 3;
      if i <= j {
        assert TIER_ORDER[i..][j - i] == other;
      }
    }
  }

  /** As how many persons a household counts: one for what is no finite number or below one, at most twelve,
      and the whole part in between. */
  ghost predicate CountsAs(size: Number, person: int) {
    if !size.Finite? || size.value < 1.0 then person == 1
    else if size.value >= 12.0 then person == 12
    else person as real <= size.value < person as real + 1.0
  }

  ghost predicate StandsFor(tier: Tier, percent: int) {
    (tier.T30? && percent == 30) || (tier.T50? && percent == 50) || (tier.T60? && percent == 60) || (tier.T80? && percent == 80)
  }

  lemma RoundMonotone(x: real, y: real)
    requires x <= y
    ensures Round(x) <= Round(y)
  {
  }

  /** A limit is the tier's percentage of the 50% base over 50, to the nearest dollar, halves up. */
  lemma LimitNearest(county: County, tier: Tier, size: Number, person: int, percent: int)
    requires |county.mtsp50| == 12 && CountsAs(size, person) && StandsFor(tier, percent)
    ensures var exact := percent * county.mtsp50[person - 1];
            Valid(county) && exact - 25 < 50 * IncomeLimit(county, tier, size) <= exact + 25
  {
    assert person == ClampHouseholdSize(size) && percent == Percent(tier);
    var base := county.mtsp50[person - 1];
    var x := base as real * Multiplier(tier);
    assert 50.0 * x == (percent * base) as real;
    var r := Round(x);
    assert r as real <= x + 0.5 < r as real + 1.0;
    assert (50 * r) as real == 50.0 * (r as real);
  }

  lemma ProductsRise(a: real, b: real, x: real, y: real)
    requires 0.0 <= a <= b && 0.0 <= x <= y
    ensures a * x <= b * y
  {
    assert a * x <= b * x;
    assert b * x <= b * y;
  }

  lemma LimitsRise(county: County, lower: Tier, higher: Tier, size: Number, larger: Number)
    requires Valid(county) && Percent(lower) <= Percent(higher)
    requires county.mtsp50[ClampHouseholdSize(size) - 1] <= county.mtsp50[ClampHouseholdSize(larger) - 1]
    ensures IncomeLimit(county, lower, size) <= IncomeLimit(county, higher, larger)
  {
    hide *;
    LimitIs(county, lower, size);
    LimitIs(county, higher, larger);
    MultipliersRise(lower, higher);
    ScaledRises(county.mtsp50[ClampHouseholdSize(size) - 1], county.mtsp50[ClampHouseholdSize(larger) - 1],
                Multiplier(lower), Multiplier(higher));
  }

  lemma ScaledRises(a: nat, b: nat, x: real, y: real)
    requires a <= b && 0.0 <= x <= y
    ensures Scaled(a, x) <= Scaled(b, y)
  {
    ProductsRise(a as real, b as real, x, y);
    RoundMonotone(a as real * x, b as real * y);
  }

  lemma LimitIs(county: County, tier: Tier, size: Number)
    requires Valid(county)
    ensures 0 < ClampHouseholdSize(size) <= |county.mtsp50|
    ensures IncomeLimit(county, tier, size) == Scaled(county.mtsp50[ClampHouseholdSize(size) - 1], Multiplier(tier))
  {
  }

  lemma MultipliersRise(lower: Tier, higher: Tier)
    ensures 0.0 <= Multiplier(lower)
    ensures Percent(lower) <= Percent(higher) ==> Multiplier(lower) <= Multiplier(higher)
  {
  }

  /** The tier found is met, and no lower one is. */
  lemma {:induction false} FirstTierIsLowest(county: County, size: Number, income: real, i: nat, tier: Tier)
    requires Valid(county) && i <= |TIER_ORDER| && tier in TIER_ORDER[i..]
    ensures var t := FirstTier(county, size, income, i);
            && (t.Some? ==> income <= IncomeLimit(county, t.value, size) as real)
            && (income <= IncomeLimit(county, tier, size) as real ==> t.Some? && Percent(t.value) <= Percent(tier))
    decreases |TIER_ORDER| - i
  {
    hide IncomeLimit;
    assert TIER_ORDER[0] == T30 && TIER_ORDER[1] == T50 && TIER_ORDER[2] == T60 && TIER_ORDER[3] == T80;
    if tier != TIER_ORDER[i] && income > IncomeLimit(county, TIER_ORDER[i], size) as real {
      assert TIER_ORDER[i..] == [TIER_ORDER[i]] + TIER_ORDER[i + 1..];
      FirstTierIsLowest(county, size, income, i + 1, tier);
    } else if income > IncomeLimit(county, TIER_ORDER[i], size) as real && i + 1 < |TIER_ORDER| {
      FirstTierIsLowest(county, size, income, i + 1, TIER_ORDER[i + 1]);
    }
  }

  lemma OfferedIffMet(county: County, size: Number, income: real, tier: Tier)
    requires Valid(county) && income >= 0.0
    ensures tier in QualifyingTiers(Qualified(county, size, Finite(income)))
            <==> income <= IncomeLimit(county, tier, size) as real
  {
    hide IncomeLimit, FirstTier, IndexOf;
    AllTiers(tier);
    assert TIER_ORDER[0..] == TIER_ORDER;
    FirstTierIsLowest(county, size, income, 0, tier);
    var t := Qualified(county, size, Finite(income));
    if t.Some? {
      InOrder(t.value);
      LimitsOrdered(county, size, t.value, tier);
    }
  }

  lemma LimitsOrdered(county: County, size: Number, lower: Tier, higher: Tier)
    requires Valid(county)
    ensures Percent(lower) <= Percent(higher) ==> IncomeLimit(county, lower, size) <= IncomeLimit(county, higher, size)
  {
    if Percent(lower) <= Percent(higher) {
      LimitsRise(county, lower, higher, size, size);
    }
  }

  predicate Offered(county: County, size: Number, income: Number, tier: Tier)
    requires Valid(county)
  {
    tier in QualifyingTiers(Qualified(county, size, income))
  }

  /** The tiers offered are exactly those whose limit the income meets, for any table; an income that
      is negative or no finite number is offered none. */
  lemma QualifiesExactly(county: County, size: Number, income: Number, tier: Tier)
    requires Valid(county)
    ensures Offered(county, size, income, tier)
            <==> income.Finite? && 0.0 <= income.value <= IncomeLimit(county, tier, size) as real
  {
    hide IncomeLimit, FirstTier, IndexOf;
    if income.Finite? && income.value >= 0.0 {
      OfferedIffMet(county, size, income.value, tier);
    }
  }

  /** Every income keeps the tier when the size changes, if and only if the limit does not fall. */
  lemma KeptExactly(county: County, size: Number, other: Number, tier: Tier)
    requires Valid(county)
    ensures (forall income | Offered(county, size, income, tier) :: Offered(county, other, income, tier))
            <==> IncomeLimit(county, tier, size) <= IncomeLimit(county, tier, other)
  {
    hide *;
    forall income: Number, n: Number
      ensures Offered(county, n, income, tier) <==> income.Finite? && 0.0 <= income.value <= IncomeLimit(county, tier, n) as real
    {
      QualifiesExactly(county, n, income, tier);
    }
    LimitNatural(county, tier, size);
    var most := Finite(IncomeLimit(county, tier, size) as real);
    assert Offered(county, size, most, tier);
  }

  lemma LimitNatural(county: County, tier: Tier, size: Number)
    requires Valid(county)
    ensures IncomeLimit(county, tier, size) >= 0
  {
    ProductsRise(0.0, county.mtsp50[ClampHouseholdSize(size) - 1] as real, 0.0, Multiplier(tier));
  }

  /** A larger household keeps every tier, except that an infinite one counts as a single person: it
      keeps the tier exactly when one person has the same limit. */
  lemma LargerHousehold(county: County, size: Number, larger: Number, tier: Tier)
    requires Valid(county) && Monotone(county) && AtMost(size, larger)
    ensures (forall income | Offered(county, size, income, tier) :: Offered(county, larger, income, tier))
            <==> (larger.PlusInfinity? ==> IncomeLimit(county, tier, size) == IncomeLimit(county, tier, Finite(1.0)))
  {
    KeptExactly(county, size, larger, tier);
    if larger.PlusInfinity? {
      hide Offered;
      OnePerson(county, tier, larger, Finite(1.0));
      LimitsRise(county, tier, tier, larger, size);
    } else {
      hide Offered;
      LimitsRise(county, tier, tier, size, larger);
    }
  }

  lemma OnePerson(county: County, tier: Tier, a: Number, b: Number)
    requires Valid(county) && ClampHouseholdSize(a) == ClampHouseholdSize(b)
    ensures IncomeLimit(county, tier, a) == IncomeLimit(county, tier, b)
  {
  }

  /** Two people are offered the 50% tier at an income that an infinite household is refused. */
  lemma InfiniteHousehold() returns (county: County)
    ensures Valid(county) && Monotone(county)
    ensures Offered(county, Finite(2.0), Finite(20.0), T50) && !Offered(county, PlusInfinity, Finite(20.0), T50)
  {
    county := County(seq(MAX_HH, i requires 0 <= i < MAX_HH => 10 * i + 10), map[]);
    SmallCounty(county);
    hide *;
    QualifiesExactly(county, Finite(2.0), Finite(20.0), T50);
    QualifiesExactly(county, PlusInfinity, Finite(20.0), T50);
  }

  lemma SmallCounty(county: County)
    requires |county.mtsp50| == MAX_HH && forall i | 0 <= i < MAX_HH :: county.mtsp50[i] == 10 * i + 10
    ensures Valid(county) && Monotone(county)
    ensures IncomeLimit(county, T50, Finite(2.0)) == 20 && IncomeLimit(county, T50, PlusInfinity) == 10
  {
    assert Round(20.0 * Multiplier(T50)) == 20 && Round(10.0 * Multiplier(T50)) == 10;
  }

  /** The rent cap is the greatest whole rent whose share of 60 stays within the tier. */
  lemma RentGreatest(county: County, tier: Tier, bedroom: string, percent: int, r: int)
    requires bedroom in county.rent60 && StandsFor(tier, percent)
    ensures MaxRent(county, tier, bedroom).Some?
    ensures r <= MaxRent(county, tier, bedroom).value <==> 60 * r <= percent * county.rent60[bedroom]
  {
    assert percent == Percent(tier);
    var rent := county.rent60[bedroom];
    var exact := rent as real * Multiplier(tier) / Multiplier(T60);
    assert 60.0 * exact == (Percent(tier) * rent) as real;
    assert r as real <= exact <==> 60.0 * (r as real) <= 60.0 * exact;
    assert 60.0 * (r as real) == (60 * r) as real;
    assert r <= exact.Floor <==> r as real <= exact;
  }
}
