/** src/db/seed-property-geo.ts: `distributeMix`, the largest-remainder apportionment of a
    total over bedroom counts. The increments go through `order`, a sorted list of the same
    cells that `floored` holds. Shares are exact rationals here. */
module LargestRemainder {
  import opened Lists

  /** One entry of `floored`; only `n` changes. */
  class Cell {
    const bed: int
    const exact: real
    const frac: real
    var n: int

    constructor (bed: int, exact: real)
      ensures this.bed == bed && this.exact == exact && n == exact.Floor && frac == exact - exact.Floor as real
    {
      this.bed := bed;
      this.exact := exact;
      this.n := exact.Floor;
      this.frac := exact - exact.Floor as real;
    }
  }

  // --- Sums ---

  function SumInt(xs: seq<int>): int {
    if xs == [] then 0 else xs[0] + SumInt(xs[1..])
  }

  function SumReal(xs: seq<real>): real {
    if xs == [] then 0.0 else xs[0] + SumReal(xs[1..])
  }

  // --- The shares ---

  function WeightOf(weights: map<int, int>, bed: int): int {
    if bed in weights then weights[bed] else 0
  }

  /** The keys of positive weight, in the order given. */
  function Positive(keys: seq<int>, weights: map<int, int>): (beds: seq<int>)
    ensures forall i | 0 <= i < |beds| :: beds[i] in keys && WeightOf(weights, beds[i]) > 0
  {
    if keys == [] then []
    else (if WeightOf(weights, keys[0]) > 0 then [keys[0]] else []) + Positive(keys[1..], weights)
  }

  function Weights(beds: seq<int>, weights: map<int, int>): seq<int> {
    seq(|beds|, i requires 0 <= i < |beds| => WeightOf(weights, beds[i]))
  }

  function Exact(total: nat, weight: int, weightSum: int): real
    requires weightSum > 0
  {
    total as real * weight as real / weightSum as real
  }

  function Exacts(total: nat, ws: seq<int>, weightSum: int): seq<real>
    requires weightSum > 0
  {
    seq(|ws|, i requires 0 <= i < |ws| => Exact(total, ws[i], weightSum))
  }

  lemma {:induction false} ExactsSum(total: nat, ws: seq<int>, weightSum: int)
    requires weightSum > 0
    ensures SumReal(Exacts(total, ws, weightSum)) == total as real * SumInt(ws) as real / weightSum as real
  {
    var es := Exacts(total, ws, weightSum);
    if ws != [] {
      ExactsSum(total, ws[1..], weightSum);
      assert es[1..] == Exacts(total, ws[1..], weightSum);
      Distribute(total as real, ws[0] as real, SumInt(ws[1..]) as real, weightSum as real);
    }
  }

  lemma Distribute(t: real, a: real, b: real, w: real)
    requires w > 0.0
    ensures t * a / w + t * b / w == t * (a + b) / w
  {
  }

  // --- Deviation ---

  function Abs(x: real): real {
    if x < 0.0 then -x else x
  }

  function Deviation(ns: seq<int>, es: seq<real>): real
    requires |ns| == |es|
  {
    if ns == [] then 0.0 else Abs(ns[0] as real - es[0]) + Deviation(ns[1..], es[1..])
  }

  /** `ns` rounds every share down or up, and whatever is rounded up has a fraction of at least
      `cut`, whatever is rounded down one of at most `cut`. */
  ghost predicate RoundedAt(ns: seq<int>, es: seq<real>, cut: real) {
    && |ns| == |es|
    && forall i | 0 <= i < |ns| ::
         var frac := es[i] - es[i].Floor as real;
         (ns[i] == es[i].Floor && frac <= cut) || (ns[i] == es[i].Floor + 1 && frac >= cut)
  }

  /** What moving `d` units costs at the least, if a unit costs `slope`. */
  function Cost(slope: real, d: int): real {
    slope * d as real
  }

  // Rounded down to 0 or up to 1 of a share `frac`, against any other whole number `d`: four cases.

  lemma DownAbove(d: real, frac: real, cut: real)
    requires d >= 1.0 && 0.0 <= frac <= cut
    ensures (d - frac) - frac >= (1.0 - 2.0 * cut) * d
  {
    assert cut * (d - 1.0) >= 0.0;
    assert (1.0 - 2.0 * cut) * d == d - 2.0 * cut - 2.0 * (cut * (d - 1.0));
  }

  lemma DownBelow(x: real, frac: real, cut: real)
    requires x >= 0.0 && cut <= 1.0
    ensures (x + frac) - frac >= (1.0 - 2.0 * cut) * -x
  {
    assert (1.0 - cut) * x >= 0.0;
    assert (1.0 - 2.0 * cut) * -x == x - 2.0 * ((1.0 - cut) * x);
  }

  lemma UpAbove(y: real, frac: real, cut: real)
    requires y >= 0.0 && cut >= 0.0
    ensures (y + 1.0 - frac) - (1.0 - frac) >= (1.0 - 2.0 * cut) * y
  {
    assert cut * y >= 0.0;
    assert (1.0 - 2.0 * cut) * y == y - 2.0 * (cut * y);
  }

  lemma UpBelow(x: real, frac: real, cut: real)
    requires x >= 0.0 && frac >= cut && cut <= 1.0
    ensures (x + frac) - (1.0 - frac) >= (1.0 - 2.0 * cut) * -(x + 1.0)
  {
    assert (1.0 - cut) * x >= 0.0;
    assert (1.0 - 2.0 * cut) * -(x + 1.0) == x - 1.0 - 2.0 * ((1.0 - cut) * x) + 2.0 * cut;
  }

  /** One share: moving away from the rounding costs at least 1 - 2 * cut per unit. */
  lemma OneShare(n: int, m: int, e: real, cut: real)
    requires var frac := e - e.Floor as real;
             (n == e.Floor && frac <= cut) || (n == e.Floor + 1 && frac >= cut)
    requires 0.0 <= cut <= 1.0
    ensures Abs(m as real - e) - Abs(n as real - e) >= Cost(1.0 - 2.0 * cut, m - n)
  {
    var frac, d := e - e.Floor as real, m - e.Floor;
    assert m as real - e == d as real - frac && n as real - e == (n - e.Floor) as real - frac;
    if n == e.Floor {
      assert m - n == d;
      if d >= 1 { DownAbove(d as real, frac, cut); } else { DownBelow(-d as real, frac, cut); }
    } else {
      assert m - n == d - 1;
      if d >= 1 { UpAbove((d - 1) as real, frac, cut); } else { UpBelow(-d as real, frac, cut); }
    }
  }

  lemma CostSum(slope: real, x: int, y: int)
    ensures Cost(slope, x) + Cost(slope, y) == Cost(slope, x + y)
  {
    assert slope * x as real + slope * y as real == slope * (x as real + y as real);
  }

  lemma {:induction false} DeviationBound(ns: seq<int>, ms: seq<int>, es: seq<real>, cut: real)
    requires RoundedAt(ns, es, cut) && |ms| == |ns| && 0.0 <= cut <= 1.0
    ensures Deviation(ms, es) - Deviation(ns, es) >= Cost(1.0 - 2.0 * cut, SumInt(ms) - SumInt(ns))
  {
    hide Cost, Abs;
    if ns == [] {
      CostSum(1.0 - 2.0 * cut, 0, 0);
    } else {
      OneShare(ns[0], ms[0], es[0], cut);
      RoundedTail(ns, es, cut);
      DeviationBound(ns[1..], ms[1..], es[1..], cut);
      CostSum(1.0 - 2.0 * cut, ms[0] - ns[0], SumInt(ms[1..]) - SumInt(ns[1..]));
    }
  }

  lemma RoundedTail(ns: seq<int>, es: seq<real>, cut: real)
    requires RoundedAt(ns, es, cut) && ns != []
    ensures RoundedAt(ns[1..], es[1..], cut)
  {
    assert forall i | 0 <= i < |ns[1..]| :: ns[1..][i] == ns[i + 1] && es[1..][i] == es[i + 1];
  }

  // --- The method of largest remainders ---

  function Frac(e: real): (f: real)
    ensures 0.0 <= f < 1.0
  {
    e - e.Floor as real
  }

  /** The order of the handed-out extras: larger fraction first, then smaller bed count. */
  predicate Earlier(fracA: real, bedA: int, fracB: real, bedB: int) {
    fracA > fracB || (fracA == fracB && bedA < bedB)
  }

  /** Every share is rounded down or, if it comes early enough in the order, up; the total is
      handed out exactly. */
  ghost predicate IsApportioned(beds: seq<int>, es: seq<real>, total: int, ns: seq<int>) {
    && |ns| == |es| == |beds|
    && (forall i | 0 <= i < |ns| :: ns[i] == es[i].Floor || ns[i] == es[i].Floor + 1)
    && (forall i, j | 0 <= i < |ns| && 0 <= j < |ns| && ns[i] == es[i].Floor + 1 && ns[j] == es[j].Floor ::
          Earlier(Frac(es[i]), beds[i], Frac(es[j]), beds[j]))
    && SumInt(ns) == total
  }

  lemma CutExists(beds: seq<int>, es: seq<real>, total: int, ns: seq<int>) returns (cut: real)
    requires IsApportioned(beds, es, total, ns)
    ensures 0.0 <= cut <= 1.0 && RoundedAt(ns, es, cut)
  {
    cut := 1.0;
    var k := 0;
    while k < |ns|
      invariant 0 <= k <= |ns| && 0.0 <= cut <= 1.0
      invariant forall i | 0 <= i < k && ns[i] == es[i].Floor + 1 :: Frac(es[i]) >= cut
      invariant cut == 1.0 || exists i | 0 <= i < k :: ns[i] == es[i].Floor + 1 && Frac(es[i]) == cut
    {
      if ns[k] == es[k].Floor + 1 && Frac(es[k]) < cut { cut := Frac(es[k]); }
      k := k + 1;
    }
  }

  /** No allocation of the same total to whole numbers deviates less from the exact shares. */
  lemma LeastDeviation(beds: seq<int>, es: seq<real>, total: int, ns: seq<int>, ms: seq<int>)
    requires IsApportioned(beds, es, total, ns) && |ms| == |ns| && SumInt(ms) == total
    ensures Deviation(ns, es) <= Deviation(ms, es)
  {
    var cut := CutExists(beds, es, total, ns);
    DeviationBound(ns, ms, es, cut);
    CostSum(1.0 - 2.0 * cut, 0, 0);
  }

  lemma {:induction false} SumsCompare(ns: seq<int>, es: seq<real>)
    requires |ns| == |es| && forall i | 0 <= i < |ns| :: ns[i] as real >= es[i]
    ensures SumInt(ns) as real >= SumReal(es)
    ensures (exists i | 0 <= i < |ns| :: ns[i] as real > es[i]) ==> SumInt(ns) as real > SumReal(es)
  {
    if ns != [] {
      assert forall i | 0 <= i < |ns[1..]| :: ns[1..][i] == ns[i + 1] && es[1..][i] == es[i + 1];
      SumsCompare(ns[1..], es[1..]);
      if i :| 0 <= i < |ns| && ns[i] as real > es[i] && i > 0 {
        assert ns[1..][i - 1] as real > es[1..][i - 1];
      }
    }
  }

  /** A whole share stays as it is: only a share with a fraction is rounded up. So each bed gets
      the floor or the ceiling of its exact share. */
  lemma OnlyFractionsRoundUp(beds: seq<int>, es: seq<real>, total: int, ns: seq<int>, k: nat)
    requires IsApportioned(beds, es, total, ns) && SumReal(es) == total as real && k < |ns|
    requires ns[k] == es[k].Floor + 1
    ensures Frac(es[k]) > 0.0
  {
    if Frac(es[k]) == 0.0 {
      forall i | 0 <= i < |ns| ensures ns[i] as real >= es[i] {
        if ns[i] == es[i].Floor { assert Earlier(Frac(es[k]), beds[k], Frac(es[i]), beds[i]); }
      }
      assert ns[k] as real > es[k];
      SumsCompare(ns, es);
    }
  }

  lemma {:induction false} SumOrder(ns: seq<int>, ms: seq<int>)
    requires |ns| == |ms| && forall i | 0 <= i < |ns| :: ns[i] <= ms[i]
    ensures SumInt(ns) <= SumInt(ms)
    ensures SumInt(ns) == SumInt(ms) ==> ns == ms
  {
    if ns != [] {
      assert forall i | 0 <= i < |ns[1..]| :: ns[1..][i] == ns[i + 1] && ms[1..][i] == ms[i + 1];
      SumOrder(ns[1..], ms[1..]);
      assert ns == [ns[0]] + ns[1..] && ms == [ms[0]] + ms[1..];
    }
  }

  /** The apportionment is determined by the beds, the shares and the total. */
  lemma ApportionedUnique(beds: seq<int>, es: seq<real>, total: int, ns: seq<int>, ms: seq<int>)
    requires IsApportioned(beds, es, total, ns) && IsApportioned(beds, es, total, ms)
    ensures ns == ms
  {
    if exists j | 0 <= j < |ns| :: ns[j] < ms[j] {
      var j :| 0 <= j < |ns| && ns[j] < ms[j];
      forall i | 0 <= i < |ns| ensures ns[i] <= ms[i] {
      }
      SumOrder(ns, ms);
    } else {
      SumOrder(ms, ns);
    }
  }

  // --- Sorting the cells ---

  function InsertCell(c: Cell, cells: seq<Cell>): (r: seq<Cell>)
    ensures multiset(r) == multiset(cells) + multiset{c} && |r| == |cells| + 1
  {
    if cells == [] || Earlier(c.frac, c.bed, cells[0].frac, cells[0].bed) then [c] + cells
    else
      assert cells == [cells[0]] + cells[1..];
      [cells[0]] + InsertCell(c, cells[1..])
  }

  /** `[...floored].sort(...)`: a new list of the same cells. */
  function SortCells(cells: seq<Cell>): (r: seq<Cell>)
    ensures multiset(r) == multiset(cells) && |r| == |cells|
  {
    if cells == [] then []
    else
      assert cells == [cells[0]] + cells[1..];
      InsertCell(cells[0], SortCells(cells[1..]))
  }

  ghost predicate DistinctBeds(cells: seq<Cell>) {
    forall i, j | 0 <= i < j < |cells| :: cells[i].bed != cells[j].bed
  }

  ghost predicate Sorted(cells: seq<Cell>) {
    forall i, j | 0 <= i < j < |cells| :: Earlier(cells[i].frac, cells[i].bed, cells[j].frac, cells[j].bed)
  }

  lemma {:induction false} InsertSorted(c: Cell, cells: seq<Cell>)
    requires Sorted(cells) && forall i | 0 <= i < |cells| :: cells[i].bed != c.bed
    ensures Sorted(InsertCell(c, cells))
  {
    if cells != [] && !Earlier(c.frac, c.bed, cells[0].frac, cells[0].bed) {
      var rest := cells[1..];
      assert forall i, j | 0 <= i < j < |rest| :: rest[i] == cells[i + 1] && rest[j] == cells[j + 1];
      InsertSorted(c, rest);
      var tail := InsertCell(c, rest);
      forall j | 0 <= j < |tail| ensures Earlier(cells[0].frac, cells[0].bed, tail[j].frac, tail[j].bed) {
        assert tail[j] in multiset(tail);
        if tail[j] != c {
          assert tail[j] in multiset(rest);
          var k :| 0 <= k < |rest| && rest[k] == tail[j];
          assert cells[k + 1] == tail[j];
        }
      }
    }
  }

  lemma {:induction false} SortSorted(cells: seq<Cell>)
    requires DistinctBeds(cells)
    ensures Sorted(SortCells(cells))
  {
    if cells != [] {
      var rest := cells[1..];
      assert forall i, j | 0 <= i < j < |rest| :: rest[i] == cells[i + 1] && rest[j] == cells[j + 1];
      SortSorted(rest);
      var sorted := SortCells(rest);
      forall i | 0 <= i < |sorted| ensures sorted[i].bed != cells[0].bed {
        assert sorted[i] in multiset(sorted);
        assert sorted[i] in multiset(rest);
        var k :| 0 <= k < |rest| && rest[k] == sorted[i];
        assert cells[k + 1] == sorted[i];
      }
      InsertSorted(cells[0], sorted);
    }
  }

  // --- distributeMix ---

  ghost predicate CellsFor(cells: seq<Cell>, beds: seq<int>, es: seq<real>) {
    && |cells| == |beds| == |es|
    && forall i | 0 <= i < |cells| ::
         cells[i].bed == beds[i] && cells[i].exact == es[i] && cells[i].frac == Frac(es[i])
  }

  function Counts(cells: seq<Cell>): (ns: seq<int>)
    reads cells
  {
    seq(|cells|, i requires 0 <= i < |cells| reads cells => cells[i].n)
  }

  /** The result object: only beds with units appear. */
  function Result(beds: seq<int>, ns: seq<int>): map<int, int>
    requires |beds| == |ns|
  {
    if beds == [] then map[]
    else
      var n := |beds| - 1;
      var front := Result(beds[..n], ns[..n]);
      if ns[n] > 0 then front[beds[n] := ns[n]] else front
  }

  lemma {:induction false} ResultShares(beds: seq<int>, ns: seq<int>)
    requires |beds| == |ns| && Distinct(beds) && forall i | 0 <= i < |ns| :: ns[i] >= 0
    ensures forall i | 0 <= i < |beds| :: WeightOf(Result(beds, ns), beds[i]) == ns[i]
    ensures forall b | b in Result(beds, ns) :: b in beds && Result(beds, ns)[b] > 0
  {
    if beds != [] {
      var n := |beds| - 1;
      assert forall i | 0 <= i < n :: beds[..n][i] == beds[i] && ns[..n][i] == ns[i];
      ResultShares(beds[..n], ns[..n]);
    }
  }

  /** How far the floors fall short of the total: at least nothing, less than one per bed. */
  lemma {:induction false} FloorsSum(es: seq<real>, floors: seq<int>)
    requires |floors| == |es| && forall i | 0 <= i < |es| :: floors[i] == es[i].Floor
    ensures SumInt(floors) as real <= SumReal(es)
    ensures es != [] ==> SumReal(es) < (SumInt(floors) + |es|) as real
  {
    if es != [] {
      assert forall i | 0 <= i < |es[1..]| :: es[1..][i] == es[i + 1] && floors[1..][i] == floors[i + 1];
      FloorsSum(es[1..], floors[1..]);
    }
  }

  lemma {:induction false} SumUpdate(ns: seq<int>, j: nat, v: int)
    requires j < |ns|
    ensures SumInt(ns[j := v]) == SumInt(ns) - ns[j] + v
  {
    if j == 0 {
      assert ns[0 := v][1..] == ns[1..];
    } else {
      SumUpdate(ns[1..], j - 1, v);
      assert ns[j := v][1..] == ns[1..][j - 1 := v];
    }
  }

  lemma {:induction false} WeightsPositive(ws: seq<int>)
    requires forall i | 0 <= i < |ws| :: ws[i] > 0
    ensures SumInt(ws) >= 0 && (SumInt(ws) == 0 <==> ws == [])
  {
    if ws != [] { WeightsPositive(ws[1..]); }
  }

  lemma {:induction false} PositiveDistinct(keys: seq<int>, weights: map<int, int>)
    requires Distinct(keys)
    ensures Distinct(Positive(keys, weights))
    ensures forall b :: b in Positive(keys, weights) <==> b in keys && WeightOf(weights, b) > 0
  {
    if keys != [] {
      var rest := keys[1..];
      assert forall i, j | 0 <= i < j < |rest| :: rest[i] == keys[i + 1] && rest[j] == keys[j + 1];
      assert forall b :: b in keys <==> b == keys[0] || b in rest;
      assert keys[0] !in rest;
      PositiveDistinct(rest, weights);
    }
  }

  /** The first `i` cells of the order have got their extra unit, the others not. */
  ghost predicate HandedOut(order: seq<Cell>, i: int)
    reads order
  {
    forall k | 0 <= k < |order| :: order[k].n == order[k].exact.Floor + (if k < i then 1 else 0)
  }

  /** The two lists hold the same cells. */
  ghost predicate SameCells(order: seq<Cell>, floored: seq<Cell>) {
    && |order| == |floored|
    && (forall j | 0 <= j < |floored| :: floored[j] in order)
    && (forall k | 0 <= k < |order| :: order[k] in floored)
  }

  lemma SortSame(floored: seq<Cell>)
    requires DistinctBeds(floored)
    ensures Sorted(SortCells(floored)) && SameCells(SortCells(floored), floored)
  {
    SortSorted(floored);
    var order := SortCells(floored);
    forall j | 0 <= j < |floored| ensures floored[j] in order { assert floored[j] in multiset(floored); assert floored[j] in multiset(order); }
    forall k | 0 <= k < |order| ensures order[k] in floored { assert order[k] in multiset(order); assert order[k] in multiset(floored); }
  }

  /** `raw` and `floored`: a fresh cell for every bed, holding the floor of its share. */
  method MakeCells(beds: seq<int>, es: seq<real>) returns (floored: seq<Cell>)
    requires |es| == |beds|
    ensures CellsFor(floored, beds, es) && (forall i | 0 <= i < |floored| :: fresh(floored[i]))
    ensures forall i | 0 <= i < |floored| :: floored[i].n == es[i].Floor
  {
    floored := [];
    for i := 0 to |beds|
      invariant CellsFor(floored, beds[..i], es[..i]) && forall k | 0 <= k < i :: fresh(floored[k])
      invariant forall k | 0 <= k < i :: floored[k].n == es[k].Floor
    {
      var cell := new Cell(beds[i], es[i]);
      floored := floored + [cell];
    }
  }

  /** `order[i].n += 1` reaches the cell of `floored` that `order[i]` is. */
  method GiveOne(floored: seq<Cell>, order: seq<Cell>, i: nat)
    requires Sorted(order) && SameCells(order, floored) && DistinctBeds(floored) && HandedOut(order, i) && i < |order|
    modifies order[i]
    ensures HandedOut(order, i + 1)
    ensures SumInt(Counts(floored)) == old(SumInt(Counts(floored))) + 1
  {
    hide SumInt;
    ghost var before := Counts(floored);
    ghost var j :| 0 <= j < |floored| && floored[j] == order[i];
    assert forall k | 0 <= k < |order| && k != i :: order[k] != order[i] by {
      assert forall k | 0 <= k < |order| && k != i :: order[k].bed != order[i].bed || order[k].frac != order[i].frac;
    }
    assert forall k | 0 <= k < |floored| && k != j :: floored[k] != floored[j] by {
      assert forall k | 0 <= k < |floored| && k != j :: floored[k].bed != floored[j].bed;
    }
    order[i].n := order[i].n + 1;
    assert Counts(floored) == before[j := before[j] + 1];
    SumUpdate(before, j, before[j] + 1);
  }

  /** The loop that hands out the remainder through `order`, and its effect on `floored`. */
  method HandOut(floored: seq<Cell>, order: seq<Cell>, start: int, total: int)
    requires Sorted(order) && SameCells(order, floored) && DistinctBeds(floored) && HandedOut(order, 0)
    requires start == SumInt(Counts(floored)) && start <= total < start + |order|
    modifies order
    ensures HandedOut(order, total - start)
    ensures SumInt(Counts(floored)) == total
  {
    hide Sorted, SameCells, DistinctBeds, HandedOut, SumInt, Counts;
    var given := start;
    var i := 0;
    while given < total && |order| > 0
      invariant 0 <= i && given == start + i <= total
      invariant HandedOut(order, i)
      invariant SumInt(Counts(floored)) == given
    {
      SmallMod(i, |order|);   // the index never wraps
      GiveOne(floored, order, i % |order|);
      given := given + 1;
      i := i + 1;
    }
  }

  lemma SmallMod(i: nat, n: nat)
    requires i < n
    ensures i % n == i
  {
  }

  /** What the order says about the cells says it about the beds. */
  lemma Apportioned(floored: seq<Cell>, order: seq<Cell>, beds: seq<int>, es: seq<real>, total: int, extra: int)
    requires CellsFor(floored, beds, es) && Sorted(order) && SameCells(order, floored) && HandedOut(order, extra)
    requires SumInt(Counts(floored)) == total
    ensures IsApportioned(beds, es, total, Counts(floored))
  {
    var ns := Counts(floored);
    forall i, j | 0 <= i < |ns| && 0 <= j < |ns| && ns[i] == es[i].Floor + 1 && ns[j] == es[j].Floor
      ensures Earlier(Frac(es[i]), beds[i], Frac(es[j]), beds[j])
    {
      var k :| 0 <= k < |order| && order[k] == floored[i];
      var l :| 0 <= l < |order| && order[l] == floored[j];
      assert k < extra <= l;
    }
    forall i | 0 <= i < |ns| ensures ns[i] == es[i].Floor || ns[i] == es[i].Floor + 1 {
      var k :| 0 <= k < |order| && order[k] == floored[i];
    }
  }

  function WeightSum(keys: seq<int>, weights: map<int, int>): (sum: int)
    ensures sum >= 0 && (sum == 0 <==> Positive(keys, weights) == [])
  {
    WeightsPositive(Weights(Positive(keys, weights), weights));
    SumInt(Weights(Positive(keys, weights), weights))
  }

  /** The exact shares of the beds with a positive weight. */
  function Shares(total: nat, keys: seq<int>, weights: map<int, int>): (es: seq<real>)
    requires WeightSum(keys, weights) > 0
    ensures |es| == |Positive(keys, weights)|
  {
    Exacts(total, Weights(Positive(keys, weights), weights), WeightSum(keys, weights))
  }

  lemma SharesTotal(total: nat, keys: seq<int>, weights: map<int, int>)
    requires WeightSum(keys, weights) > 0
    ensures SumReal(Shares(total, keys, weights)) == total as real
  {
    ExactsSum(total, Weights(Positive(keys, weights), weights), WeightSum(keys, weights));
    Cancel(total as real, WeightSum(keys, weights) as real);
  }

  // --- The result in whole numbers, key by key ---

  /** The sum of the positive values. */
  function PositiveSum(keys: seq<int>, m: map<int, int>): int {
    if keys == [] then 0
    else (if keys[0] in m && m[keys[0]] > 0 then m[keys[0]] else 0) + PositiveSum(keys[1..], m)
  }

  ghost predicate Weighs(keys: seq<int>, weights: map<int, int>, b: int) {
    b in keys && b in weights && weights[b] > 0
  }

  ghost function Amount(out: map<int, int>, b: int): int {
    if b in out then out[b] else 0
  }

  ghost function Quota(total: nat, weight: int, sum: int): int
    requires sum > 0
  {
    total * weight / sum
  }

  ghost function LeftOver(total: nat, weight: int, sum: int): int
    requires sum > 0
  {
    total * weight % sum
  }

  /** Each key of positive weight gets its quota, or one more if something is left over; whoever gets one more
      has more left over than whoever does not, or the same and a smaller key; nobody else gets anything, and
      the amounts add up to the total. */
  ghost predicate Fair(total: nat, keys: seq<int>, weights: map<int, int>, out: map<int, int>) {
    var sum := PositiveSum(keys, weights);
    && sum > 0
    && (forall b | Weighs(keys, weights, b) :: FairShare(total, weights[b], sum, Amount(out, b)))
    && (forall b, c | Weighs(keys, weights, b) && Weighs(keys, weights, c) ::
          Precedes(total, weights, sum, b, Amount(out, b), c, Amount(out, c)))
    && (forall b | b in out :: Weighs(keys, weights, b) && out[b] > 0)
    && PositiveSum(keys, out) == total
  }

  ghost predicate FairShare(total: nat, weight: int, sum: int, amount: int)
    requires sum > 0
  {
    var quota := Quota(total, weight, sum);
    amount == quota || (amount == quota + 1 && LeftOver(total, weight, sum) > 0)
  }

  /** If `b` gets one more and `c` does not, `b` comes first. */
  ghost predicate Precedes(total: nat, weights: map<int, int>, sum: int, b: int, forB: int, c: int, forC: int)
    requires sum > 0 && b in weights && c in weights
  {
    forB == Quota(total, weights[b], sum) + 1 && forC == Quota(total, weights[c], sum) ==>
      var left, other := LeftOver(total, weights[b], sum), LeftOver(total, weights[c], sum);
      left > other || (left == other && b < c)
  }

  lemma {:induction false} PositiveSumIs(keys: seq<int>, weights: map<int, int>, m: map<int, int>)
    requires forall b | b in m :: m[b] > 0 && WeightOf(weights, b) > 0
    ensures PositiveSum(keys, m) == SumInt(Weights(Positive(keys, weights), m))
  {
    if keys != [] {
      PositiveSumIs(keys[1..], weights, m);
      var beds, rest := Positive(keys, weights), Positive(keys[1..], weights);
      if WeightOf(weights, keys[0]) > 0 {
        assert beds == [keys[0]] + rest;
        assert Weights(beds, m)[1..] == Weights(rest, m);
      } else {
        assert beds == rest;
      }
    }
  }

  lemma {:induction false} WeightSumIs(keys: seq<int>, weights: map<int, int>)
    ensures PositiveSum(keys, weights) == SumInt(Weights(Positive(keys, weights), weights)) == WeightSum(keys, weights)
  {
    if keys != [] {
      WeightSumIs(keys[1..], weights);
      var beds, rest := Positive(keys, weights), Positive(keys[1..], weights);
      if WeightOf(weights, keys[0]) > 0 {
        assert beds == [keys[0]] + rest;
        assert Weights(beds, weights)[1..] == Weights(rest, weights);
      } else {
        assert beds == rest;
      }
    }
  }

  /** The exact share as a quotient and a remainder of whole numbers. */
  lemma ShareInWholes(total: nat, weight: int, sum: int)
    requires sum > 0
    ensures Exact(total, weight, sum).Floor == Quota(total, weight, sum)
    ensures Frac(Exact(total, weight, sum)) * sum as real == LeftOver(total, weight, sum) as real
  {
    var due, q, r := total * weight, Quota(total, weight, sum), LeftOver(total, weight, sum);
    assert due == q * sum + r;
    RealProduct(total, weight);
    RealProduct(q, sum);
    QuotientOf(Exact(total, weight, sum), due as real, q, r as real, sum as real);
  }

  lemma RealProduct(a: int, b: int)
    ensures (a * b) as real == a as real * b as real
  {
  }

  lemma QuotientOf(e: real, due: real, q: int, r: real, sum: real)
    requires sum > 0.0 && e == due / sum && due == q as real * sum + r && 0.0 <= r < sum
    ensures e.Floor == q && (e - q as real) * sum == r
  {
    assert e * sum == due;
    Between(e, q as real, r, sum);
  }

  lemma Between(e: real, whole: real, r: real, sum: real)
    requires sum > 0.0 && e * sum == whole * sum + r && 0.0 <= r < sum
    ensures (e - whole) * sum == r && whole <= e < whole + 1.0
  {
    assert (e - whole) * sum == r;
    assert e - whole >= 1.0 ==> (e - whole - 1.0) * sum >= 0.0;
    assert (e - whole - 1.0) * sum == r - sum;
    assert e - whole < 0.0 ==> (whole - e) * sum > 0.0;
  }

  /** The amounts of an apportionment are fair. */
  lemma ApportionedIsFair(total: nat, keys: seq<int>, weights: map<int, int>, ns: seq<int>)
    requires Distinct(keys) && WeightSum(keys, weights) > 0
    requires IsApportioned(Positive(keys, weights), Shares(total, keys, weights), total, ns)
    ensures Fair(total, keys, weights, Result(Positive(keys, weights), ns))
  {
    hide *;
    var beds, es, sum := Positive(keys, weights), Shares(total, keys, weights), PositiveSum(keys, weights);
    SumIs(beds, es, total, ns);
    var out := Result(beds, ns);
    WeightSumIs(keys, weights);
    BedsWeigh(keys, weights);
    NothingNegative(total, keys, weights, ns);
    ResultShares(beds, ns);
    forall k | 0 <= k < |beds| ensures ShareAt(total, weights, sum, beds[k], es[k], ns[k], out) {
      OneFairShare(total, keys, weights, ns, k);
    }
    ResultSum(keys, weights, beds, ns);
    FairFromShares(total, keys, weights, beds, es, ns, out, sum);
  }

  lemma SumIs(beds: seq<int>, es: seq<real>, total: int, ns: seq<int>)
    requires IsApportioned(beds, es, total, ns)
    ensures SumInt(ns) == total && |beds| == |es| == |ns|
  {
  }

  lemma BedsWeigh(keys: seq<int>, weights: map<int, int>)
    requires Distinct(keys)
    ensures Distinct(Positive(keys, weights))
    ensures forall b :: b in Positive(keys, weights) <==> Weighs(keys, weights, b)
  {
    PositiveDistinct(keys, weights);
  }

  lemma NothingNegative(total: nat, keys: seq<int>, weights: map<int, int>, ns: seq<int>)
    requires WeightSum(keys, weights) > 0
    requires IsApportioned(Positive(keys, weights), Shares(total, keys, weights), total, ns)
    ensures |ns| == |Positive(keys, weights)| && forall i | 0 <= i < |ns| :: ns[i] >= 0
  {
    SharesNotNegative(total, keys, weights);
    hide Shares, WeightSum, SumInt, Positive;
  }

  lemma OneFairShare(total: nat, keys: seq<int>, weights: map<int, int>, ns: seq<int>, k: nat)
    requires Distinct(keys) && WeightSum(keys, weights) > 0
    requires IsApportioned(Positive(keys, weights), Shares(total, keys, weights), total, ns)
    requires k < |ns| == |Positive(keys, weights)| && forall i | 0 <= i < |ns| :: ns[i] >= 0
    ensures ShareAt(total, weights, PositiveSum(keys, weights), Positive(keys, weights)[k], Shares(total, keys, weights)[k], ns[k],
                    Result(Positive(keys, weights), ns))
  {
    hide *;
    var beds, es, sum := Positive(keys, weights), Shares(total, keys, weights), PositiveSum(keys, weights);
    WeightSumIs(keys, weights);
    BedsWeigh(keys, weights);
    BedAt(keys, weights, k);
    ShareIs(total, keys, weights, k);
    ShareInWholes(total, weights[beds[k]], sum);
    SharesTotal(total, keys, weights);
    ResultShares(beds, ns);
    Rounded(total, weights, sum, beds, es, ns, k);
  }

  lemma BedAt(keys: seq<int>, weights: map<int, int>, k: nat)
    requires k < |Positive(keys, weights)|
    ensures var b := Positive(keys, weights)[k]; b in weights && weights[b] > 0 && b in Positive(keys, weights)
    ensures PositiveSum(keys, weights) == WeightSum(keys, weights) > 0
  {
    WeightSumIs(keys, weights);
  }

  lemma ShareIs(total: nat, keys: seq<int>, weights: map<int, int>, k: nat)
    requires WeightSum(keys, weights) > 0 && k < |Positive(keys, weights)|
    requires Positive(keys, weights)[k] in weights
    ensures PositiveSum(keys, weights) == WeightSum(keys, weights)
    ensures Shares(total, keys, weights)[k] == Exact(total, weights[Positive(keys, weights)[k]], PositiveSum(keys, weights))
  {
    WeightSumIs(keys, weights);
    hide Positive, PositiveSum, SumInt, Exact;
  }

  /** What is known of the bed at one position. */
  ghost predicate ShareAt(total: nat, weights: map<int, int>, sum: int, bed: int, e: real, n: int, out: map<int, int>) {
    && sum > 0 && bed in weights && weights[bed] > 0 && Amount(out, bed) == n
    && e.Floor == Quota(total, weights[bed], sum) && Frac(e) * sum as real == LeftOver(total, weights[bed], sum) as real
    && FairShare(total, weights[bed], sum, n)
  }

  lemma Rounded(total: nat, weights: map<int, int>, sum: int, beds: seq<int>, es: seq<real>, ns: seq<int>, k: nat)
    requires sum > 0 && |beds| == |es| == |ns| && k < |beds| && beds[k] in weights && weights[beds[k]] > 0
    requires IsApportioned(beds, es, total, ns) && SumReal(es) == total as real
    requires es[k].Floor == Quota(total, weights[beds[k]], sum)
    requires Frac(es[k]) * sum as real == LeftOver(total, weights[beds[k]], sum) as real
    requires WeightOf(Result(beds, ns), beds[k]) == ns[k]
    ensures ShareAt(total, weights, sum, beds[k], es[k], ns[k], Result(beds, ns))
  {
    hide Quota, LeftOver, SumInt, SumReal, Result, Frac;
    if ns[k] == es[k].Floor + 1 {
      OnlyFractionsRoundUp(beds, es, total, ns, k);
      PositiveProduct(Frac(es[k]), sum as real);
    }
  }

  lemma PositiveProduct(x: real, y: real)
    requires x > 0.0 && y > 0.0
    ensures x * y > 0.0
  {
  }

  lemma ResultSum(keys: seq<int>, weights: map<int, int>, beds: seq<int>, ns: seq<int>)
    requires beds == Positive(keys, weights) && |beds| == |ns| && Distinct(beds) && forall i | 0 <= i < |ns| :: ns[i] >= 0
    ensures PositiveSum(keys, Result(beds, ns)) == SumInt(ns)
  {
    ResultShares(beds, ns);
    var out := Result(beds, ns);
    PositiveSumIs(keys, weights, out);
    assert Weights(beds, out) == ns;
  }

  lemma FairFromShares(total: nat, keys: seq<int>, weights: map<int, int>, beds: seq<int>, es: seq<real>, ns: seq<int>,
                       out: map<int, int>, sum: int)
    requires sum == PositiveSum(keys, weights) && sum > 0 && IsApportioned(beds, es, total, ns)
    requires forall b :: b in beds <==> Weighs(keys, weights, b)
    requires |beds| == |es| == |ns| && forall k | 0 <= k < |beds| :: ShareAt(total, weights, sum, beds[k], es[k], ns[k], out)
    requires forall b | b in out :: b in beds && out[b] > 0
    requires PositiveSum(keys, out) == total
    ensures Fair(total, keys, weights, out)
  {
    hide PositiveSum, SumInt, Quota, LeftOver, Frac, Amount, FairShare, IsApportioned, Precedes;
    forall b, c | b in beds && c in beds ensures Precedes(total, weights, sum, b, Amount(out, b), c, Amount(out, c)) {
      var i :| 0 <= i < |beds| && beds[i] == b;
      var j :| 0 <= j < |beds| && beds[j] == c;
      assert ShareAt(total, weights, sum, beds[i], es[i], ns[i], out) && ShareAt(total, weights, sum, beds[j], es[j], ns[j], out);
      Ranked(total, weights, sum, beds, es, ns, out, i, j);
    }
  }

  lemma Ranked(total: nat, weights: map<int, int>, sum: int, beds: seq<int>, es: seq<real>, ns: seq<int>,
               out: map<int, int>, i: nat, j: nat)
    requires sum > 0 && IsApportioned(beds, es, total, ns) && i < |beds| && j < |beds|
    requires ShareAt(total, weights, sum, beds[i], es[i], ns[i], out) && ShareAt(total, weights, sum, beds[j], es[j], ns[j], out)
    ensures Precedes(total, weights, sum, beds[i], ns[i], beds[j], ns[j])
  {
    hide SumInt, Quota, LeftOver, Frac, Amount, FairShare;
    SameOrder(Frac(es[i]), Frac(es[j]), sum as real);
  }

  lemma SameOrder(x: real, y: real, sum: real)
    requires sum > 0.0
    ensures x > y <==> x * sum > y * sum
    ensures x == y <==> x * sum == y * sum
  {
    assert x > y ==> (x - y) * sum > 0.0;
    assert x < y ==> (y - x) * sum > 0.0;
  }

  /** `distributeMix`. The keys are those of `weights`, in the order of `Object.keys`. */
  method DistributeMix(total: nat, keys: seq<int>, weights: map<int, int>) returns (out: map<int, int>)
    requires Distinct(keys)
    ensures PositiveSum(keys, weights) == 0 || total == 0 ==> out == map[]
    ensures PositiveSum(keys, weights) > 0 && total > 0 ==> Fair(total, keys, weights, out)
    ensures WeightSum(keys, weights) == PositiveSum(keys, weights)
    ensures WeightSum(keys, weights) > 0 && total > 0 ==>
              exists ns :: IsApportioned(Positive(keys, weights), Shares(total, keys, weights), total, ns)
                           && out == Result(Positive(keys, weights), ns)
  {
    WeightSumIs(keys, weights);
    assert WeightSum(keys, weights) == PositiveSum(keys, weights);
    hide PositiveSum, Fair;
    hide Shares, WeightSum, Result, SumReal, SumInt, IsApportioned, Sorted, SameCells;
    var beds := Positive(keys, weights);
    if WeightSum(keys, weights) == 0 || total == 0 { return map[]; }
    PositiveDistinct(keys, weights);
    var es := Shares(total, keys, weights);
    SharesTotal(total, keys, weights);
    var floored := MakeCells(beds, es);
    FloorsSum(es, Counts(floored));
    var start := SumInt(Counts(floored));
    SortSame(floored);
    var order := SortCells(floored);
    OrderFresh(floored, order);
    HandOut(floored, order, start, total);
    Apportioned(floored, order, beds, es, total, total - start);
    out := Result(beds, Counts(floored));
    ApportionedIsFair(total, keys, weights, Counts(floored));
  }

  lemma OrderFresh(floored: seq<Cell>, order: seq<Cell>)
    requires SameCells(order, floored) && forall j | 0 <= j < |floored| :: floored[j].n == floored[j].exact.Floor
    ensures HandedOut(order, 0) && forall k | 0 <= k < |order| :: order[k] in floored
  {
  }

  lemma Cancel(t: real, w: real)
    requires w > 0.0
    ensures t * w / w == t
  {
  }

  /** What the result of `distributeMix` means for a caller: every unit is handed out, each bed
      of positive weight gets the floor or the ceiling of its exact share and every other bed
      nothing, and no other whole-number allocation of the total comes closer to the shares. */
  lemma DistributeMixIsFair(total: nat, keys: seq<int>, weights: map<int, int>, ns: seq<int>, k: nat, ms: seq<int>)
    requires Distinct(keys) && WeightSum(keys, weights) > 0
    requires IsApportioned(Positive(keys, weights), Shares(total, keys, weights), total, ns)
    requires k < |ns| == |ms| && SumInt(ms) == total
    ensures var beds, es := Positive(keys, weights), Shares(total, keys, weights);
            && SumInt(ns) == total
            && WeightOf(Result(beds, ns), beds[k]) == ns[k]
            && (forall b | b !in beds :: WeightOf(Result(beds, ns), b) == 0)
            && beds[k] in weights && PositiveSum(keys, weights) > 0
            && FairShare(total, weights[beds[k]], PositiveSum(keys, weights), ns[k])
            && (ns[k] == es[k].Floor || (ns[k] == es[k].Floor + 1 && Frac(es[k]) > 0.0))
            && Deviation(ns, es) <= Deviation(ms, es)
  {
    hide *;
    var beds := Positive(keys, weights);
    var es := Shares(total, keys, weights);
    SharesTotal(total, keys, weights);
    BedsWeigh(keys, weights);
    NothingNegative(total, keys, weights, ns);
    SumIs(beds, es, total, ns);
    ResultShares(beds, ns);
    NoneElse(beds, ns);
    LeastDeviation(beds, es, total, ns, ms);
    BedAt(keys, weights, k);
    OneFairShare(total, keys, weights, ns, k);
    RoundedUp(total, weights, PositiveSum(keys, weights), beds, es, ns, k);
  }

  lemma NoneElse(beds: seq<int>, ns: seq<int>)
    requires |beds| == |ns| && forall b | b in Result(beds, ns) :: b in beds
    ensures forall b | b !in beds :: WeightOf(Result(beds, ns), b) == 0
  {
  }

  lemma RoundedUp(total: nat, weights: map<int, int>, sum: int, beds: seq<int>, es: seq<real>, ns: seq<int>, k: nat)
    requires IsApportioned(beds, es, total, ns) && SumReal(es) == total as real && k < |ns| == |beds| == |es|
    requires ShareAt(total, weights, sum, beds[k], es[k], ns[k], Result(beds, ns))
    ensures beds[k] in weights && sum > 0 && FairShare(total, weights[beds[k]], sum, ns[k])
    ensures ns[k] == es[k].Floor || (ns[k] == es[k].Floor + 1 && Frac(es[k]) > 0.0)
  {
    hide SumInt, SumReal, Result, Frac, FairShare;
    if ns[k] == es[k].Floor + 1 { OnlyFractionsRoundUp(beds, es, total, ns, k); }
  }

  lemma SharesNotNegative(total: nat, keys: seq<int>, weights: map<int, int>)
    requires WeightSum(keys, weights) > 0
    ensures forall i | 0 <= i < |Shares(total, keys, weights)| :: Shares(total, keys, weights)[i] >= 0.0
  {
    var ws := Weights(Positive(keys, weights), weights);
    forall i | 0 <= i < |ws| ensures Exacts(total, ws, WeightSum(keys, weights))[i] >= 0.0 {
      assert total as real * ws[i] as real >= 0.0;
    }
  }
}
