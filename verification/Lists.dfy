/** Lists. */
module Lists {

  function Flatten<T>(lists: seq<seq<T>>): seq<T> {
    if lists == [] then [] else Flatten(lists[..|lists| - 1]) + lists[|lists| - 1]
  }

  lemma FlattenPush<T>(lists: seq<seq<T>>, last: seq<T>)
    ensures Flatten(lists + [last]) == Flatten(lists) + last
  {
    assert (lists + [last])[..|lists|] == lists;
  }

  lemma FlattenEmpty<T>()
    ensures Flatten<T>([[]]) == []
  {
  }

  ghost predicate Distinct<T>(xs: seq<T>) {
    forall i, j | 0 <= i < j < |xs| :: xs[i] != xs[j]
  }

  function Map<A, B>(f: A -> B, xs: seq<A>): (ys: seq<B>)
    ensures |ys| == |xs| && forall i | 0 <= i < |xs| :: ys[i] == f(xs[i])
  {
    seq(|xs|, i requires 0 <= i < |xs| => f(xs[i]))
  }

  lemma MapPush<A, B>(f: A -> B, xs: seq<A>, x: A)
    ensures Map(f, xs + [x]) == Map(f, xs) + [f(x)]
  {
  }

  /** The elements that pass the test. */
  function Filter<T>(xs: seq<T>, keep: T -> bool): (kept: seq<T>)
    ensures |kept| <= |xs|
    ensures forall x | x in kept :: x in xs && keep(x)
    ensures forall x | x in xs && keep(x) :: x in kept
  {
    if xs == [] then [] else Filter(xs[..|xs| - 1], keep) + (if keep(xs[|xs| - 1]) then [xs[|xs| - 1]] else [])
  }

  lemma FilterPush<T>(xs: seq<T>, x: T, keep: T -> bool)
    ensures Filter(xs + [x], keep) == Filter(xs, keep) + (if keep(x) then [x] else [])
  {
    assert (xs + [x])[..|xs|] == xs;
  }

  /** They keep their order: they stand at rising positions of the list. */
  lemma {:induction false} FilterPositions<T>(xs: seq<T>, keep: T -> bool) returns (at: seq<nat>)
    ensures |at| == |Filter(xs, keep)|
    ensures forall k | 0 <= k < |at| :: at[k] < |xs| && xs[at[k]] == Filter(xs, keep)[k]
    ensures forall j, k | 0 <= j < k < |at| :: at[j] < at[k]
  {
    at := [];
    if xs != [] {
      var front, last := xs[..|xs| - 1], xs[|xs| - 1];
      at := FilterPositions(front, keep);
      FilterPush(front, last, keep);
      assert xs == front + [last];
      hide Filter;
      var kept := Filter(front, keep);
      if keep(last) {
        assert Filter(xs, keep)[|kept|] == last;
        at := at + [|front|];
      }
    }
  }

  /** The kept and the dropped elements together are the elements. */
  lemma {:induction false} FilterParts<T>(xs: seq<T>, keep: T -> bool, drop: T -> bool)
    requires forall x | x in xs :: drop(x) == !keep(x)
    ensures multiset(Filter(xs, keep)) + multiset(Filter(xs, drop)) == multiset(xs)
  {
    if xs != [] {
      var front, last := xs[..|xs| - 1], xs[|xs| - 1];
      assert xs == front + [last] && last in xs && forall x | x in front :: x in xs;
      FilterParts(front, keep, drop);
      FilterPush(front, last, keep);
      FilterPush(front, last, drop);
    }
  }
}
