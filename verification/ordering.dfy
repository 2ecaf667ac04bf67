/** The chronological order the temporal rules walk transactions in, and the
    two binary searches (`bisect_left`, `bisect_right`) used against it. */
module Ordering {
  import opened Seqs

  /** The sort key of `sorted(range(n), key=lambda i: (epoch[i], i))`. */
  datatype Stamp = Stamp(epoch: int, index: nat)

  /** Earlier instant first, then the smaller position. */
  predicate StampLe(a: Stamp, b: Stamp) {
    a.epoch < b.epoch || (a.epoch == b.epoch && a.index <= b.index)
  }

  lemma StampLeTotal()
    ensures TotalPreorder(StampLe)
  {
  }

  /** Every position of `epochs` with its instant. */
  function Stamps(epochs: seq<int>): (r: seq<Stamp>)
    ensures |r| == |epochs|
    ensures forall i :: 0 <= i < |epochs| ==> r[i] == Stamp(epochs[i], i)
  {
    seq(|epochs|, i requires 0 <= i < |epochs| => Stamp(epochs[i], i))
  }

  predicate NonDecreasing(times: seq<int>) {
    forall a, b :: 0 <= a < b < |times| ==> times[a] <= times[b]
  }

  /** The instants of an ordering, in its order (`ordered_times`). */
  function Times(order: seq<Stamp>): (r: seq<int>)
    ensures |r| == |order|
    ensures forall pos :: 0 <= pos < |order| ==> r[pos] == order[pos].epoch
  {
    seq(|order|, pos requires 0 <= pos < |order| => order[pos].epoch)
  }

  /** The positions of `epochs` sorted by instant, ties by position: each position
      appears with its own instant, every entry is one of them, and the instants come
      out in non-decreasing order. */
  function OrderByEpoch(epochs: seq<int>): (order: seq<Stamp>)
    ensures |order| == |epochs| && multiset(order) == multiset(Stamps(epochs))
    ensures forall a, b :: 0 <= a < b < |order| ==> StampLe(order[a], order[b])
    ensures NonDecreasing(Times(order))
    ensures forall pos :: 0 <= pos < |order| ==>
      order[pos].index < |epochs| && order[pos].epoch == epochs[order[pos].index]
    ensures forall i :: 0 <= i < |epochs| ==> Stamp(epochs[i], i) in order
  {
    SortedStamps(epochs);
    SortBy(Stamps(epochs), StampLe)
  }

  lemma SortedStamps(epochs: seq<int>)
    ensures var order := SortBy(Stamps(epochs), StampLe);
      && (forall a, b :: 0 <= a < b < |order| ==> StampLe(order[a], order[b]))
      && (forall pos :: 0 <= pos < |order| ==>
            order[pos].index < |epochs| && order[pos].epoch == epochs[order[pos].index])
      && (forall i :: 0 <= i < |epochs| ==> Stamp(epochs[i], i) in order)
  {
    var stamps := Stamps(epochs);
    var order := SortBy(stamps, StampLe);
    StampLeTotal();
    SortBySorted(stamps, StampLe);
    PermutationMembers(stamps, order);
    forall pos | 0 <= pos < |order|
      ensures order[pos].index < |epochs| && order[pos].epoch == epochs[order[pos].index]
    {
      assert order[pos] in stamps;
    }
    forall i | 0 <= i < |epochs|
      ensures Stamp(epochs[i], i) in order
    {
      assert stamps[i] in stamps;
    }
  }

  /** `l` is where `bisect_left(times, x)` lands: everything before is below `x`,
      everything from it on is at or above `x`. */
  predicate LeftBound(times: seq<int>, x: int, l: int) {
    && 0 <= l <= |times|
    && (forall i :: 0 <= i < l ==> times[i] < x)
    && (forall i :: l <= i < |times| ==> times[i] >= x)
  }

  /** `r` is where `bisect_right(times, x)` lands: everything before is at or below
      `x`, everything from it on is above `x`. */
  predicate RightBound(times: seq<int>, x: int, r: int) {
    && 0 <= r <= |times|
    && (forall i :: 0 <= i < r ==> times[i] <= x)
    && (forall i :: r <= i < |times| ==> times[i] > x)
  }

  method BisectLeft(times: seq<int>, x: int) returns (l: nat)
    requires NonDecreasing(times)
    ensures LeftBound(times, x, l)
  {
    var lo, hi := 0, |times|;
    while lo < hi
      invariant 0 <= lo <= hi <= |times|
      invariant forall i :: 0 <= i < lo ==> times[i] < x
      invariant forall i :: hi <= i < |times| ==> times[i] >= x
    {
      var mid := (lo + hi) / 2;
      if times[mid] < x {
        lo := mid + 1;
      } else {
        hi := mid;
      }
    }
    l := lo;
  }

  method BisectRight(times: seq<int>, x: int) returns (r: nat)
    requires NonDecreasing(times)
    ensures RightBound(times, x, r)
  {
    var lo, hi := 0, |times|;
    while lo < hi
      invariant 0 <= lo <= hi <= |times|
      invariant forall i :: 0 <= i < lo ==> times[i] <= x
      invariant forall i :: hi <= i < |times| ==> times[i] > x
    {
      var mid := (lo + hi) / 2;
      if times[mid] <= x {
        lo := mid + 1;
      } else {
        hi := mid;
      }
    }
    r := lo;
  }

  /** Between the two searches lie exactly the positions whose instant falls in
      `[start, end]`. */
  lemma BoundsSelectRange(times: seq<int>, start: int, end: int, l: int, r: int, k: int)
    requires LeftBound(times, start, l) && RightBound(times, end, r)
    requires 0 <= k < |times|
    ensures l <= k < r <==> start <= times[k] <= end
  {
  }
}
