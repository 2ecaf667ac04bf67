/** The `k` rule: evaluation windows. `_merge_k_periods` fuses overlapping or
    adjacent windows, `_membership_in_k` decides which transactions fall inside
    some window, and `aggregate_savings_by_k` sums the contributions per window. */
module Windows {
  import opened Records
  import opened Seqs
  import opened Ordering
  import opened TimeUtils

  /** A closed range of seconds `[start, end]`. */
  datatype Span = Span(start: int, end: int)

  predicate SpanLe(a: Span, b: Span) {
    a.start < b.start || (a.start == b.start && a.end <= b.end)
  }

  lemma SpanLeTotal()
    ensures TotalPreorder(SpanLe)
  {
  }

  predicate InSpan(s: Span, t: int) {
    s.start <= t <= s.end
  }

  predicate Covers(spans: seq<Span>, t: int) {
    exists i :: 0 <= i < |spans| && InSpan(spans[i], t)
  }

  /** Non-empty spans in increasing order with at least one uncovered second
      between consecutive ones. */
  predicate Separated(spans: seq<Span>) {
    && (forall i :: 0 <= i < |spans| ==> spans[i].start <= spans[i].end)
    && (forall a, b :: 0 <= a < b < |spans| ==> spans[a].end + 1 < spans[b].start)
  }

  function SpanOf(p: Period): Span {
    Span(p.start.epoch, p.end.epoch)
  }

  function Spans(ks: seq<Period>): (r: seq<Span>)
    ensures |r| == |ks| && forall j :: 0 <= j < |ks| ==> r[j] == SpanOf(ks[j])
  {
    seq(|ks|, j requires 0 <= j < |ks| => SpanOf(ks[j]))
  }

  /** The windows' bounds sorted by start, then end. */
  function SortedSpans(ks: seq<Period>): (r: seq<Span>)
    requires Ordered(ks)
    ensures |r| == |ks|
    ensures forall a, b :: 0 <= a < b < |r| ==> SpanLe(r[a], r[b])
    ensures forall i :: 0 <= i < |r| ==> r[i].start <= r[i].end
    ensures forall t :: Covers(r, t) <==> InSomePeriod(ks, t)
  {
    var r := SortBy(Spans(ks), SpanLe);
    SortedSpansCover(ks, r);
    r
  }

  lemma SortedSpansCover(ks: seq<Period>, r: seq<Span>)
    requires Ordered(ks) && r == SortBy(Spans(ks), SpanLe)
    ensures forall a, b :: 0 <= a < b < |r| ==> SpanLe(r[a], r[b])
    ensures forall i :: 0 <= i < |r| ==> r[i].start <= r[i].end
    ensures forall t :: Covers(r, t) <==> InSomePeriod(ks, t)
  {
    var spans := Spans(ks);
    SpanLeTotal();
    SortBySorted(spans, SpanLe);
    PermutationMembers(spans, r);
    hide SortBy;
    forall i | 0 <= i < |r|
      ensures r[i].start <= r[i].end
    {
      assert r[i] in spans;
    }
    forall t
      ensures Covers(r, t) <==> InSomePeriod(ks, t)
    {
      if Covers(r, t) {
        var i :| 0 <= i < |r| && InSpan(r[i], t);
        assert r[i] in spans;
      }
      if InSomePeriod(ks, t) {
        var j :| 0 <= j < |ks| && Contains(ks[j], t);
        assert spans[j] in r;
      }
    }
  }

  /** The merge loop's state after the first `i` sorted spans: the closed spans and the
      open one `current` are separated and together cover what those `i` spans cover. */
  ghost predicate MergeState(sorted: seq<Span>, i: nat, merged: seq<Span>, current: Span) {
    && 1 <= i <= |sorted|
    && Separated(merged + [current])
    && (forall j :: i <= j < |sorted| ==> current.start <= sorted[j].start)
    && (forall t :: Covers(merged + [current], t) <==> Covers(sorted[..i], t))
  }

  lemma MergeStart(sorted: seq<Span>)
    requires |sorted| > 0
    requires forall a, b :: 0 <= a < b < |sorted| ==> SpanLe(sorted[a], sorted[b])
    requires forall i :: 0 <= i < |sorted| ==> sorted[i].start <= sorted[i].end
    ensures MergeState(sorted, 1, [], sorted[0])
  {
    assert [] + [sorted[0]] == sorted[..1];
  }

  lemma CoversAppend(spans: seq<Span>, x: Span, t: int)
    ensures Covers(spans + [x], t) <==> Covers(spans, t) || InSpan(x, t)
  {
    if Covers(spans + [x], t) {
      var j :| 0 <= j < |spans| + 1 && InSpan((spans + [x])[j], t);
      if j < |spans| {
        assert (spans + [x])[j] == spans[j];
      }
    }
    if Covers(spans, t) {
      var j :| 0 <= j < |spans| && InSpan(spans[j], t);
      assert (spans + [x])[j] == spans[j];
    }
    assert (spans + [x])[|spans|] == x;
  }

  lemma CoversPrefix(sorted: seq<Span>, i: nat, t: int)
    requires i < |sorted|
    ensures Covers(sorted[..i + 1], t) <==> Covers(sorted[..i], t) || InSpan(sorted[i], t)
  {
    assert sorted[..i + 1] == sorted[..i] + [sorted[i]];
    CoversAppend(sorted[..i], sorted[i], t);
  }

  /** A span that starts no later than one second after the open span's end extends it. */
  lemma MergeExtend(sorted: seq<Span>, i: nat, merged: seq<Span>, current: Span)
    requires forall a, b :: 0 <= a < b < |sorted| ==> SpanLe(sorted[a], sorted[b])
    requires forall i :: 0 <= i < |sorted| ==> sorted[i].start <= sorted[i].end
    requires MergeState(sorted, i, merged, current) && i < |sorted|
    requires sorted[i].start <= current.end + 1
    ensures MergeState(sorted, i + 1, merged,
                       Span(current.start, if sorted[i].end > current.end then sorted[i].end else current.end))
  {
    var next := sorted[i];
    var grown := Span(current.start, if next.end > current.end then next.end else current.end);
    forall t
      ensures Covers(merged + [grown], t) <==> Covers(sorted[..i + 1], t)
    {
      CoversPrefix(sorted, i, t);
      CoversAppend(merged, current, t);
      CoversAppend(merged, grown, t);
    }
    forall j | i + 1 <= j < |sorted|
      ensures grown.start <= sorted[j].start
    {
    }
    forall a, b | 0 <= a < b < |merged + [grown]|
      ensures (merged + [grown])[a].end + 1 < (merged + [grown])[b].start
    {
      assert (merged + [current])[a].end + 1 < (merged + [current])[b].start;
    }
    assert forall a :: 0 <= a < |merged| ==> (merged + [current])[a] == merged[a];
    assert (merged + [current])[|merged|] == current;
  }

  /** A span that starts further out closes the open span and opens a new one. */
  lemma MergeClose(sorted: seq<Span>, i: nat, merged: seq<Span>, current: Span)
    requires forall a, b :: 0 <= a < b < |sorted| ==> SpanLe(sorted[a], sorted[b])
    requires forall i :: 0 <= i < |sorted| ==> sorted[i].start <= sorted[i].end
    requires MergeState(sorted, i, merged, current) && i < |sorted|
    requires sorted[i].start > current.end + 1
    ensures MergeState(sorted, i + 1, merged + [current], sorted[i])
  {
    var next := sorted[i];
    var closed := merged + [current];
    forall t
      ensures Covers(closed + [next], t) <==> Covers(sorted[..i + 1], t)
    {
      CoversPrefix(sorted, i, t);
      CoversAppend(closed, next, t);
    }
    forall j | i + 1 <= j < |sorted|
      ensures next.start <= sorted[j].start
    {
      assert SpanLe(sorted[i], sorted[j]);
    }
    forall a, b | 0 <= a < b < |closed + [next]|
      ensures (closed + [next])[a].end + 1 < (closed + [next])[b].start
    {
      if b < |closed| {
        assert (closed + [next])[a] == closed[a] && (closed + [next])[b] == closed[b];
      } else if a < |merged| {
        assert (closed + [next])[a] == closed[a];
        assert closed[a].end + 1 < closed[|merged|].start;
      }
    }
  }

  /** `_merge_k_periods`: the windows' bounds fused into separated spans that cover
      exactly the seconds some window covers. */
  method MergeKPeriods(ks: seq<Period>) returns (merged: seq<Span>)
    requires Ordered(ks)
    ensures |merged| == 0 <==> |ks| == 0
    ensures Separated(merged)
    ensures forall t :: Covers(merged, t) <==> InSomePeriod(ks, t)
  {
    if |ks| == 0 {
      return [];
    }
    var sorted := SortedSpans(ks);
    MergeStart(sorted);
    merged := [];
    var current := sorted[0];
    for i := 1 to |sorted|
      invariant MergeState(sorted, i, merged, current)
    {
      var next := sorted[i];
      if next.start <= current.end + 1 {
        MergeExtend(sorted, i, merged, current);
        if next.end > current.end {
          current := Span(current.start, next.end);
        }
        continue;
      }
      MergeClose(sorted, i, merged, current);
      merged := merged + [current];
      current := next;
    }
    assert sorted[..|sorted|] == sorted;
    merged := merged + [current];
  }

  // ---------------------------------------------------------------- membership

  /** The interval pointer at instant `ts`: every span before it ended before `ts`. */
  predicate PointerBehind(merged: seq<Span>, pointer: nat, ts: int) {
    pointer <= |merged| && forall i :: 0 <= i < pointer ==> merged[i].end < ts
  }

  /** After skipping the spans that ended before `ts`, the span under the pointer decides
      whether `ts` is covered at all. */
  lemma PointerReadsCover(merged: seq<Span>, pointer: nat, ts: int)
    requires Separated(merged) && PointerBehind(merged, pointer, ts)
    requires pointer == |merged| || merged[pointer].end >= ts
    ensures Covers(merged, ts) <==> pointer < |merged| && InSpan(merged[pointer], ts)
  {
    if Covers(merged, ts) {
      var i :| 0 <= i < |merged| && InSpan(merged[i], ts);
    }
  }

  method SkipEnded(merged: seq<Span>, pointer: nat, ts: int) returns (pointer': nat)
    requires PointerBehind(merged, pointer, ts)
    ensures PointerBehind(merged, pointer', ts)
    ensures pointer' == |merged| || merged[pointer'].end >= ts
  {
    pointer' := pointer;
    while pointer' < |merged| && merged[pointer'].end < ts
      invariant PointerBehind(merged, pointer', ts)
      decreases |merged| - pointer'
    {
      pointer' := pointer' + 1;
    }
  }

  /** The flags decided so far: entries visited are right, and no entry claims
      membership it does not have. */
  predicate FlagsSoFar(epochs: seq<int>, merged: seq<Span>, order: seq<Stamp>, pos: nat, memberships: seq<bool>) {
    && |memberships| == |epochs| && pos <= |order|
    && (forall p :: 0 <= p < pos ==>
          order[p].index < |epochs| && memberships[order[p].index] == Covers(merged, epochs[order[p].index]))
    && (forall j :: 0 <= j < |epochs| && memberships[j] ==> Covers(merged, epochs[j]))
  }

  /** One transaction of the membership walk, in chronological order. */
  method MembershipStep(epochs: seq<int>, merged: seq<Span>, order: seq<Stamp>, pos: nat,
                        memberships: seq<bool>, pointer: nat)
    returns (memberships': seq<bool>, pointer': nat)
    requires Separated(merged)
    requires pos < |order|
    requires order[pos].index < |epochs| && order[pos].epoch == epochs[order[pos].index]
    requires FlagsSoFar(epochs, merged, order, pos, memberships)
    requires PointerBehind(merged, pointer, order[pos].epoch)
    ensures FlagsSoFar(epochs, merged, order, pos + 1, memberships')
    ensures PointerBehind(merged, pointer', order[pos].epoch)
  {
    var index := order[pos].index;
    var ts := epochs[index];
    pointer' := SkipEnded(merged, pointer, ts);
    PointerReadsCover(merged, pointer', ts);
    memberships' := memberships;
    if pointer' < |merged| {
      var span := merged[pointer'];
      memberships' := memberships[index := span.start <= ts <= span.end];
    }
  }

  /** `_membership_in_k`: with no windows every transaction is in; otherwise a transaction
      is in exactly when some window contains its instant. */
  method MembershipInK(epochs: seq<int>, ks: seq<Period>) returns (memberships: seq<bool>)
    requires Ordered(ks)
    ensures |memberships| == |epochs|
    ensures |ks| == 0 ==> forall i :: 0 <= i < |epochs| ==> memberships[i]
    ensures |ks| > 0 ==> forall i :: 0 <= i < |epochs| ==> (memberships[i] <==> InSomePeriod(ks, epochs[i]))
  {
    if |epochs| == 0 {
      return [];
    }
    if |ks| == 0 {
      return seq(|epochs|, _ => true);
    }
    var order := OrderByEpoch(epochs);
    var merged := MergeKPeriods(ks);
    memberships := seq(|epochs|, _ => false);
    var pointer := 0;
    var prev := order[0].epoch;
    assert FlagsSoFar(epochs, merged, order, 0, memberships);
    assert forall a, b :: 0 <= a < b < |order| ==> order[a].epoch <= order[b].epoch by {
      assert NonDecreasing(Times(order));
    }
    for pos := 0 to |order|
      invariant FlagsSoFar(epochs, merged, order, pos, memberships)
      invariant PointerBehind(merged, pointer, prev)
      invariant pos < |order| ==> prev <= order[pos].epoch
    {
      memberships, pointer := MembershipStep(epochs, merged, order, pos, memberships, pointer);
      prev := order[pos].epoch;
    }
    forall i | 0 <= i < |epochs|
      ensures memberships[i] <==> InSomePeriod(ks, epochs[i])
    {
      var p :| 0 <= p < |order| && order[p] == Stamp(epochs[i], i);
    }
  }

  // ---------------------------------------------------------------- aggregation

  predicate EpochLe(a: Contribution, b: Contribution) {
    a.epoch <= b.epoch
  }

  lemma EpochLeTotal()
    ensures TotalPreorder(EpochLe)
  {
  }

  predicate ByEpoch(cs: seq<Contribution>) {
    forall a, b :: 0 <= a < b < |cs| ==> cs[a].epoch <= cs[b].epoch
  }

  function ContributionAmount(c: Contribution): int {
    c.amount
  }

  /** The amount of a contribution made within `[lo, hi]`, and 0 otherwise. */
  function Within(lo: int, hi: int): Contribution -> int {
    (c: Contribution) => if lo <= c.epoch <= hi then c.amount else 0
  }

  /** The total contributed within `[lo, hi]`, both ends included. */
  function WindowSum(cs: seq<Contribution>, lo: int, hi: int): int {
    Sum(cs, Within(lo, hi))
  }

  /** One window's result: its bounds as given and the amount saved in it. */
  datatype Saving = Saving(start: Instant, end: Instant, amount: int)

  function ContributionTimes(cs: seq<Contribution>): (r: seq<int>)
    ensures |r| == |cs| && forall i :: 0 <= i < |cs| ==> r[i] == cs[i].epoch
  {
    seq(|cs|, i requires 0 <= i < |cs| => cs[i].epoch)
  }

  /** The difference of two prefix sums taken at the two bisection points is the sum
      over the window. */
  lemma PrefixWindow(cs: seq<Contribution>, lo: int, hi: int, l: nat, r: nat)
    requires ByEpoch(cs)
    requires LeftBound(ContributionTimes(cs), lo, l) && RightBound(ContributionTimes(cs), hi, r)
    requires l <= r
    ensures Sum(cs[..r], ContributionAmount) - Sum(cs[..l], ContributionAmount) == WindowSum(cs, lo, hi)
  {
    var times := ContributionTimes(cs);
    assert cs[..r] == cs[..l] + cs[l..r];
    SumAppend(cs[..l], cs[l..r], ContributionAmount);
    assert cs == (cs[..l] + cs[l..r]) + cs[r..];
    SumAppend(cs[..l] + cs[l..r], cs[r..], Within(lo, hi));
    SumAppend(cs[..l], cs[l..r], Within(lo, hi));
    forall i | 0 <= i < |cs[..l]|
      ensures Within(lo, hi)(cs[..l][i]) == 0
    {
      assert times[i] < lo;
    }
    SumZero(cs[..l], Within(lo, hi));
    forall i | 0 <= i < |cs[r..]|
      ensures Within(lo, hi)(cs[r..][i]) == 0
    {
      assert times[r + i] > hi;
    }
    SumZero(cs[r..], Within(lo, hi));
    forall i | 0 <= i < |cs[l..r]|
      ensures Within(lo, hi)(cs[l..r][i]) == ContributionAmount(cs[l..r][i])
    {
      assert lo <= times[l + i] <= hi;
    }
    SumCongruent(cs[l..r], Within(lo, hi), ContributionAmount);
  }

  /** The window amount `prefix[right] - prefix[left]`: for a window with start <= end
      the total contributed inside it; for a reversed one, the negated total contributed
      strictly between its end and its start. */
  lemma BisectedAmount(cs: seq<Contribution>, start: int, end: int, l: nat, r: nat)
    requires ByEpoch(cs)
    requires LeftBound(ContributionTimes(cs), start, l) && RightBound(ContributionTimes(cs), end, r)
    ensures var amount := Sum(cs[..r], ContributionAmount) - Sum(cs[..l], ContributionAmount);
      && (start <= end ==> amount == WindowSum(cs, start, end))
      && (start > end ==> amount == -WindowSum(cs, end + 1, start - 1))
  {
    var times := ContributionTimes(cs);
    assert r < l ==> end < times[r] < start;
    assert l < r ==> start <= times[l] <= end;
    if start <= end {
      PrefixWindow(cs, start, end, l, r);
    } else {
      PrefixWindow(cs, end + 1, start - 1, r, l);
    }
  }

  /** `prefix`: the running totals of the ordered contributions. */
  method PrefixSums(cs: seq<Contribution>) returns (prefix: seq<int>)
    ensures |prefix| == |cs| + 1
    ensures forall k :: 0 <= k <= |cs| ==> prefix[k] == Sum(cs[..k], ContributionAmount)
  {
    prefix := [0];
    for k := 0 to |cs|
      invariant |prefix| == k + 1
      invariant forall j :: 0 <= j <= k ==> prefix[j] == Sum(cs[..j], ContributionAmount)
    {
      SumExtend(cs, k, ContributionAmount);
      prefix := prefix + [prefix[k] + cs[k].amount];
    }
  }

  /** What a saving for window `period` holds: its bounds as given, and the total
      contributed inside it (for a reversed window, minus the total strictly between
      its end and its start). */
  predicate SavesWindow(cs: seq<Contribution>, period: Period, saving: Saving) {
    && saving.start == period.start && saving.end == period.end
    && (period.start.epoch <= period.end.epoch ==>
          saving.amount == WindowSum(cs, period.start.epoch, period.end.epoch))
    && (period.start.epoch > period.end.epoch ==>
          saving.amount == -WindowSum(cs, period.end.epoch + 1, period.start.epoch - 1))
  }

  /** One window: bisect both bounds and take the difference of the prefix sums. */
  method WindowAmount(ordered: seq<Contribution>, times: seq<int>, prefix: seq<int>, period: Period)
    returns (saving: Saving)
    requires ByEpoch(ordered) && times == ContributionTimes(ordered)
    requires |prefix| == |ordered| + 1
    requires forall k :: 0 <= k <= |ordered| ==> prefix[k] == Sum(ordered[..k], ContributionAmount)
    ensures SavesWindow(ordered, period, saving)
  {
    var left := BisectLeft(times, period.start.epoch);
    var right := BisectRight(times, period.end.epoch);
    BisectedAmount(ordered, period.start.epoch, period.end.epoch, left, right);
    saving := Saving(period.start, period.end, prefix[right] - prefix[left]);
  }

  /** Window totals do not depend on the order of the contributions. */
  lemma SavesWindowPermutation(a: seq<Contribution>, b: seq<Contribution>, period: Period, saving: Saving)
    requires multiset(a) == multiset(b)
    requires SavesWindow(a, period, saving)
    ensures SavesWindow(b, period, saving)
  {
    SumPermutation(a, b, Within(period.start.epoch, period.end.epoch));
    SumPermutation(a, b, Within(period.end.epoch + 1, period.start.epoch - 1));
  }

  /** `aggregate_savings_by_k`: one saving per window, in the windows' order, holding the
      total contributed inside it. The caller vouches for the order when it says the
      contributions are already sorted. */
  method AggregateSavingsByK(contributions: seq<Contribution>, ks: seq<Period>, isSorted: bool)
    returns (savings: seq<Saving>)
    requires isSorted ==> ByEpoch(contributions)
    ensures |savings| == |ks|
    ensures forall j :: 0 <= j < |ks| ==> SavesWindow(contributions, ks[j], savings[j])
  {
    if |ks| == 0 {
      return [];
    }
    var ordered := contributions;
    if !isSorted {
      ordered := SortBy(contributions, EpochLe);
      EpochLeTotal();
      SortBySorted(contributions, EpochLe);
    }
    assert ByEpoch(ordered) && multiset(ordered) == multiset(contributions);
    hide *;
    var times := ContributionTimes(ordered);
    var prefix := PrefixSums(ordered);
    savings := [];
    for j := 0 to |ks|
      invariant |savings| == j
      invariant forall i :: 0 <= i < j ==> SavesWindow(contributions, ks[i], savings[i])
    {
      var saving := WindowAmount(ordered, times, prefix, ks[j]);
      SavesWindowPermutation(ordered, contributions, ks[j], saving);
      savings := savings + [saving];
    }
  }
}
