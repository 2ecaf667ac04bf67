/** The `q` override rule and the two interchangeable ways `app/core/engine.py`
    resolves it over transactions in chronological order: a lazy max-heap sweep
    (`_q_overrides_heap`) and a union-find fill in priority order
    (`_q_overrides_dsu`). Both are proved equal to one reference rule: among the
    `q` periods covering an instant, the one with the latest start wins, ties going
    to the smaller index. */
module Overrides {
  import opened Wrappers
  import opened Records
  import opened Seqs
  import opened Ordering

  /** Which resolution algorithm to run; the performance heuristic that picks one
      in the source is not modelled. */
  datatype Strategy = HeapStrategy | DsuStrategy

  // ---------------------------------------------------------------- reference rule

  /** `a` takes precedence over `b`, or is level with it: a later start wins, then
      the smaller index. This is the heap's order on `(-start, index)`. */
  predicate Outranks(a: Period, b: Period) {
    a.start.epoch > b.start.epoch || (a.start.epoch == b.start.epoch && a.index <= b.index)
  }

  lemma OutranksTotal()
    ensures TotalPreorder(Outranks)
  {
  }

  /** `w` is one of `qs`, covers `t`, and outranks every period of `qs` covering `t`. */
  predicate IsWinner(qs: seq<Period>, t: int, w: Period) {
    w in qs && Contains(w, t) && forall q :: q in qs && Contains(q, t) ==> Outranks(w, q)
  }

  /** With periods numbered by position there is at most one winner. */
  lemma WinnerUnique(qs: seq<Period>, t: int, a: Period, b: Period)
    requires WellIndexed(qs)
    requires IsWinner(qs, t, a) && IsWinner(qs, t, b)
    ensures a == b
  {
    var i :| 0 <= i < |qs| && qs[i] == a;
    var j :| 0 <= j < |qs| && qs[j] == b;
    assert Outranks(a, b) && Outranks(b, a);
  }

  /** The element of a non-empty `s` that outranks all of `s`, earliest first: the
      top of a heap holding `s`. */
  function Top(s: seq<Period>): (m: Period)
    requires |s| > 0
    ensures m in s
    ensures forall x :: x in s ==> Outranks(m, x)
  {
    if |s| == 1 then s[0]
    else
      var rest := Top(s[1..]);
      assert forall x :: x in s ==> x == s[0] || x in s[1..];
      if Outranks(s[0], rest) then s[0] else rest
  }

  /** The periods of `qs` covering `t`, in order. */
  function Covering(qs: seq<Period>, t: int): (r: seq<Period>)
    ensures forall q :: q in r <==> q in qs && Contains(q, t)
  {
    if |qs| == 0 then []
    else
      assert forall q :: q in qs <==> q == qs[0] || q in qs[1..];
      (if Contains(qs[0], t) then [qs[0]] else []) + Covering(qs[1..], t)
  }

  /** The reference rule: the value of the winning `q` period at `t`, or None when no
      `q` period covers `t` (the transaction then keeps its own remanent). */
  function OverrideAt(qs: seq<Period>, t: int): (r: Option<int>)
    ensures r.None? <==> !InSomePeriod(qs, t)
    ensures r.Some? ==> exists w :: IsWinner(qs, t, w) && r.value == w.value
  {
    var c := Covering(qs, t);
    if |c| == 0 then
      assert forall j :: 0 <= j < |qs| ==> !Contains(qs[j], t) by {
        forall j | 0 <= j < |qs|
          ensures !Contains(qs[j], t)
        {
          assert qs[j] in qs;
        }
      }
      None
    else
      var w := Top(c);
      assert IsWinner(qs, t, w);
      var j :| 0 <= j < |qs| && qs[j] == w;
      Some(w.value)
  }

  /** Any winner's value is the reference override. */
  lemma WinnerValue(qs: seq<Period>, t: int, w: Period)
    requires WellIndexed(qs)
    requires IsWinner(qs, t, w)
    ensures OverrideAt(qs, t) == Some(w.value)
  {
    var j :| 0 <= j < |qs| && qs[j] == w;
    assert InSomePeriod(qs, t);
    var w' :| IsWinner(qs, t, w') && OverrideAt(qs, t).value == w'.value;
    WinnerUnique(qs, t, w, w');
  }

  // ---------------------------------------------------------------- heap sweep

  /** Earlier start first, then the smaller index: the order `q_sorted` pushes in. */
  predicate StartLe(a: Period, b: Period) {
    a.start.epoch < b.start.epoch || (a.start.epoch == b.start.epoch && a.index <= b.index)
  }

  lemma StartLeTotal()
    ensures TotalPreorder(StartLe)
  {
  }

  /** `heappop`: `s` without its first occurrence of `x`. */
  function RemoveFirst(s: seq<Period>, x: Period): (r: seq<Period>)
    requires x in s
    ensures |r| == |s| - 1
    ensures forall y :: y in r ==> y in s
    ensures forall y :: y in s && y != x ==> y in r
  {
    if s[0] == x then s[1..]
    else
      assert forall y :: y in s ==> y == s[0] || y in s[1..];
      [s[0]] + RemoveFirst(s[1..], x)
  }

  /** After the pushes and pops for instant `ts`, the heap's top (or its emptiness)
      gives the reference override: every period covering `ts` has been pushed and
      not popped, and the top covers `ts`. */
  lemma HeapReadsWinner(qs: seq<Period>, sorted: seq<Period>, pointer: nat, active: seq<Period>, ts: int)
    requires WellIndexed(qs)
    requires multiset(sorted) == multiset(qs)
    requires forall a, b :: 0 <= a < b < |sorted| ==> StartLe(sorted[a], sorted[b])
    requires pointer <= |sorted|
    requires pointer == |sorted| || sorted[pointer].start.epoch > ts
    requires forall j :: 0 <= j < pointer ==> sorted[j] in active || sorted[j].end.epoch < ts
    requires forall x :: x in active ==> x in qs && x.start.epoch <= ts
    requires |active| > 0 ==> Top(active).end.epoch >= ts
    ensures (if |active| > 0 then Some(Top(active).value) else None) == OverrideAt(qs, ts)
  {
    PermutationMembers(sorted, qs);
    forall j | pointer <= j < |sorted|
      ensures sorted[j].start.epoch > ts
    {
      if j > pointer {
        assert StartLe(sorted[pointer], sorted[j]);
      }
    }
    forall q | q in qs && Contains(q, ts)
      ensures q in active
    {
      var j :| 0 <= j < |sorted| && sorted[j] == q;
    }
    if |active| > 0 {
      var m := Top(active);
      assert IsWinner(qs, ts, m);
      WinnerValue(qs, ts, m);
    } else {
      forall j | 0 <= j < |qs|
        ensures !Contains(qs[j], ts)
      {
        assert qs[j] in qs;
      }
    }
  }

  /** `q_sorted`: the periods by start, then index. */
  lemma PushOrder(qs: seq<Period>)
    ensures multiset(SortBy(qs, StartLe)) == multiset(qs)
    ensures var s := SortBy(qs, StartLe);
      forall a, b :: 0 <= a < b < |s| ==> StartLe(s[a], s[b])
  {
    StartLeTotal();
    SortBySorted(qs, StartLe);
  }

  /** The lazy heap `active` at instant `ts`, after the first `pointer` periods of
      `sorted` were pushed: it holds periods of `qs` already started, and every pushed
      period not in it has ended before `ts`. */
  predicate HeapInvariant(qs: seq<Period>, sorted: seq<Period>, pointer: nat, active: seq<Period>, ts: int) {
    && pointer <= |sorted|
    && (forall x :: x in active ==> x in qs && x.start.epoch <= ts)
    && (forall j :: 0 <= j < pointer ==> sorted[j] in active || sorted[j].end.epoch < ts)
  }

  lemma HeapAdvance(qs: seq<Period>, sorted: seq<Period>, pointer: nat, active: seq<Period>, prev: int, ts: int)
    requires HeapInvariant(qs, sorted, pointer, active, prev) && prev <= ts
    ensures HeapInvariant(qs, sorted, pointer, active, ts)
  {
  }

  /** The first inner loop: push every period whose start has been reached. */
  method PushStarted(qs: seq<Period>, sorted: seq<Period>, pointer: nat, active: seq<Period>, ts: int)
    returns (pointer': nat, active': seq<Period>)
    requires forall j :: 0 <= j < |sorted| ==> sorted[j] in qs
    requires HeapInvariant(qs, sorted, pointer, active, ts)
    ensures HeapInvariant(qs, sorted, pointer', active', ts)
    ensures pointer' == |sorted| || sorted[pointer'].start.epoch > ts
  {
    pointer', active' := pointer, active;
    while pointer' < |sorted| && sorted[pointer'].start.epoch <= ts
      invariant HeapInvariant(qs, sorted, pointer', active', ts)
      decreases |sorted| - pointer'
    {
      active' := active' + [sorted[pointer']];
      pointer' := pointer' + 1;
    }
  }

  /** The second inner loop: pop tops that ended before `ts`. */
  method PopExpired(qs: seq<Period>, sorted: seq<Period>, pointer: nat, active: seq<Period>, ts: int)
    returns (active': seq<Period>)
    requires HeapInvariant(qs, sorted, pointer, active, ts)
    ensures HeapInvariant(qs, sorted, pointer, active', ts)
    ensures |active'| > 0 ==> Top(active').end.epoch >= ts
  {
    active' := active;
    while |active'| > 0 && Top(active').end.epoch < ts
      invariant HeapInvariant(qs, sorted, pointer, active', ts)
      decreases |active'|
    {
      active' := RemoveFirst(active', Top(active'));
    }
  }

  /** The pushed order `sorted` is `qs` by start, then index. */
  predicate PushSchedule(qs: seq<Period>, sorted: seq<Period>) {
    && multiset(sorted) == multiset(qs)
    && (forall a, b :: 0 <= a < b < |sorted| ==> StartLe(sorted[a], sorted[b]))
  }

  /** The overrides read so far agree with the reference rule, instant by instant. */
  predicate AgreesSoFar(times: seq<int>, qs: seq<Period>, overrides: seq<Option<int>>) {
    && |overrides| <= |times|
    && forall p :: 0 <= p < |overrides| ==> overrides[p] == OverrideAt(qs, times[p])
  }

  /** One instant of the sweep: advance the heap from instant `prev` to `times[pos]`
      and read the override there. */
  method HeapStep(times: seq<int>, qs: seq<Period>, sorted: seq<Period>, pointer: nat, active: seq<Period>,
                  prev: int, overrides: seq<Option<int>>)
    returns (pointer': nat, active': seq<Period>, overrides': seq<Option<int>>)
    requires WellIndexed(qs) && PushSchedule(qs, sorted)
    requires AgreesSoFar(times, qs, overrides) && |overrides| < |times|
    requires HeapInvariant(qs, sorted, pointer, active, prev) && prev <= times[|overrides|]
    ensures HeapInvariant(qs, sorted, pointer', active', times[|overrides|])
    ensures AgreesSoFar(times, qs, overrides') && |overrides'| == |overrides| + 1
  {
    var ts := times[|overrides|];
    PermutationMembers(sorted, qs);
    HeapAdvance(qs, sorted, pointer, active, prev, ts);
    pointer', active' := PushStarted(qs, sorted, pointer, active, ts);
    active' := PopExpired(qs, sorted, pointer', active', ts);
    HeapReadsWinner(qs, sorted, pointer', active', ts);
    overrides' := overrides + [if |active'| > 0 then Some(Top(active').value) else None];
  }

  /** `_q_overrides_heap`: walk the instants in order, push every period whose start
      has been reached, drop expired tops, and read the top. */
  method HeapOverrides(times: seq<int>, qs: seq<Period>) returns (overrides: seq<Option<int>>)
    requires NonDecreasing(times)
    requires WellIndexed(qs)
    ensures |overrides| == |times|
    ensures forall pos :: 0 <= pos < |times| ==> overrides[pos] == OverrideAt(qs, times[pos])
  {
    if |times| == 0 {
      return [];
    }
    var sorted := SortBy(qs, StartLe);
    PushOrder(qs);
    overrides := HeapSweep(times, qs, sorted);
    AllAgree(times, qs, overrides);
  }

  /** The loop of `_q_overrides_heap` over the instants, given the push order. */
  method HeapSweep(times: seq<int>, qs: seq<Period>, sorted: seq<Period>) returns (overrides: seq<Option<int>>)
    requires NonDecreasing(times) && |times| > 0
    requires WellIndexed(qs) && PushSchedule(qs, sorted)
    ensures |overrides| == |times| && AgreesSoFar(times, qs, overrides)
  {
    var pointer := 0;
    var active: seq<Period> := [];
    var prev := times[0];
    overrides := [];
    assert HeapInvariant(qs, sorted, pointer, active, prev);
    assert AgreesSoFar(times, qs, overrides);
    assert forall a, b :: 0 <= a < b < |times| ==> times[a] <= times[b];
    hide *;
    for pos := 0 to |times|
      invariant |overrides| == pos
      invariant HeapInvariant(qs, sorted, pointer, active, prev)
      invariant pos < |times| ==> prev <= times[pos]
      invariant AgreesSoFar(times, qs, overrides)
    {
      pointer, active, overrides := HeapStep(times, qs, sorted, pointer, active, prev, overrides);
      prev := times[pos];
    }
  }

  lemma AllAgree(times: seq<int>, qs: seq<Period>, overrides: seq<Option<int>>)
    requires AgreesSoFar(times, qs, overrides) && |overrides| == |times|
    ensures forall pos :: 0 <= pos < |times| ==> overrides[pos] == OverrideAt(qs, times[pos])
  {
  }

  // ---------------------------------------------------------------- union-find fill

  /** The value of the first period of `s` covering `t`. */
  function FirstValue(s: seq<Period>, t: int): Option<int> {
    if |s| == 0 then None
    else
      var earlier := FirstValue(s[..|s| - 1], t);
      if earlier.Some? then earlier
      else if Contains(s[|s| - 1], t) then Some(s[|s| - 1].value)
      else None
  }

  /** `FirstValue` finds the first covering period, and finds nothing only when none covers. */
  lemma {:induction false} FirstValueMeans(s: seq<Period>, t: int)
    ensures FirstValue(s, t).None? <==> forall j :: 0 <= j < |s| ==> !Contains(s[j], t)
    ensures FirstValue(s, t).Some? ==>
      exists j :: 0 <= j < |s| && Contains(s[j], t) && FirstValue(s, t) == Some(s[j].value)
        && forall i :: 0 <= i < j ==> !Contains(s[i], t)
  {
    if |s| > 0 {
      var init := s[..|s| - 1];
      FirstValueMeans(init, t);
      if FirstValue(init, t).Some? {
        var j :| 0 <= j < |init| && Contains(init[j], t) && FirstValue(init, t) == Some(init[j].value)
          && forall i :: 0 <= i < j ==> !Contains(init[i], t);
        assert s[j] == init[j];
        assert forall i :: 0 <= i < j ==> s[i] == init[i];
      } else {
        assert forall i :: 0 <= i < |init| ==> s[i] == init[i];
      }
    }
  }

  /** A value found in a prefix stays the first value of the whole sequence. */
  lemma {:induction false} FirstValuePrefix(s: seq<Period>, n: nat, t: int)
    requires n <= |s|
    requires FirstValue(s[..n], t).Some?
    ensures FirstValue(s, t) == FirstValue(s[..n], t)
    decreases |s| - n
  {
    if n < |s| {
      assert s[..n + 1][..n] == s[..n];
      FirstValuePrefix(s, n + 1, t);
    } else {
      assert s[..n] == s;
    }
  }

  /** On periods in priority order the first covering one is the winner. */
  lemma FirstValueIsOverride(qs: seq<Period>, byPriority: seq<Period>, t: int)
    requires WellIndexed(qs)
    requires multiset(byPriority) == multiset(qs)
    requires forall a, b :: 0 <= a < b < |byPriority| ==> Outranks(byPriority[a], byPriority[b])
    ensures FirstValue(byPriority, t) == OverrideAt(qs, t)
  {
    PermutationMembers(byPriority, qs);
    FirstValueMeans(byPriority, t);
    if FirstValue(byPriority, t).Some? {
      var j :| 0 <= j < |byPriority| && Contains(byPriority[j], t)
        && FirstValue(byPriority, t) == Some(byPriority[j].value)
        && forall i :: 0 <= i < j ==> !Contains(byPriority[i], t);
      var w := byPriority[j];
      forall q | q in qs && Contains(q, t)
        ensures Outranks(w, q)
      {
        var k :| 0 <= k < |byPriority| && byPriority[k] == q;
      }
      WinnerValue(qs, t, w);
    } else {
      forall j | 0 <= j < |qs|
        ensures !Contains(qs[j], t)
      {
        assert qs[j] in byPriority;
      }
    }
  }

  /** Number of positions already assigned (`assigned_count`). */
  function CountSome(s: seq<Option<int>>): (n: nat)
    ensures n <= |s|
  {
    if |s| == 0 then 0 else CountSome(s[..|s| - 1]) + (if s[|s| - 1].Some? then 1 else 0)
  }

  lemma {:induction false} CountSomeAssign(s: seq<Option<int>>, i: nat, v: int)
    requires i < |s| && s[i].None?
    ensures CountSome(s[i := Some(v)]) == CountSome(s) + 1
  {
    var s' := s[i := Some(v)];
    if i < |s| - 1 {
      assert s'[..|s| - 1] == s[..|s| - 1][i := Some(v)];
      CountSomeAssign(s[..|s| - 1], i, v);
    } else {
      assert s'[..|s| - 1] == s[..|s| - 1];
    }
  }

  /** When the count reaches the length every position is assigned. */
  lemma {:induction false} CountSomeFull(s: seq<Option<int>>)
    requires CountSome(s) >= |s|
    ensures forall i :: 0 <= i < |s| ==> s[i].Some?
  {
    if |s| > 0 {
      CountSomeFull(s[..|s| - 1]);
      assert forall i :: 0 <= i < |s| - 1 ==> s[i] == s[..|s| - 1][i];
    }
  }

  /** The union-find shape from `lo` on: every parent points forward (the sentinel
      `size` to itself), a position is a root exactly when it is unassigned, and every
      position a parent link skips over is assigned. So `find(x)` is the first
      unassigned position at or after `x`. */
  predicate Forest(parent: seq<nat>, filled: seq<Option<int>>, lo: nat)
    requires |parent| == |filled| + 1
  {
    && (forall i :: lo <= i <= |filled| ==> i <= parent[i] <= |filled|)
    && (forall i :: lo <= i < |filled| ==> (parent[i] == i <==> filled[i].None?))
    && (forall i, k :: lo <= i <= |filled| && i <= k < parent[i] ==> filled[k].Some?)
  }

  /** `find` with path halving. */
  method Find(parent: seq<nat>, filled: seq<Option<int>>, x: nat) returns (parent': seq<nat>, root: nat)
    requires |parent| == |filled| + 1 && x <= |filled|
    requires Forest(parent, filled, x)
    ensures |parent'| == |parent| && Forest(parent', filled, x)
    ensures forall i :: 0 <= i < x ==> parent'[i] == parent[i]
    ensures x <= root <= |filled| && parent'[root] == root
    ensures forall k :: x <= k < root ==> filled[k].Some?
  {
    parent' := parent;
    root := x;
    while parent'[root] != root
      invariant x <= root <= |filled| && |parent'| == |parent|
      invariant Forest(parent', filled, x)
      invariant forall i :: 0 <= i < x ==> parent'[i] == parent[i]
      invariant forall k :: x <= k < root ==> filled[k].Some?
      decreases |filled| - root
    {
      var up := parent'[root];
      parent' := parent'[root := parent'[up]];
      root := parent'[root];
    }
  }

  /** A forest from `x` on, left untouched below `x`, joins a forest from 0 on. */
  lemma ForestJoin(before: seq<nat>, after: seq<nat>, filled: seq<Option<int>>, x: nat)
    requires |before| == |after| == |filled| + 1 && x <= |filled|
    requires Forest(before, filled, 0) && Forest(after, filled, x)
    requires forall i :: 0 <= i < x ==> after[i] == before[i]
    ensures Forest(after, filled, 0)
  {
  }

  /** Assigning `position` and linking it to the root after it restores the forest. */
  lemma ForestAssign(parent: seq<nat>, filled: seq<Option<int>>, position: nat, v: int,
                     after: seq<nat>, next: nat)
    requires |parent| == |after| == |filled| + 1 && position < |filled|
    requires Forest(parent, filled, 0)
    requires filled[position].None?
    requires Forest(after, filled[position := Some(v)], position + 1)
    requires forall i :: 0 <= i < position + 1 ==> after[i] == parent[i]
    requires position + 1 <= next <= |filled|
    requires forall k :: position + 1 <= k < next ==> filled[k].Some?
    ensures Forest(after[position := next], filled[position := Some(v)], 0)
  {
  }

  /** Before any period is taken every position is its own root and none is filled. */
  lemma FreshForest(size: nat)
    ensures Forest(seq(size + 1, i => i), seq(size, _ => None), 0)
    ensures CountSome(seq(size, _ => None)) == 0
  {
    var none: seq<Option<int>> := seq(size, _ => None);
    if size > 0 {
      FreshForest(size - 1);
      assert none[..size - 1] == seq(size - 1, _ => None);
    }
  }

  /** Whether the bounds cached for a `(start, end)` key are the searches' answers. */
  predicate CachedBounds(times: seq<int>, cache: map<(int, int), (int, int)>) {
    forall key :: key in cache ==>
      LeftBound(times, key.0, cache[key].0) && RightBound(times, key.1, cache[key].1 + 1)
  }

  /** Filling the unassigned positions of `[left, right]` with `v` is the step
      `FirstValue` takes for one more period whose instants are exactly those positions. */
  lemma FillIsFirstValue(times: seq<int>, byPriority: seq<Period>, c: nat,
                         before: seq<Option<int>>, after: seq<Option<int>>, left: int, right: int)
    requires c < |byPriority| && |before| == |after| == |times|
    requires LeftBound(times, byPriority[c].start.epoch, left)
    requires RightBound(times, byPriority[c].end.epoch, right + 1)
    requires forall k :: 0 <= k < |times| ==> before[k] == FirstValue(byPriority[..c], times[k])
    requires forall k :: 0 <= k < |times| ==>
      after[k] == if before[k].None? && left <= k <= right then Some(byPriority[c].value) else before[k]
    ensures forall k :: 0 <= k < |times| ==> after[k] == FirstValue(byPriority[..c + 1], times[k])
  {
    assert byPriority[..c + 1][..c] == byPriority[..c];
    forall k | 0 <= k < |times|
      ensures after[k] == FirstValue(byPriority[..c + 1], times[k])
    {
      BoundsSelectRange(times, byPriority[c].start.epoch, byPriority[c].end.epoch, left, right + 1, k);
    }
  }

  /** The state of the inner loop of `_q_overrides_dsu` at `position`: the forest is
      intact, `position` is a root, and every unassigned position of `[left, position)`
      now holds `v`, nothing else having changed. */
  predicate Filling(overrides0: seq<Option<int>>, left: nat, right: int, v: int,
                    parent: seq<nat>, overrides: seq<Option<int>>, count: nat, position: nat) {
    && left <= position <= |overrides0| && |overrides| == |overrides0| && |parent| == |overrides0| + 1
    && Forest(parent, overrides, 0)
    && parent[position] == position
    && count == CountSome(overrides)
    && (forall k :: 0 <= k < |overrides| ==>
          overrides[k] == if overrides0[k].None? && left <= k < position then Some(v) else overrides0[k])
    && (forall k :: left <= k < position ==> overrides[k].Some?)
    && (forall k :: 0 <= k && right < k < position ==> overrides0[k].Some?)
  }

  /** One turn of the inner loop: assign `position`, link it past the assigned run
      after it, and move to the next root. */
  method FillStep(overrides0: seq<Option<int>>, left: nat, right: int, v: int,
                  parent: seq<nat>, overrides: seq<Option<int>>, count: nat, position: nat)
    returns (parent': seq<nat>, overrides': seq<Option<int>>, count': nat, position': nat)
    requires Filling(overrides0, left, right, v, parent, overrides, count, position) && position <= right
    requires right < |overrides0|
    ensures Filling(overrides0, left, right, v, parent', overrides', count', position') && position < position'
  {
    CountSomeAssign(overrides, position, v);
    var filled := overrides[position := Some(v)];
    var linked, next;
    linked, next := Find(parent, filled, position + 1);
    ForestAssign(parent, overrides, position, v, linked, next);
    overrides' := filled;
    count' := count + 1;
    parent' := linked[position := next];
    position' := next;
  }

  /** The inner loop of `_q_overrides_dsu` for one period: fill every unassigned
      position of `[left, right]` with `v`, jumping over assigned runs with `find`. */
  method FillRange(parent0: seq<nat>, overrides0: seq<Option<int>>, count0: nat, left: nat, right: int, v: int)
    returns (parent: seq<nat>, overrides: seq<Option<int>>, count: nat)
    requires |parent0| == |overrides0| + 1 && left <= right < |overrides0|
    requires Forest(parent0, overrides0, 0)
    requires count0 == CountSome(overrides0)
    ensures |parent| == |parent0| && |overrides| == |overrides0|
    ensures Forest(parent, overrides, 0)
    ensures count == CountSome(overrides)
    ensures forall k :: 0 <= k < |overrides| ==>
      overrides[k] == if overrides0[k].None? && left <= k <= right then Some(v) else overrides0[k]
  {
    overrides, count := overrides0, count0;
    var position;
    parent, position := Find(parent0, overrides, left);
    ForestJoin(parent0, parent, overrides, left);
    assert Filling(overrides0, left, right, v, parent, overrides, count, position);
    while position <= right
      invariant Filling(overrides0, left, right, v, parent, overrides, count, position)
      decreases |overrides0| - position
    {
      parent, overrides, count, position := FillStep(overrides0, left, right, v, parent, overrides, count, position);
    }
  }

  /** The range of positions a period covers, from the cache when its bounds were
      searched before, else by the two binary searches (and then cached). */
  method PeriodBounds(times: seq<int>, q: Period, cache: map<(int, int), (int, int)>)
    returns (left: int, right: int, cache': map<(int, int), (int, int)>)
    requires NonDecreasing(times)
    requires CachedBounds(times, cache)
    ensures LeftBound(times, q.start.epoch, left) && RightBound(times, q.end.epoch, right + 1)
    ensures CachedBounds(times, cache')
  {
    var key := (q.start.epoch, q.end.epoch);
    if key in cache {
      left, right := cache[key].0, cache[key].1;
      cache' := cache;
    } else {
      left := BisectLeft(times, q.start.epoch);
      var r := BisectRight(times, q.end.epoch);
      right := r as int - 1;
      cache' := cache[key := (left, right)];
    }
  }

  /** The state of the union-find fill after the first `c` periods in priority order:
      each position holds the value of the first of them covering its instant. */
  predicate DsuState(times: seq<int>, byPriority: seq<Period>, c: nat,
                     parent: seq<nat>, overrides: seq<Option<int>>, count: nat)
    requires c <= |byPriority|
  {
    && |overrides| == |times| && |parent| == |times| + 1
    && Forest(parent, overrides, 0)
    && count == CountSome(overrides)
    && forall pos :: 0 <= pos < |times| ==> overrides[pos] == FirstValue(byPriority[..c], times[pos])
  }

  /** `q_priority_sorted`: the periods in priority order, latest start first. */
  lemma PriorityOrder(qs: seq<Period>)
    ensures multiset(SortBy(qs, Outranks)) == multiset(qs)
    ensures var s := SortBy(qs, Outranks);
      forall a, b :: 0 <= a < b < |s| ==> Outranks(s[a], s[b])
  {
    OutranksTotal();
    SortBySorted(qs, Outranks);
  }

  /** Before the first period every position is its own root and unassigned. */
  lemma DsuStart(times: seq<int>, byPriority: seq<Period>)
    ensures DsuState(times, byPriority, 0, seq(|times| + 1, i => i), seq(|times|, _ => None), 0)
  {
    FreshForest(|times|);
    assert byPriority[..0] == [];
  }

  /** One pass of the outer loop of `_q_overrides_dsu`: the next period fills the
      still-unassigned positions of its range. */
  method DsuStep(times: seq<int>, byPriority: seq<Period>, c: nat,
                 parent: seq<nat>, overrides: seq<Option<int>>, count: nat,
                 cache: map<(int, int), (int, int)>)
    returns (parent': seq<nat>, overrides': seq<Option<int>>, count': nat,
             cache': map<(int, int), (int, int)>)
    requires NonDecreasing(times) && c < |byPriority|
    requires DsuState(times, byPriority, c, parent, overrides, count)
    requires CachedBounds(times, cache)
    ensures DsuState(times, byPriority, c + 1, parent', overrides', count')
    ensures CachedBounds(times, cache')
  {
    var q := byPriority[c];
    var left, right;
    left, right, cache' := PeriodBounds(times, q, cache);
    parent', overrides', count' := parent, overrides, count;
    if left <= right {
      parent', overrides', count' := FillRange(parent, overrides, count, left, right, q.value);
    }
    FillIsFirstValue(times, byPriority, c, overrides, overrides', left, right);
  }

  /** Once the loop stops, by exhausting the periods or filling every position, every
      position holds the reference override. */
  lemma DsuComplete(times: seq<int>, qs: seq<Period>, byPriority: seq<Period>, c: nat,
                    parent: seq<nat>, overrides: seq<Option<int>>, count: nat)
    requires WellIndexed(qs)
    requires multiset(byPriority) == multiset(qs)
    requires forall a, b :: 0 <= a < b < |byPriority| ==> Outranks(byPriority[a], byPriority[b])
    requires c <= |byPriority|
    requires DsuState(times, byPriority, c, parent, overrides, count)
    requires c == |byPriority| || count >= |times|
    ensures forall pos :: 0 <= pos < |times| ==> overrides[pos] == OverrideAt(qs, times[pos])
  {
    if c < |byPriority| {
      CountSomeFull(overrides);
    }
    forall pos | 0 <= pos < |times|
      ensures overrides[pos] == OverrideAt(qs, times[pos])
    {
      if c < |byPriority| {
        FirstValuePrefix(byPriority, c, times[pos]);
      } else {
        assert byPriority[..c] == byPriority;
      }
      FirstValueIsOverride(qs, byPriority, times[pos]);
    }
  }

  /** `_q_overrides_dsu`: take the periods in priority order and give each the
      still-unassigned positions in its range; stop once every position is assigned. */
  method DsuOverrides(times: seq<int>, qs: seq<Period>) returns (overrides: seq<Option<int>>)
    requires NonDecreasing(times)
    requires WellIndexed(qs)
    ensures |overrides| == |times|
    ensures forall pos :: 0 <= pos < |times| ==> overrides[pos] == OverrideAt(qs, times[pos])
  {
    var size := |times|;
    if size == 0 || |qs| == 0 {
      return seq(size, _ => None);
    }
    var cache: map<(int, int), (int, int)> := map[];
    assert CachedBounds(times, cache);
    hide *;
    var byPriority := SortBy(qs, Outranks);
    PriorityOrder(qs);
    var parent: seq<nat> := seq(size + 1, i => i);
    overrides := seq(size, _ => None);
    DsuStart(times, byPriority);
    var count: nat := 0;
    var c := 0;
    while c < |byPriority| && count < size
      invariant 0 <= c <= |byPriority|
      invariant DsuState(times, byPriority, c, parent, overrides, count)
      invariant CachedBounds(times, cache)
    {
      parent, overrides, count, cache := DsuStep(times, byPriority, c, parent, overrides, count, cache);
      c := c + 1;
    }
    DsuComplete(times, qs, byPriority, c, parent, overrides, count);
  }

  /** `q` overrides by the chosen strategy. */
  method QOverrides(times: seq<int>, qs: seq<Period>, strategy: Strategy) returns (overrides: seq<Option<int>>)
    requires NonDecreasing(times)
    requires WellIndexed(qs)
    ensures |overrides| == |times|
    ensures forall pos :: 0 <= pos < |times| ==> overrides[pos] == OverrideAt(qs, times[pos])
  {
    match strategy
    case HeapStrategy => overrides := HeapOverrides(times, qs);
    case DsuStrategy => overrides := DsuOverrides(times, qs);
  }

  /** The two strategies are interchangeable: on the same input they give the same list. */
  method StrategiesAgree(times: seq<int>, qs: seq<Period>) returns (byHeap: seq<Option<int>>, byDsu: seq<Option<int>>)
    requires NonDecreasing(times)
    requires WellIndexed(qs)
    ensures byHeap == byDsu
  {
    byHeap := HeapOverrides(times, qs);
    byDsu := DsuOverrides(times, qs);
  }
}
