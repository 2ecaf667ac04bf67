/** The `p` rule of `_apply_temporal_rules`: every extra period covering a
    transaction's instant adds its value. The engine computes this with a sweep
    over start and end events; the reference is the plain sum over the periods. */
module Extras {
  import opened Records
  import opened Seqs
  import opened Ordering

  /** The sum of the values of the periods of `ps` that contain `t`. */
  function ExtraAt(ps: seq<Period>, t: int): (r: int)
    ensures NonNegativeValues(ps) ==> r >= 0
    ensures (forall j :: 0 <= j < |ps| ==> !Contains(ps[j], t)) ==> r == 0
  {
    if |ps| == 0 then 0
    else
      assert NonNegativeValues(ps) ==> NonNegativeValues(ps[1..]);
      (if Contains(ps[0], t) then ps[0].value else 0) + ExtraAt(ps[1..], t)
  }

  /** A sweep event: at `time` the running extra changes by `value`. */
  datatype Event = Event(time: int, value: int)

  /** Python's order on `(time, value)` tuples. */
  predicate EventLe(a: Event, b: Event) {
    a.time < b.time || (a.time == b.time && a.value <= b.value)
  }

  lemma EventLeTotal()
    ensures TotalPreorder(EventLe)
  {
  }

  function EventValue(e: Event): int {
    e.value
  }

  /** The value of an event that has happened by `t`, and 0 otherwise. */
  function Due(t: int): Event -> int {
    (e: Event) => if e.time <= t then e.value else 0
  }

  /** `(start_epoch, value)` per period: the extra switches on at the start. */
  function StartEvents(ps: seq<Period>): (r: seq<Event>)
    ensures |r| == |ps|
    ensures forall j :: 0 <= j < |ps| ==> r[j] == Event(ps[j].start.epoch, ps[j].value)
  {
    seq(|ps|, j requires 0 <= j < |ps| => Event(ps[j].start.epoch, ps[j].value))
  }

  /** `(end_epoch + 1, value)` per period: the extra switches off one second after the end. */
  function EndEvents(ps: seq<Period>): (r: seq<Event>)
    ensures |r| == |ps|
    ensures forall j :: 0 <= j < |ps| ==> r[j] == Event(ps[j].end.epoch + 1, ps[j].value)
  {
    seq(|ps|, j requires 0 <= j < |ps| => Event(ps[j].end.epoch + 1, ps[j].value))
  }

  /** The events that happened by `t` add up, starts minus ends, to the extra at `t`:
      a period whose end has passed has also started, since it starts no later than it ends. */
  lemma {:induction false} EventsBalance(ps: seq<Period>, t: int)
    requires Ordered(ps)
    ensures Sum(StartEvents(ps), Due(t)) - Sum(EndEvents(ps), Due(t)) == ExtraAt(ps, t)
  {
    if |ps| > 0 {
      assert StartEvents(ps)[1..] == StartEvents(ps[1..]);
      assert EndEvents(ps)[1..] == EndEvents(ps[1..]);
      assert Ordered(ps[1..]);
      EventsBalance(ps[1..], t);
    }
  }

  predicate TimeOrdered(es: seq<Event>) {
    forall a, b :: 0 <= a < b < |es| ==> es[a].time <= es[b].time
  }

  /** `p_start_events` or `p_end_events`: the events sorted as tuples. */
  function SortEvents(es: seq<Event>): (r: seq<Event>)
    ensures multiset(r) == multiset(es)
    ensures TimeOrdered(r)
  {
    EventLeTotal();
    SortBySorted(es, EventLe);
    SortBy(es, EventLe)
  }

  /** `k` is where a pointer into time-ordered events stops at instant `t`: all events
      before it have happened by `t`, the one at it (if any) has not. */
  predicate Reached(es: seq<Event>, k: nat, t: int) {
    && k <= |es|
    && (forall i :: 0 <= i < k ==> es[i].time <= t)
    && (k == |es| || es[k].time > t)
  }

  /** The events a pointer has passed are exactly the events due at `t`. */
  lemma PassedAreDue(es: seq<Event>, k: nat, t: int)
    requires TimeOrdered(es) && Reached(es, k, t)
    ensures Sum(es[..k], EventValue) == Sum(es, Due(t))
  {
    assert es == es[..k] + es[k..];
    SumAppend(es[..k], es[k..], Due(t));
    SumCongruent(es[..k], Due(t), EventValue);
    forall i | 0 <= i < |es[k..]|
      ensures Due(t)(es[k..][i]) == 0
    {
      if i > 0 {
        assert es[k].time <= es[k + i].time;
      }
    }
    SumZero(es[k..], Due(t));
  }

  /** One of the two inner loops: move the pointer past every event due at `ts`,
      accumulating their values. */
  method ConsumeDue(es: seq<Event>, k: nat, ts: int) returns (k': nat, gained: int)
    requires k <= |es| && forall i :: 0 <= i < k ==> es[i].time <= ts
    ensures Reached(es, k', ts) && k <= k'
    ensures gained == Sum(es[..k'], EventValue) - Sum(es[..k], EventValue)
  {
    k', gained := k, 0;
    while k' < |es| && es[k'].time <= ts
      invariant k <= k' <= |es|
      invariant forall i :: 0 <= i < k' ==> es[i].time <= ts
      invariant gained == Sum(es[..k'], EventValue) - Sum(es[..k], EventValue)
      decreases |es| - k'
    {
      SumExtend(es, k', EventValue);
      gained := gained + es[k'].value;
      k' := k' + 1;
    }
  }

  /** The sweep's state at instant `ts`: both pointers have passed every event due
      at `ts` and no other, and `running` is starts passed minus ends passed. */
  predicate SweepState(starts: seq<Event>, ends: seq<Event>, sp: nat, ep: nat, running: int, ts: int) {
    && sp <= |starts| && ep <= |ends|
    && (forall i :: 0 <= i < sp ==> starts[i].time <= ts)
    && (forall i :: 0 <= i < ep ==> ends[i].time <= ts)
    && running == Sum(starts[..sp], EventValue) - Sum(ends[..ep], EventValue)
  }

  /** Once both pointers have reached `ts`, the running extra is the reference sum. */
  lemma SweepReadsExtra(ps: seq<Period>, starts: seq<Event>, ends: seq<Event>, sp: nat, ep: nat, ts: int)
    requires Ordered(ps)
    requires starts == SortEvents(StartEvents(ps)) && ends == SortEvents(EndEvents(ps))
    requires Reached(starts, sp, ts) && Reached(ends, ep, ts)
    ensures Sum(starts[..sp], EventValue) - Sum(ends[..ep], EventValue) == ExtraAt(ps, ts)
  {
    PassedAreDue(starts, sp, ts);
    PassedAreDue(ends, ep, ts);
    SumPermutation(starts, StartEvents(ps), Due(ts));
    SumPermutation(ends, EndEvents(ps), Due(ts));
    EventsBalance(ps, ts);
  }

  /** One instant of the sweep: from the state at `prev`, advance both pointers to
      `times[|extras|]` and record the running extra. */
  method SweepStep(times: seq<int>, ps: seq<Period>, starts: seq<Event>, ends: seq<Event>,
                   sp: nat, ep: nat, running: int, prev: int, extras: seq<int>)
    returns (sp': nat, ep': nat, running': int, extras': seq<int>)
    requires Ordered(ps)
    requires starts == SortEvents(StartEvents(ps)) && ends == SortEvents(EndEvents(ps))
    requires |extras| < |times| && prev <= times[|extras|]
    requires SweepState(starts, ends, sp, ep, running, prev)
    requires forall p :: 0 <= p < |extras| ==> extras[p] == ExtraAt(ps, times[p])
    ensures SweepState(starts, ends, sp', ep', running', times[|extras|])
    ensures |extras'| == |extras| + 1
    ensures forall p :: 0 <= p < |extras'| ==> extras'[p] == ExtraAt(ps, times[p])
  {
    var ts := times[|extras|];
    var gained, lost;
    sp', gained := ConsumeDue(starts, sp, ts);
    running' := running + gained;
    ep', lost := ConsumeDue(ends, ep, ts);
    running' := running' - lost;
    SweepReadsExtra(ps, starts, ends, sp', ep', ts);
    extras' := extras + [running'];
  }

  /** The `p` half of `_apply_temporal_rules`: walking the instants in order, the
      running extra at each one is the sum of the values of the periods containing it. */
  method ExtrasSweep(times: seq<int>, ps: seq<Period>) returns (extras: seq<int>)
    requires NonDecreasing(times)
    requires Ordered(ps)
    ensures |extras| == |times|
    ensures forall pos :: 0 <= pos < |times| ==> extras[pos] == ExtraAt(ps, times[pos])
  {
    if |times| == 0 {
      return [];
    }
    var starts := SortEvents(StartEvents(ps));
    var ends := SortEvents(EndEvents(ps));
    var sp, ep, running := 0, 0, 0;
    var prev := times[0];
    extras := [];
    assert SweepState(starts, ends, sp, ep, running, prev);
    assert forall a, b :: 0 <= a < b < |times| ==> times[a] <= times[b];
    hide *;
    for pos := 0 to |times|
      invariant |extras| == pos
      invariant SweepState(starts, ends, sp, ep, running, prev)
      invariant pos < |times| ==> prev <= times[pos]
      invariant forall p :: 0 <= p < pos ==> extras[p] == ExtraAt(ps, times[p])
    {
      sp, ep, running, extras := SweepStep(times, ps, starts, ends, sp, ep, running, prev, extras);
      prev := times[pos];
    }
  }
}
