/** `validate_transactions`: sort a batch of fully specified transactions into
    valid ones, invalid ones and duplicates, capping the total remanent that
    may be invested. */
module Validator {
  import opened Wrappers
  import opened Records
  import opened Canonical
  import TimeUtils
  import Finance

  /** The validator's answer. Each list keeps the positions of the records it holds. */
  datatype Validation = Validation(
    valid: seq<Tagged<Transaction>>,
    invalid: seq<Rejection>,
    duplicates: seq<Tagged<Transaction>>)

  /** The investment cap: the explicit maximum when given, else twelve months of wage. */
  function InvestmentLimit(wage: int, maxInvestment: Option<int>): (r: int)
    ensures maxInvestment.Some? ==> r == maxInvestment.value
    ensures maxInvestment.None? ==> r == 12 * wage
    ensures maxInvestment.None? && wage >= 0 ==> r >= 0
  {
    if maxInvestment.Some? then maxInvestment.value else wage * 12
  }

  /** Two amounts agree when they differ by at most one cent (the source's 0.01 tolerance). */
  predicate WithinOneCent(a: int, b: int) {
    -1 <= a - b <= 1
  }

  /** The consistency checks a first occurrence must pass: the ceiling is the next
      multiple of 100, the remanent is ceiling minus amount, and the remanent is
      below the challenge bound. The first failing check is reported. */
  function Screen(tx: Transaction): (r: Option<Error>)
    requires tx.amount >= 0
    ensures r.None? ==> WithinOneCent(tx.ceiling, Finance.NextMultipleOf100(tx.amount).value)
    ensures r.None? ==> -2 <= tx.ceiling - (tx.amount + tx.remanent) <= 2
    ensures r.None? ==> tx.remanent <= Finance.AmountLimit
    ensures r.Some? ==> r.value in {CeilingMismatch, RemanentMismatch, RemanentTooLarge}
    ensures var e := Finance.NextMultipleOf100(tx.amount).value;
      r == Some(CeilingMismatch) <==> !WithinOneCent(tx.ceiling, e)
    ensures var e := Finance.NextMultipleOf100(tx.amount).value;
      r == Some(RemanentMismatch) <==> WithinOneCent(tx.ceiling, e) && !WithinOneCent(tx.remanent, e - tx.amount)
    ensures var e := Finance.NextMultipleOf100(tx.amount).value;
      r == Some(RemanentTooLarge) <==>
        WithinOneCent(tx.ceiling, e) && WithinOneCent(tx.remanent, e - tx.amount) && tx.remanent > Finance.AmountLimit
  {
    var expectedCeiling := Finance.NextMultipleOf100(tx.amount).value;
    if !WithinOneCent(tx.ceiling, expectedCeiling) then Some(CeilingMismatch)
    else if !WithinOneCent(tx.remanent, expectedCeiling - tx.amount) then Some(RemanentMismatch)
    else if tx.remanent > Finance.AmountLimit then Some(RemanentTooLarge)
    else None
  }

  /** A transaction whose ceiling and remanent are exactly the computed ones passes the screen. */
  lemma ScreenAcceptsComputed(tx: Transaction)
    requires 0 <= tx.amount < Finance.AmountLimit
    requires tx.ceiling == Finance.NextMultipleOf100(tx.amount).value
    requires tx.remanent == Finance.RemanentFromAmount(tx.amount).value
    ensures Screen(tx) == None
  {
  }

  /** The record canonicalised, is the first with its timestamp and passes the screen:
      it goes on to the cap pass. */
  predicate Candidate(results: seq<Result<Transaction, Error>>, i: nat)
    requires i < |results|
    requires Canonicalised(results)
  {
    FirstOccurrence(results, i) && Screen(results[i].value).None?
  }

  /** The record is turned away in the first pass: it did not canonicalise, or it is a
      first occurrence that fails the screen. */
  predicate FirstPassRejected(results: seq<Result<Transaction, Error>>, i: nat)
    requires i < |results|
    requires Canonicalised(results)
  {
    results[i].Failure? || (FirstOccurrence(results, i) && Screen(results[i].value).Some?)
  }

  /** The reason a first-pass rejection carries. */
  function FirstPassError(results: seq<Result<Transaction, Error>>, i: nat): Error
    requires i < |results|
    requires Canonicalised(results)
    requires FirstPassRejected(results, i)
  {
    if results[i].Failure? then results[i].error else Screen(results[i].value).value
  }

  // ---------------------------------------------------------------- running remanent

  /** Remanent of the entries of `s` that come from records before position `bound`. */
  function RemanentBelow(s: seq<Tagged<Transaction>>, bound: nat): int {
    if |s| == 0 then 0
    else RemanentBelow(s[..|s| - 1], bound)
         + (if s[|s| - 1].index < bound then s[|s| - 1].item.remanent else 0)
  }

  /** Remanent of all entries of `s`. */
  function RemanentTotal(s: seq<Tagged<Transaction>>): int {
    if |s| == 0 then 0 else RemanentTotal(s[..|s| - 1]) + s[|s| - 1].item.remanent
  }

  /** When every entry comes from before `bound`, counting below `bound` counts them all. */
  lemma {:induction false} RemanentBelowAll(s: seq<Tagged<Transaction>>, bound: nat)
    requires forall k :: 0 <= k < |s| ==> s[k].index < bound
    ensures RemanentBelow(s, bound) == RemanentTotal(s)
  {
    if |s| > 0 {
      RemanentBelowAll(s[..|s| - 1], bound);
    }
  }

  /** Appending an entry from at or after `bound` does not change the remanent below it. */
  lemma RemanentBelowAppendLater(s: seq<Tagged<Transaction>>, t: Tagged<Transaction>, bound: nat)
    requires t.index >= bound
    ensures RemanentBelow(s + [t], bound) == RemanentBelow(s, bound)
  {
    assert (s + [t])[..|s|] == s;
  }

  // ---------------------------------------------------------------- first pass

  /** The two lists of the first pass that keep the transaction itself. */
  datatype Pile = CandidatePile | DuplicatePile

  predicate OnPile(results: seq<Result<Transaction, Error>>, j: nat, pile: Pile)
    requires j < |results| && Canonicalised(results)
  {
    match pile
    case CandidatePile => Candidate(results, j)
    case DuplicatePile => LaterDuplicate(results, j)
  }

  /** `s` holds, in input order and with their transactions, exactly those of the first
      `n` records that belong on `pile`. */
  predicate PileUpTo(results: seq<Result<Transaction, Error>>, n: nat, s: seq<Tagged<Transaction>>, pile: Pile)
    requires n <= |results| && Canonicalised(results)
  {
    && StrictlyIncreasing(Indices(s))
    && (forall k :: 0 <= k < |s| ==> s[k].index < n && results[s[k].index] == Success(s[k].item))
    && (forall j :: 0 <= j < n ==> (j in Indices(s) <==> OnPile(results, j, pile)))
  }

  /** `invalid` holds, in input order and with their reasons, exactly those of the first
      `n` records the first pass turns away. */
  predicate RejectedUpTo(results: seq<Result<Transaction, Error>>, n: nat, invalid: seq<Rejection>)
    requires n <= |results| && Canonicalised(results)
  {
    && StrictlyIncreasing(RejectedIndices(invalid))
    && (forall k :: 0 <= k < |invalid| ==>
          invalid[k].index < n && FirstPassRejected(results, invalid[k].index)
          && invalid[k].error == FirstPassError(results, invalid[k].index))
    && (forall j :: 0 <= j < n ==> (j in RejectedIndices(invalid) <==> FirstPassRejected(results, j)))
  }

  /** One more record either joins the pile at its end or leaves it as it was. */
  lemma PileStep(results: seq<Result<Transaction, Error>>, n: nat, s: seq<Tagged<Transaction>>, pile: Pile)
    requires n < |results| && Canonicalised(results)
    requires PileUpTo(results, n, s, pile)
    ensures OnPile(results, n, pile) ==>
      results[n].Success? && PileUpTo(results, n + 1, s + [Tagged(n, results[n].value)], pile)
    ensures !OnPile(results, n, pile) ==> PileUpTo(results, n + 1, s, pile)
  {
    assert n !in Indices(s);
    if OnPile(results, n, pile) {
      assert Indices(s + [Tagged(n, results[n].value)]) == Indices(s) + [n];
    }
  }

  /** One more record either joins the rejections at their end or leaves them as they were. */
  lemma RejectedStep(results: seq<Result<Transaction, Error>>, n: nat, invalid: seq<Rejection>)
    requires n < |results| && Canonicalised(results)
    requires RejectedUpTo(results, n, invalid)
    ensures FirstPassRejected(results, n) ==>
      RejectedUpTo(results, n + 1, invalid + [Rejection(n, FirstPassError(results, n))])
    ensures !FirstPassRejected(results, n) ==> RejectedUpTo(results, n + 1, invalid)
  {
    assert n !in RejectedIndices(invalid);
    if FirstPassRejected(results, n) {
      assert RejectedIndices(invalid + [Rejection(n, FirstPassError(results, n))]) == RejectedIndices(invalid) + [n];
    }
  }

  /** The first loop of `validate_transactions` over canonicalised records: failures and
      screen failures are invalid, repeated timestamps are duplicates, the rest are
      candidates for the cap pass. */
  method ScreenRecords(results: seq<Result<Transaction, Error>>)
    returns (candidates: seq<Tagged<Transaction>>, invalid: seq<Rejection>, duplicates: seq<Tagged<Transaction>>)
    requires Canonicalised(results)
    ensures |candidates| + |invalid| + |duplicates| == |results|
    ensures PileUpTo(results, |results|, candidates, CandidatePile)
    ensures PileUpTo(results, |results|, duplicates, DuplicatePile)
    ensures RejectedUpTo(results, |results|, invalid)
  {
    hide Screen;
    var seen: set<string> := {};
    candidates, invalid, duplicates := [], [], [];
    for i := 0 to |results|
      invariant seen == SeenBefore(results, i)
      invariant |candidates| + |invalid| + |duplicates| == i
      invariant PileUpTo(results, i, candidates, CandidatePile)
      invariant PileUpTo(results, i, duplicates, DuplicatePile)
      invariant RejectedUpTo(results, i, invalid)
    {
      PileStep(results, i, candidates, CandidatePile);
      PileStep(results, i, duplicates, DuplicatePile);
      RejectedStep(results, i, invalid);
      var result := results[i];
      if result.Failure? {
        invalid := invalid + [Rejection(i, result.error)];
        continue;
      }
      SeenIsLaterDuplicate(results, i);
      if result.value.instant.text in seen {
        duplicates := duplicates + [Tagged(i, result.value)];
        continue;
      }
      seen := seen + {result.value.instant.text};
      var screened := Screen(result.value);
      if screened.Some? {
        invalid := invalid + [Rejection(i, screened.value)];
        continue;
      }
      candidates := candidates + [Tagged(i, result.value)];
    }
  }

  // ---------------------------------------------------------------- cap pass

  /** The shape of the cap pass's lists after it has looked at the first `c` candidates:
      they share out those candidates, in order, within the limit. */
  predicate CapShape(candidates: seq<Tagged<Transaction>>, c: nat,
                     valid: seq<Tagged<Transaction>>, capped: seq<Tagged<Transaction>>, limit: int)
    requires c <= |candidates|
  {
    && |valid| + |capped| == c
    && RemanentTotal(valid) <= limit
    && StrictlyIncreasing(Indices(valid)) && StrictlyIncreasing(Indices(capped))
    && (forall k :: 0 <= k < |valid| ==> valid[k] in candidates[..c])
    && (forall k :: 0 <= k < |capped| ==> capped[k] in candidates[..c])
  }

  /** Each of the first `c` candidates landed in exactly one list, and in the valid one
      exactly when it fit. */
  predicate CapDecided(candidates: seq<Tagged<Transaction>>, c: nat,
                       valid: seq<Tagged<Transaction>>, capped: seq<Tagged<Transaction>>, limit: int)
    requires c <= |candidates|
  {
    && (forall b :: 0 <= b < c ==>
          candidates[b].index in Indices(valid) || candidates[b].index in Indices(capped))
    && (forall k, l :: 0 <= k < |valid| && 0 <= l < |capped| ==> valid[k].index != capped[l].index)
    && (forall b :: 0 <= b < c ==>
          (candidates[b].index in Indices(valid) <==>
             RemanentBelow(valid, candidates[b].index) + candidates[b].item.remanent <= limit))
  }

  predicate CapInvariant(candidates: seq<Tagged<Transaction>>, c: nat,
                         valid: seq<Tagged<Transaction>>, capped: seq<Tagged<Transaction>>, limit: int)
    requires c <= |candidates|
  {
    CapShape(candidates, c, valid, capped, limit) && CapDecided(candidates, c, valid, capped, limit)
  }

  /** Every entry taken from the first `c` candidates comes from a record before candidate `c`. */
  lemma TakenBefore(candidates: seq<Tagged<Transaction>>, c: nat, s: seq<Tagged<Transaction>>)
    requires StrictlyIncreasing(Indices(candidates)) && c < |candidates|
    requires forall k :: 0 <= k < |s| ==> s[k] in candidates[..c]
    ensures forall k :: 0 <= k < |s| ==> s[k].index < candidates[c].index
    ensures candidates[c].index !in Indices(s)
  {
    forall k | 0 <= k < |s|
      ensures s[k].index < candidates[c].index
    {
      var b :| 0 <= b < c && candidates[b] == s[k];
      assert Indices(candidates)[b] < Indices(candidates)[c];
    }
  }

  /** Capping a candidate that does not fit keeps the lists' shape. */
  lemma CapStepRejectShape(candidates: seq<Tagged<Transaction>>, c: nat,
                           valid: seq<Tagged<Transaction>>, capped: seq<Tagged<Transaction>>, limit: int)
    requires StrictlyIncreasing(Indices(candidates)) && c < |candidates|
    requires CapShape(candidates, c, valid, capped, limit)
    ensures CapShape(candidates, c + 1, valid, capped + [candidates[c]], limit)
  {
    var t := candidates[c];
    TakenBefore(candidates, c, capped);
    assert Indices(capped + [t]) == Indices(capped) + [t.index];
    assert candidates[..c + 1] == candidates[..c] + [t];
  }

  /** Capping a candidate that does not fit decides it correctly. */
  lemma CapStepRejectDecided(candidates: seq<Tagged<Transaction>>, c: nat,
                             valid: seq<Tagged<Transaction>>, capped: seq<Tagged<Transaction>>, limit: int)
    requires StrictlyIncreasing(Indices(candidates)) && c < |candidates|
    requires CapInvariant(candidates, c, valid, capped, limit)
    requires RemanentTotal(valid) + candidates[c].item.remanent > limit
    ensures CapDecided(candidates, c + 1, valid, capped + [candidates[c]], limit)
  {
    var t := candidates[c];
    TakenBefore(candidates, c, valid);
    RemanentBelowAll(valid, t.index);
    assert Indices(capped + [t]) == Indices(capped) + [t.index];
  }

  /** Candidates come in input order. */
  lemma EarlierCandidates(candidates: seq<Tagged<Transaction>>, c: nat)
    requires StrictlyIncreasing(Indices(candidates)) && c < |candidates|
    ensures forall b :: 0 <= b < c ==> candidates[b].index < candidates[c].index
  {
    forall b | 0 <= b < c
      ensures candidates[b].index < candidates[c].index
    {
      assert Indices(candidates)[b] < Indices(candidates)[c];
    }
  }

  /** Accepting a candidate that fits keeps the lists' shape. */
  lemma CapStepAcceptShape(candidates: seq<Tagged<Transaction>>, c: nat,
                           valid: seq<Tagged<Transaction>>, capped: seq<Tagged<Transaction>>, limit: int)
    requires StrictlyIncreasing(Indices(candidates)) && c < |candidates|
    requires CapShape(candidates, c, valid, capped, limit)
    requires RemanentTotal(valid) + candidates[c].item.remanent <= limit
    ensures CapShape(candidates, c + 1, valid + [candidates[c]], capped, limit)
  {
    var t := candidates[c];
    TakenBefore(candidates, c, valid);
    assert (valid + [t])[..|valid|] == valid;
    assert Indices(valid + [t]) == Indices(valid) + [t.index];
    assert candidates[..c + 1] == candidates[..c] + [t];
  }

  /** Accepting a candidate that fits leaves the running remanent below every earlier
      candidate as it was. */
  lemma CapStepAcceptBelow(candidates: seq<Tagged<Transaction>>, c: nat, valid: seq<Tagged<Transaction>>)
    requires StrictlyIncreasing(Indices(candidates)) && c < |candidates|
    ensures forall b :: 0 <= b < c ==>
      RemanentBelow(valid + [candidates[c]], candidates[b].index) == RemanentBelow(valid, candidates[b].index)
  {
    forall b | 0 <= b < c
      ensures RemanentBelow(valid + [candidates[c]], candidates[b].index) == RemanentBelow(valid, candidates[b].index)
    {
      assert Indices(candidates)[b] < Indices(candidates)[c];
      RemanentBelowAppendLater(valid, candidates[c], candidates[b].index);
    }
  }

  /** Accepting a candidate that fits keeps every candidate seen in exactly one list. */
  lemma CapStepAcceptCovers(candidates: seq<Tagged<Transaction>>, c: nat,
                            valid: seq<Tagged<Transaction>>, capped: seq<Tagged<Transaction>>, limit: int)
    requires StrictlyIncreasing(Indices(candidates)) && c < |candidates|
    requires CapInvariant(candidates, c, valid, capped, limit)
    ensures forall b :: 0 <= b < c + 1 ==>
      candidates[b].index in Indices(valid + [candidates[c]]) || candidates[b].index in Indices(capped)
    ensures forall k, l :: 0 <= k < |valid + [candidates[c]]| && 0 <= l < |capped| ==>
      (valid + [candidates[c]])[k].index != capped[l].index
  {
    TakenBefore(candidates, c, capped);
    assert Indices(valid + [candidates[c]]) == Indices(valid) + [candidates[c].index];
  }

  /** Accepting a later entry leaves an earlier candidate's decision standing. */
  lemma AcceptKeepsEarlier(valid: seq<Tagged<Transaction>>, t: Tagged<Transaction>,
                           earlier: Tagged<Transaction>, limit: int)
    requires earlier.index < t.index
    requires (earlier.index in Indices(valid) <==>
                RemanentBelow(valid, earlier.index) + earlier.item.remanent <= limit)
    ensures (earlier.index in Indices(valid + [t]) <==>
               RemanentBelow(valid + [t], earlier.index) + earlier.item.remanent <= limit)
  {
    RemanentBelowAppendLater(valid, t, earlier.index);
    assert Indices(valid + [t]) == Indices(valid) + [t.index];
  }

  /** An accepted entry that fits on top of everything before it is decided correctly. */
  lemma AcceptFits(valid: seq<Tagged<Transaction>>, t: Tagged<Transaction>, limit: int)
    requires forall k :: 0 <= k < |valid| ==> valid[k].index < t.index
    requires RemanentTotal(valid) + t.item.remanent <= limit
    ensures t.index in Indices(valid + [t])
    ensures RemanentBelow(valid + [t], t.index) + t.item.remanent <= limit
  {
    RemanentBelowAppendLater(valid, t, t.index);
    RemanentBelowAll(valid, t.index);
    assert Indices(valid + [t]) == Indices(valid) + [t.index];
  }

  /** Accepting a candidate that fits puts it in the valid list exactly as the rule says,
      and leaves the earlier decisions standing. */
  lemma CapStepAcceptFits(candidates: seq<Tagged<Transaction>>, c: nat, valid: seq<Tagged<Transaction>>, limit: int)
    requires c < |candidates|
    requires forall b :: 0 <= b < c ==> candidates[b].index < candidates[c].index
    requires forall k :: 0 <= k < |valid| ==> valid[k].index < candidates[c].index
    requires forall b :: 0 <= b < c ==>
      (candidates[b].index in Indices(valid) <==>
         RemanentBelow(valid, candidates[b].index) + candidates[b].item.remanent <= limit)
    requires RemanentTotal(valid) + candidates[c].item.remanent <= limit
    ensures forall b :: 0 <= b < c + 1 ==>
      (candidates[b].index in Indices(valid + [candidates[c]]) <==>
         RemanentBelow(valid + [candidates[c]], candidates[b].index) + candidates[b].item.remanent <= limit)
  {
    hide RemanentBelow, RemanentTotal, Indices;
    AcceptFits(valid, candidates[c], limit);
    forall b | 0 <= b < c
      ensures (candidates[b].index in Indices(valid + [candidates[c]]) <==>
                 RemanentBelow(valid + [candidates[c]], candidates[b].index) + candidates[b].item.remanent <= limit)
    {
      AcceptKeepsEarlier(valid, candidates[c], candidates[b], limit);
    }
  }

  /** Accepting a candidate that fits decides it correctly. */
  lemma CapStepAcceptDecided(candidates: seq<Tagged<Transaction>>, c: nat,
                             valid: seq<Tagged<Transaction>>, capped: seq<Tagged<Transaction>>, limit: int)
    requires StrictlyIncreasing(Indices(candidates)) && c < |candidates|
    requires CapInvariant(candidates, c, valid, capped, limit)
    requires RemanentTotal(valid) + candidates[c].item.remanent <= limit
    ensures CapDecided(candidates, c + 1, valid + [candidates[c]], capped, limit)
  {
    CapStepAcceptCovers(candidates, c, valid, capped, limit);
    TakenBefore(candidates, c, valid);
    EarlierCandidates(candidates, c);
    CapStepAcceptFits(candidates, c, valid, limit);
  }

  /** The second loop of `validate_transactions`: walk the candidates in input order and
      accept each one whose remanent still fits under `limit`. */
  method ApplyCap(candidates: seq<Tagged<Transaction>>, limit: int)
    returns (valid: seq<Tagged<Transaction>>, capped: seq<Tagged<Transaction>>)
    requires StrictlyIncreasing(Indices(candidates))
    requires limit >= 0
    ensures |valid| + |capped| == |candidates|
    ensures StrictlyIncreasing(Indices(valid)) && StrictlyIncreasing(Indices(capped))
    ensures forall k :: 0 <= k < |valid| ==> valid[k] in candidates
    ensures forall k :: 0 <= k < |capped| ==> capped[k] in candidates
    ensures forall c :: 0 <= c < |candidates| ==>
      (candidates[c].index in Indices(valid) <==> candidates[c].index !in Indices(capped))
    ensures forall c :: 0 <= c < |candidates| ==>
      (candidates[c].index in Indices(valid) <==>
         RemanentBelow(valid, candidates[c].index) + candidates[c].item.remanent <= limit)
    ensures RemanentTotal(valid) <= limit
  {
    valid, capped := [], [];
    var running := 0;
    for c := 0 to |candidates|
      invariant running == RemanentTotal(valid)
      invariant CapInvariant(candidates, c, valid, capped, limit)
    {
      var t := candidates[c];
      if running + t.item.remanent > limit {
        CapStepRejectShape(candidates, c, valid, capped, limit);
        CapStepRejectDecided(candidates, c, valid, capped, limit);
        capped := capped + [t];
      } else {
        CapStepAcceptShape(candidates, c, valid, capped, limit);
        CapStepAcceptDecided(candidates, c, valid, capped, limit);
        assert (valid + [t])[..|valid|] == valid;
        valid := valid + [t];
        running := running + t.item.remanent;
      }
    }
    assert candidates[..|candidates|] == candidates;
  }

  /** Entries the cap pass takes from the candidates are candidate records, each with its
      own transaction. */
  lemma CapProvenance(results: seq<Result<Transaction, Error>>, candidates: seq<Tagged<Transaction>>,
                      s: seq<Tagged<Transaction>>)
    requires Canonicalised(results)
    requires PileUpTo(results, |results|, candidates, CandidatePile)
    requires forall k :: 0 <= k < |s| ==> s[k] in candidates
    ensures forall k :: 0 <= k < |s| ==>
      s[k].index < |results| && results[s[k].index] == Success(s[k].item) && Candidate(results, s[k].index)
    ensures forall i :: 0 <= i < |results| && i in Indices(s) ==> Candidate(results, i)
  {
    forall k | 0 <= k < |s|
      ensures s[k].index < |results| && results[s[k].index] == Success(s[k].item) && Candidate(results, s[k].index)
    {
      var c :| 0 <= c < |candidates| && candidates[c] == s[k];
      assert Indices(candidates)[c] == s[k].index;
      assert OnPile(results, s[k].index, CandidatePile);
    }
    forall i | 0 <= i < |results| && i in Indices(s)
      ensures Candidate(results, i)
    {
      var k :| 0 <= k < |s| && Indices(s)[k] == i;
    }
  }

  /** What the cap pass decides, stated per record: a candidate is capped exactly when it
      is not valid, and valid exactly when its remanent fits under the limit on top of the
      valid ones before it. */
  lemma CapDecision(results: seq<Result<Transaction, Error>>, candidates: seq<Tagged<Transaction>>,
                    valid: seq<Tagged<Transaction>>, capped: seq<Tagged<Transaction>>, limit: int)
    requires Canonicalised(results)
    requires PileUpTo(results, |results|, candidates, CandidatePile)
    requires forall c :: 0 <= c < |candidates| ==>
      (candidates[c].index in Indices(valid) <==> candidates[c].index !in Indices(capped))
    requires forall c :: 0 <= c < |candidates| ==>
      (candidates[c].index in Indices(valid) <==>
         RemanentBelow(valid, candidates[c].index) + candidates[c].item.remanent <= limit)
    ensures forall i :: 0 <= i < |results| && Candidate(results, i) ==>
      (i in Indices(capped) <==> i !in Indices(valid))
    ensures forall i :: 0 <= i < |results| && Candidate(results, i) ==>
      (i in Indices(valid) <==> RemanentBelow(valid, i) + results[i].value.remanent <= limit)
  {
    hide Screen, RemanentBelow;
    forall i | 0 <= i < |results| && Candidate(results, i)
      ensures (i in Indices(capped) <==> i !in Indices(valid))
      ensures (i in Indices(valid) <==> RemanentBelow(valid, i) + results[i].value.remanent <= limit)
    {
      assert OnPile(results, i, CandidatePile);
      var c :| 0 <= c < |candidates| && Indices(candidates)[c] == i;
    }
  }

  /** The rejections the cap pass adds, in the order it makes them. */
  function LimitRejections(capped: seq<Tagged<Transaction>>): (r: seq<Rejection>)
    ensures |r| == |capped|
    ensures forall k :: 0 <= k < |capped| ==> r[k] == Rejection(capped[k].index, LimitExceeded)
  {
    seq(|capped|, k requires 0 <= k < |capped| => Rejection(capped[k].index, LimitExceeded))
  }

  /** A first-pass rejection never carries the cap's reason. */
  lemma FirstPassErrorIsNotLimit(results: seq<Result<Transaction, Error>>, i: nat)
    requires i < |results| && Canonicalised(results) && FirstPassRejected(results, i)
    ensures FirstPassError(results, i) != LimitExceeded
  {
  }

  /** The order of the invalid list: no record twice, the cap's reasons after all others,
      and each of the two groups in input order. */
  predicate RejectionOrder(all: seq<Rejection>) {
    && (forall a, b :: 0 <= a < b < |all| ==> all[a].index != all[b].index)
    && (forall a, b :: 0 <= a < b < |all| && all[a].error == LimitExceeded ==> all[b].error == LimitExceeded)
    && (forall a, b :: (0 <= a < b < |all| && (all[a].error == LimitExceeded <==> all[b].error == LimitExceeded))
          ==> all[a].index < all[b].index)
  }

  /** Appending the cap rejections to the first-pass rejections gives an invalid list in
      rejection order. */
  lemma MergeOrder(results: seq<Result<Transaction, Error>>, invalid: seq<Rejection>, capped: seq<Tagged<Transaction>>)
    requires Canonicalised(results)
    requires RejectedUpTo(results, |results|, invalid)
    requires StrictlyIncreasing(Indices(capped))
    requires forall k :: 0 <= k < |capped| ==> capped[k].index < |results| && Candidate(results, capped[k].index)
    ensures RejectionOrder(invalid + LimitRejections(capped))
  {
    var all := invalid + LimitRejections(capped);
    var n := |invalid|;
    forall k | 0 <= k < n
      ensures all[k].error != LimitExceeded
    {
      FirstPassErrorIsNotLimit(results, invalid[k].index);
    }
    forall a, b | 0 <= a < b < |all|
      ensures all[a].index != all[b].index
    {
      if b < n {
        assert RejectedIndices(invalid)[a] < RejectedIndices(invalid)[b];
      } else if a >= n {
        assert Indices(capped)[a - n] < Indices(capped)[b - n];
      }
    }
    forall a, b | 0 <= a < b < |all| && (all[a].error == LimitExceeded <==> all[b].error == LimitExceeded)
      ensures all[a].index < all[b].index
    {
      if b < n {
        assert RejectedIndices(invalid)[a] < RejectedIndices(invalid)[b];
      } else {
        assert Indices(capped)[a - n] < Indices(capped)[b - n];
      }
    }
  }

  /** The invalid list holds exactly the records turned away by either pass, each with the
      reason of the pass that turned it away. */
  lemma MergeMembership(results: seq<Result<Transaction, Error>>, invalid: seq<Rejection>,
                        valid: seq<Tagged<Transaction>>, capped: seq<Tagged<Transaction>>)
    requires Canonicalised(results)
    requires RejectedUpTo(results, |results|, invalid)
    requires forall k :: 0 <= k < |capped| ==> capped[k].index < |results| && Candidate(results, capped[k].index)
    requires forall i :: 0 <= i < |results| && Candidate(results, i) ==> (i in Indices(capped) <==> i !in Indices(valid))
    ensures var all := invalid + LimitRejections(capped);
      forall i :: 0 <= i < |results| ==>
        (i in RejectedIndices(all) <==> FirstPassRejected(results, i) || (Candidate(results, i) && i !in Indices(valid)))
    ensures var all := invalid + LimitRejections(capped);
      forall k :: 0 <= k < |all| ==>
        var i := all[k].index;
        i < |results| && (if FirstPassRejected(results, i) then all[k].error == FirstPassError(results, i)
                          else all[k].error == LimitExceeded)
  {
    hide Screen;
    var all := invalid + LimitRejections(capped);
    assert RejectedIndices(all) == RejectedIndices(invalid) + Indices(capped);
    forall i | 0 <= i < |results| && i in Indices(capped)
      ensures Candidate(results, i)
    {
      var k :| 0 <= k < |capped| && Indices(capped)[k] == i;
    }
  }

  // ---------------------------------------------------------------- driver

  /** Every list of the answer is in input order, and the invalid list in rejection order. */
  predicate InInputOrder(v: Validation) {
    StrictlyIncreasing(Indices(v.valid)) && StrictlyIncreasing(Indices(v.duplicates)) && RejectionOrder(v.invalid)
  }

  /** Where each record ends up: repeated timestamps are duplicates, only candidates are
      valid, and the invalid ones are the first-pass rejections and the candidates the cap
      left out. */
  predicate Placement(results: seq<Result<Transaction, Error>>, v: Validation)
    requires Canonicalised(results)
  {
    && (forall i :: 0 <= i < |results| ==> (i in Indices(v.duplicates) <==> LaterDuplicate(results, i)))
    && (forall i :: 0 <= i < |results| ==> (i in Indices(v.valid) ==> Candidate(results, i)))
    && (forall i :: 0 <= i < |results| ==>
          (i in RejectedIndices(v.invalid) <==>
             FirstPassRejected(results, i) || (Candidate(results, i) && i !in Indices(v.valid))))
  }

  /** Every entry carries its own record's transaction, or the reason it was turned away. */
  predicate Provenance(results: seq<Result<Transaction, Error>>, v: Validation)
    requires Canonicalised(results)
  {
    && (forall k :: 0 <= k < |v.valid| ==>
          v.valid[k].index < |results| && results[v.valid[k].index] == Success(v.valid[k].item))
    && (forall k :: 0 <= k < |v.duplicates| ==>
          v.duplicates[k].index < |results| && results[v.duplicates[k].index] == Success(v.duplicates[k].item))
    && (forall k :: 0 <= k < |v.invalid| ==>
          var i := v.invalid[k].index;
          i < |results| && (if FirstPassRejected(results, i) then v.invalid[k].error == FirstPassError(results, i)
                            else v.invalid[k].error == LimitExceeded))
  }

  /** The valid remanent stays within the limit, and a candidate is valid exactly when its
      remanent fits on top of the valid records before it. */
  predicate WithinCap(results: seq<Result<Transaction, Error>>, limit: int, v: Validation)
    requires Canonicalised(results)
  {
    && RemanentTotal(v.valid) <= limit
    && (forall i :: 0 <= i < |results| && Candidate(results, i) ==>
          (i in Indices(v.valid) <==> RemanentBelow(v.valid, i) + results[i].value.remanent <= limit))
  }

  /** The answer assembled from the two passes is in input order. */
  lemma AssembledOrder(results: seq<Result<Transaction, Error>>, candidates: seq<Tagged<Transaction>>,
                       invalid: seq<Rejection>, duplicates: seq<Tagged<Transaction>>,
                       valid: seq<Tagged<Transaction>>, capped: seq<Tagged<Transaction>>)
    requires Canonicalised(results)
    requires PileUpTo(results, |results|, candidates, CandidatePile)
    requires PileUpTo(results, |results|, duplicates, DuplicatePile)
    requires RejectedUpTo(results, |results|, invalid)
    requires StrictlyIncreasing(Indices(valid)) && StrictlyIncreasing(Indices(capped))
    requires forall k :: 0 <= k < |capped| ==> capped[k] in candidates
    ensures InInputOrder(Validation(valid, invalid + LimitRejections(capped), duplicates))
  {
    CapProvenance(results, candidates, capped);
    MergeOrder(results, invalid, capped);
  }

  /** The answer assembled from the two passes puts each record where the rules say. */
  lemma AssembledPlacement(results: seq<Result<Transaction, Error>>, invalid: seq<Rejection>,
                           duplicates: seq<Tagged<Transaction>>,
                           valid: seq<Tagged<Transaction>>, capped: seq<Tagged<Transaction>>)
    requires Canonicalised(results)
    requires PileUpTo(results, |results|, duplicates, DuplicatePile)
    requires RejectedUpTo(results, |results|, invalid)
    requires forall i :: 0 <= i < |results| && i in Indices(valid) ==> Candidate(results, i)
    requires forall k :: 0 <= k < |capped| ==> capped[k].index < |results| && Candidate(results, capped[k].index)
    requires forall i :: 0 <= i < |results| && Candidate(results, i) ==> (i in Indices(capped) <==> i !in Indices(valid))
    ensures Placement(results, Validation(valid, invalid + LimitRejections(capped), duplicates))
  {
    hide Screen, LaterDuplicate;
    MergeMembership(results, invalid, valid, capped);
    forall i | 0 <= i < |results|
      ensures i in Indices(duplicates) <==> LaterDuplicate(results, i)
    {
      assert OnPile(results, i, DuplicatePile) == LaterDuplicate(results, i);
    }
  }

  /** Every entry of the answer assembled from the two passes comes from its own record. */
  lemma AssembledProvenance(results: seq<Result<Transaction, Error>>, candidates: seq<Tagged<Transaction>>,
                            invalid: seq<Rejection>, duplicates: seq<Tagged<Transaction>>,
                            valid: seq<Tagged<Transaction>>, capped: seq<Tagged<Transaction>>)
    requires Canonicalised(results)
    requires PileUpTo(results, |results|, candidates, CandidatePile)
    requires PileUpTo(results, |results|, duplicates, DuplicatePile)
    requires RejectedUpTo(results, |results|, invalid)
    requires forall k :: 0 <= k < |valid| ==> valid[k] in candidates
    requires forall k :: 0 <= k < |capped| ==> capped[k] in candidates
    requires forall i :: 0 <= i < |results| && Candidate(results, i) ==> (i in Indices(capped) <==> i !in Indices(valid))
    ensures Provenance(results, Validation(valid, invalid + LimitRejections(capped), duplicates))
  {
    hide Screen;
    CapProvenance(results, candidates, valid);
    CapProvenance(results, candidates, capped);
    MergeMembership(results, invalid, valid, capped);
  }

  /** The answer assembled from the two passes respects the cap. */
  lemma AssembledWithinCap(results: seq<Result<Transaction, Error>>, candidates: seq<Tagged<Transaction>>,
                           invalid: seq<Rejection>, duplicates: seq<Tagged<Transaction>>,
                           valid: seq<Tagged<Transaction>>, capped: seq<Tagged<Transaction>>, limit: int)
    requires Canonicalised(results)
    requires PileUpTo(results, |results|, candidates, CandidatePile)
    requires RemanentTotal(valid) <= limit
    requires forall c :: 0 <= c < |candidates| ==>
      (candidates[c].index in Indices(valid) <==> candidates[c].index !in Indices(capped))
    requires forall c :: 0 <= c < |candidates| ==>
      (candidates[c].index in Indices(valid) <==>
         RemanentBelow(valid, candidates[c].index) + candidates[c].item.remanent <= limit)
    ensures WithinCap(results, limit, Validation(valid, invalid + LimitRejections(capped), duplicates))
  {
    CapDecision(results, candidates, valid, capped, limit);
  }

  /** `validate_transactions` with every record canonicalised in strict mode. */
  method ValidateTransactions(wage: int, raws: seq<RawTransaction>, maxInvestment: Option<int>)
    returns (r: Result<Validation, Error>)
    ensures wage < 0 ==> r == Failure(NegativeWage)
    ensures wage >= 0 && InvestmentLimit(wage, maxInvestment) < 0 ==> r == Failure(NegativeLimit)
    ensures r.Success? <==> wage >= 0 && InvestmentLimit(wage, maxInvestment) >= 0
    ensures r.Success? ==> |r.value.valid| + |r.value.invalid| + |r.value.duplicates| == |raws|
    ensures r.Success? ==> InInputOrder(r.value)
    ensures r.Success? ==> Placement(Canonicalize(raws, true), r.value)
    ensures r.Success? ==> Provenance(Canonicalize(raws, true), r.value)
    ensures r.Success? ==> WithinCap(Canonicalize(raws, true), InvestmentLimit(wage, maxInvestment), r.value)
  {
    if wage < 0 {
      return Failure(NegativeWage);
    }
    var limit := InvestmentLimit(wage, maxInvestment);
    if limit < 0 {
      return Failure(NegativeLimit);
    }
    hide CanonicalTransaction, TimeUtils.ParseTimestamp, Screen, RemanentBelow, RemanentTotal, LaterDuplicate;
    hide PileUpTo, RejectedUpTo, Placement, Provenance, WithinCap, InInputOrder;
    var results := Canonicalize(raws, true);
    var candidates, invalid, duplicates := ScreenRecords(results);
    var valid, capped := ApplyCap(candidates, limit);
    AssembledOrder(results, candidates, invalid, duplicates, valid, capped);
    CapProvenance(results, candidates, valid);
    CapProvenance(results, candidates, capped);
    CapDecision(results, candidates, valid, capped, limit);
    AssembledPlacement(results, invalid, duplicates, valid, capped);
    AssembledProvenance(results, candidates, invalid, duplicates, valid, capped);
    AssembledWithinCap(results, candidates, invalid, duplicates, valid, capped, limit);
    r := Success(Validation(valid, invalid + LimitRejections(capped), duplicates));
  }
}
