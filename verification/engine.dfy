/** The temporal pipeline and the two drivers built on it: `_apply_temporal_rules`
    (the `q` override, then the `p` extras), `filter_transactions` and
    `calculate_returns`. */
module Engine {
  import opened Wrappers
  import opened Records
  import opened Seqs
  import opened Ordering
  import opened Canonical
  import opened Overrides
  import opened Extras
  import opened Windows
  import Finance

  // ---------------------------------------------------------------- temporal rules

  /** The adjusted remanent the rules give a transaction on their own terms: the value of
      the winning `q` period covering its instant (else its own remanent), plus the
      values of every `p` period covering it. */
  function AdjustedRemanent(tx: Transaction, qs: seq<Period>, ps: seq<Period>): int {
    var base := match OverrideAt(qs, Epoch(tx))
      case Some(v) => v
      case None => tx.remanent;
    base + ExtraAt(ps, Epoch(tx))
  }

  /** With non-negative rule values and a non-negative remanent, the adjusted remanent is non-negative. */
  lemma AdjustedNonNegative(tx: Transaction, qs: seq<Period>, ps: seq<Period>)
    requires NonNegativeValues(qs) && NonNegativeValues(ps) && tx.remanent >= 0
    ensures AdjustedRemanent(tx, qs, ps) >= 0
  {
    var o := OverrideAt(qs, Epoch(tx));
    if o.Some? {
      var w :| IsWinner(qs, Epoch(tx), w) && o.value == w.value;
      var j :| 0 <= j < |qs| && qs[j] == w;
    }
  }

  /** Outside every `q` and `p` period a transaction keeps its own remanent. */
  lemma AdjustedOutsideRules(tx: Transaction, qs: seq<Period>, ps: seq<Period>)
    requires !InSomePeriod(qs, Epoch(tx)) && !InSomePeriod(ps, Epoch(tx))
    ensures AdjustedRemanent(tx, qs, ps) == tx.remanent
  {
  }

  function Epochs(txs: seq<Transaction>): (r: seq<int>)
    ensures |r| == |txs| && forall i :: 0 <= i < |txs| ==> r[i] == Epoch(txs[i])
  {
    seq(|txs|, i requires 0 <= i < |txs| => Epoch(txs[i]))
  }

  /** `values[pos]` is the adjusted remanent of the transaction at position `pos` of the
      chronological order. */
  predicate ResolvedInOrder(txs: seq<Transaction>, qs: seq<Period>, ps: seq<Period>,
                            order: seq<Stamp>, values: seq<int>) {
    && |values| == |order|
    && forall pos :: 0 <= pos < |order| ==>
         order[pos].index < |txs| && values[pos] == AdjustedRemanent(txs[order[pos].index], qs, ps)
  }

  /** The override and extra read at one position of the chronological order make up
      the adjusted remanent of the transaction found there. */
  lemma ReadAdjusted(tx: Transaction, qs: seq<Period>, ps: seq<Period>, t: int, o: Option<int>, extra: int)
    requires t == Epoch(tx) && o == OverrideAt(qs, t) && extra == ExtraAt(ps, t)
    ensures (if o.Some? then o.value else tx.remanent) + extra == AdjustedRemanent(tx, qs, ps)
  {
    hide OverrideAt, ExtraAt;
  }

  /** Both rules evaluated along the chronological order. */
  method ResolveInOrder(txs: seq<Transaction>, qs: seq<Period>, ps: seq<Period>, strategy: Strategy,
                        order: seq<Stamp>) returns (values: seq<int>)
    requires WellIndexed(qs) && Ordered(ps)
    requires NonDecreasing(Times(order))
    requires forall pos :: 0 <= pos < |order| ==>
      order[pos].index < |txs| && order[pos].epoch == Epoch(txs[order[pos].index])
    ensures ResolvedInOrder(txs, qs, ps, order, values)
  {
    var times := Times(order);
    var overrides := QOverrides(times, qs, strategy);
    var extras := ExtrasSweep(times, ps);
    hide *;
    values := [];
    for pos := 0 to |order|
      invariant |values| == pos
      invariant forall p :: 0 <= p < pos ==> values[p] == AdjustedRemanent(txs[order[p].index], qs, ps)
    {
      var index := order[pos].index;
      ReadAdjusted(txs[index], qs, ps, times[pos], overrides[pos], extras[pos]);
      values := values + [(if overrides[pos].Some? then overrides[pos].value else txs[index].remanent) + extras[pos]];
    }
  }

  /** Store `values[pos]` at position `order[pos].index` of `init`; positions that
      occur more than once carry the same value each time. */
  method Scatter(init: seq<int>, order: seq<Stamp>, values: seq<int>) returns (placed: seq<int>)
    requires |values| == |order|
    requires forall pos :: 0 <= pos < |order| ==> order[pos].index < |init|
    requires forall a, b :: 0 <= a < |order| && 0 <= b < |order| && order[a].index == order[b].index ==>
      values[a] == values[b]
    ensures |placed| == |init|
    ensures forall pos :: 0 <= pos < |order| ==> placed[order[pos].index] == values[pos]
  {
    placed := init;
    for pos := 0 to |order|
      invariant |placed| == |init|
      invariant forall p :: 0 <= p < pos ==> placed[order[p].index] == values[p]
    {
      placed := placed[order[pos].index := values[pos]];
    }
  }

  /** `_apply_temporal_rules`: walk the transactions in chronological order (ties by
      position), resolve the `q` override with the chosen strategy and sweep the `p`
      extras, then store each result at the transaction's own position. */
  method ApplyTemporalRules(txs: seq<Transaction>, qs: seq<Period>, ps: seq<Period>, strategy: Strategy)
    returns (adjusted: seq<int>)
    requires WellIndexed(qs) && Ordered(ps)
    ensures |adjusted| == |txs|
    ensures forall i :: 0 <= i < |txs| ==> adjusted[i] == AdjustedRemanent(txs[i], qs, ps)
  {
    if |txs| == 0 {
      return [];
    }
    var epochs := Epochs(txs);
    var order := OrderByEpoch(epochs);
    var values := ResolveInOrder(txs, qs, ps, strategy, order);
    assert forall i :: 0 <= i < |txs| ==> Stamp(epochs[i], i) in order;
    hide *;
    adjusted := Scatter(Map(txs, RemanentOf), order, values);
    forall i | 0 <= i < |txs|
      ensures adjusted[i] == AdjustedRemanent(txs[i], qs, ps)
    {
      var p :| 0 <= p < |order| && order[p] == Stamp(epochs[i], i);
    }
  }

  // ---------------------------------------------------------------- filter endpoint

  /** The filter's message for a record `_canonical_transaction` refused: only the
      negative-amount message is reworded. */
  function FilterMessage(e: Error): Error {
    if e == NegativeAmount then NegativeAmountsNotAllowed else e
  }

  /** Why the first pass of `filter_transactions` turns record `i` away, if it does:
      it did not canonicalise, or an earlier record has its timestamp. */
  function EarlyRefusal(results: seq<Result<Transaction, Error>>, i: nat): (r: Option<Error>)
    requires i < |results|
    ensures r.None? <==> FirstOccurrence(results, i)
  {
    if results[i].Failure? then Some(FilterMessage(results[i].error))
    else if LaterDuplicate(results, i) then Some(DuplicateTransaction)
    else None
  }

  /** What the filter does with one record. */
  datatype Verdict = Keep(adjusted: int) | Refuse(reason: Error) | Drop

  /** The filter's rule for record `i`, record by record: refused early, refused as
      outside every `k` window (only when there are windows), silently dropped when its
      adjusted remanent is not positive, and kept otherwise. */
  function FilterVerdict(results: seq<Result<Transaction, Error>>, i: nat,
                         qs: seq<Period>, ps: seq<Period>, ks: seq<Period>): Verdict
    requires i < |results|
  {
    match EarlyRefusal(results, i)
    case Some(e) => Refuse(e)
    case None =>
      if |ks| > 0 && !InSomePeriod(ks, Epoch(results[i].value)) then Refuse(OutsideK)
      else
        var adjusted := AdjustedRemanent(results[i].value, qs, ps);
        if adjusted <= 0 then Drop else Keep(adjusted)
  }

  /** A `valid` entry of the filter: the record's position, its canonical transaction,
      and the adjusted remanent reported as its remanent. */
  datatype Accepted = Accepted(index: nat, tx: Transaction, remanent: int)

  datatype Filtered = Filtered(valid: seq<Accepted>, invalid: seq<Rejection>)

  function AcceptedIndices(s: seq<Accepted>): (r: seq<nat>)
    ensures |r| == |s| && forall k :: 0 <= k < |s| ==> r[k] == s[k].index
  {
    seq(|s|, k requires 0 <= k < |s| => s[k].index)
  }

  /** The filter's `invalid` list: first the early refusals, then the out-of-window
      ones, each group in input order. */
  predicate FilterRejectionOrder(invalid: seq<Rejection>) {
    forall a, b :: 0 <= a < b < |invalid| ==>
      && (invalid[a].error == OutsideK ==> invalid[b].error == OutsideK)
      && ((invalid[a].error == OutsideK) == (invalid[b].error == OutsideK) ==> invalid[a].index < invalid[b].index)
  }

  /** The first pass of `filter_transactions`: keep the first canonical record per
      normalised timestamp, refuse the rest with their reason, both in input order. */
  method ScreenForFilter(results: seq<Result<Transaction, Error>>)
    returns (kept: seq<Tagged<Transaction>>, refused: seq<Rejection>)
    requires Canonicalised(results)
    ensures StrictlyIncreasing(Indices(kept)) && StrictlyIncreasing(RejectedIndices(refused))
    ensures forall k :: 0 <= k < |kept| ==>
      kept[k].index < |results| && results[kept[k].index] == Success(kept[k].item)
    ensures forall i :: 0 <= i < |results| ==> (i in Indices(kept) <==> FirstOccurrence(results, i))
    ensures forall k :: 0 <= k < |refused| ==>
      && refused[k].index < |results|
      && EarlyRefusal(results, refused[k].index) == Some(refused[k].error)
      && refused[k].error != OutsideK
    ensures forall i :: 0 <= i < |results| ==> (i in RejectedIndices(refused) <==> !FirstOccurrence(results, i))
  {
    hide LaterDuplicate;
    var seen: set<string> := {};
    kept, refused := [], [];
    for i := 0 to |results|
      invariant seen == SeenBefore(results, i)
      invariant StrictlyIncreasing(Indices(kept)) && StrictlyIncreasing(RejectedIndices(refused))
      invariant forall k :: 0 <= k < |kept| ==> kept[k].index < i && results[kept[k].index] == Success(kept[k].item)
      invariant forall k :: 0 <= k < |refused| ==>
        && refused[k].index < i
        && EarlyRefusal(results, refused[k].index) == Some(refused[k].error)
        && refused[k].error != OutsideK
      invariant forall j :: 0 <= j < i ==> (j in Indices(kept) <==> FirstOccurrence(results, j))
      invariant forall j :: 0 <= j < i ==> (j in RejectedIndices(refused) <==> !FirstOccurrence(results, j))
    {
      var tx := results[i];
      assert i !in Indices(kept) && i !in RejectedIndices(refused);
      if tx.Failure? {
        assert RejectedIndices(refused + [Rejection(i, FilterMessage(tx.error))]) == RejectedIndices(refused) + [i];
        refused := refused + [Rejection(i, FilterMessage(tx.error))];
        continue;
      }
      SeenIsLaterDuplicate(results, i);
      if tx.value.instant.text in seen {
        assert RejectedIndices(refused + [Rejection(i, DuplicateTransaction)]) == RejectedIndices(refused) + [i];
        refused := refused + [Rejection(i, DuplicateTransaction)];
        continue;
      }
      seen := seen + {tx.value.instant.text};
      assert Indices(kept + [Tagged(i, tx.value)]) == Indices(kept) + [i];
      kept := kept + [Tagged(i, tx.value)];
    }
  }

  function Items<T>(s: seq<Tagged<T>>): (r: seq<T>)
    ensures |r| == |s| && forall k :: 0 <= k < |s| ==> r[k] == s[k].item
  {
    seq(|s|, k requires 0 <= k < |s| => s[k].item)
  }

  /** A kept record's verdict is decided by its window membership and its adjusted remanent. */
  lemma KeptVerdict(results: seq<Result<Transaction, Error>>, i: nat, tx: Transaction,
                    qs: seq<Period>, ps: seq<Period>, ks: seq<Period>, adjusted: int, inK: bool)
    requires i < |results| && results[i] == Success(tx) && FirstOccurrence(results, i)
    requires adjusted == AdjustedRemanent(tx, qs, ps)
    requires inK == (|ks| == 0 || InSomePeriod(ks, Epoch(tx)))
    ensures FilterVerdict(results, i, qs, ps, ks) ==
      if !inK then Refuse(OutsideK) else if adjusted <= 0 then Drop else Keep(adjusted)
  {
    hide AdjustedRemanent, InSomePeriod, LaterDuplicate;
  }

  /** After the first `k` kept records: `valid` lists, in input order, exactly those of
      them whose verdict is Keep, each with its transaction and adjusted remanent. */
  predicate ValidSoFar(kept: seq<Tagged<Transaction>>, verdicts: seq<Verdict>, k: nat, valid: seq<Accepted>)
    requires |verdicts| == |kept|
  {
    && k <= |kept|
    && (forall a :: 0 <= a < |valid| ==> valid[a].index in Indices(kept[..k]))
    && (forall a, j :: 0 <= a < |valid| && 0 <= j < |kept| && kept[j].index == valid[a].index ==>
          kept[j].item == valid[a].tx && verdicts[j] == Keep(valid[a].remanent))
    && StrictlyIncreasing(AcceptedIndices(valid))
    && (forall j :: 0 <= j < k && verdicts[j].Keep? ==> kept[j].index in AcceptedIndices(valid))
  }

  /** After the first `k` kept records: `outside` lists, in input order, exactly those of
      them refused as outside every window. */
  predicate OutsideSoFar(kept: seq<Tagged<Transaction>>, verdicts: seq<Verdict>, k: nat, outside: seq<Rejection>)
    requires |verdicts| == |kept|
  {
    && k <= |kept|
    && (forall a :: 0 <= a < |outside| ==> outside[a].index in Indices(kept[..k]) && outside[a].error == OutsideK)
    && (forall a, j :: 0 <= a < |outside| && 0 <= j < |kept| && kept[j].index == outside[a].index ==>
          verdicts[j] == Refuse(OutsideK))
    && StrictlyIncreasing(RejectedIndices(outside))
    && (forall j :: 0 <= j < k && verdicts[j] == Refuse(OutsideK) ==> kept[j].index in RejectedIndices(outside))
  }

  lemma KeptPrefix(kept: seq<Tagged<Transaction>>, k: nat)
    requires StrictlyIncreasing(Indices(kept)) && k < |kept|
    ensures Indices(kept[..k + 1]) == Indices(kept[..k]) + [kept[k].index]
    ensures forall x :: x in Indices(kept[..k]) ==> x < kept[k].index
    ensures forall j :: 0 <= j < |kept| && j != k ==> kept[j].index != kept[k].index
  {
    assert forall x :: x in Indices(kept[..k]) ==> exists j :: 0 <= j < k && Indices(kept[..k])[j] == x;
  }

  lemma ValidStep(kept: seq<Tagged<Transaction>>, verdicts: seq<Verdict>, k: nat, valid: seq<Accepted>)
    requires StrictlyIncreasing(Indices(kept)) && |verdicts| == |kept| && k < |kept|
    requires ValidSoFar(kept, verdicts, k, valid)
    ensures ValidSoFar(kept, verdicts, k + 1,
      if verdicts[k].Keep? then valid + [Accepted(kept[k].index, kept[k].item, verdicts[k].adjusted)] else valid)
  {
    KeptPrefix(kept, k);
    if verdicts[k].Keep? {
      var entry := Accepted(kept[k].index, kept[k].item, verdicts[k].adjusted);
      assert AcceptedIndices(valid + [entry]) == AcceptedIndices(valid) + [kept[k].index];
    }
  }

  lemma OutsideStep(kept: seq<Tagged<Transaction>>, verdicts: seq<Verdict>, k: nat, outside: seq<Rejection>)
    requires StrictlyIncreasing(Indices(kept)) && |verdicts| == |kept| && k < |kept|
    requires OutsideSoFar(kept, verdicts, k, outside)
    ensures OutsideSoFar(kept, verdicts, k + 1,
      if verdicts[k] == Refuse(OutsideK) then outside + [Rejection(kept[k].index, OutsideK)] else outside)
  {
    KeptPrefix(kept, k);
    if verdicts[k] == Refuse(OutsideK) {
      var entry := Rejection(kept[k].index, OutsideK);
      assert RejectedIndices(outside + [entry]) == RejectedIndices(outside) + [kept[k].index];
    }
  }

  /** The second pass of `filter_transactions` over the kept records, given what the
      rule decides for each (`verdicts`): records outside every window are refused,
      those with a positive adjusted remanent are accepted, the rest dropped. */
  method SplitKept(kept: seq<Tagged<Transaction>>, adjusted: seq<int>, membership: seq<bool>, verdicts: seq<Verdict>)
    returns (valid: seq<Accepted>, outside: seq<Rejection>)
    requires StrictlyIncreasing(Indices(kept))
    requires |adjusted| == |kept| && |membership| == |kept| && |verdicts| == |kept|
    requires forall k :: 0 <= k < |kept| ==>
      verdicts[k] == if !membership[k] then Refuse(OutsideK) else if adjusted[k] <= 0 then Drop else Keep(adjusted[k])
    ensures ValidSoFar(kept, verdicts, |kept|, valid)
    ensures OutsideSoFar(kept, verdicts, |kept|, outside)
  {
    valid, outside := [], [];
    for k := 0 to |kept|
      invariant ValidSoFar(kept, verdicts, k, valid)
      invariant OutsideSoFar(kept, verdicts, k, outside)
    {
      valid, outside := SplitStep(kept, adjusted, membership, verdicts, k, valid, outside);
    }
  }

  /** One record of the second pass. */
  method SplitStep(kept: seq<Tagged<Transaction>>, adjusted: seq<int>, membership: seq<bool>, verdicts: seq<Verdict>,
                   k: nat, valid: seq<Accepted>, outside: seq<Rejection>)
    returns (valid': seq<Accepted>, outside': seq<Rejection>)
    requires StrictlyIncreasing(Indices(kept))
    requires |adjusted| == |kept| && |membership| == |kept| && |verdicts| == |kept| && k < |kept|
    requires verdicts[k] == if !membership[k] then Refuse(OutsideK) else if adjusted[k] <= 0 then Drop else Keep(adjusted[k])
    requires ValidSoFar(kept, verdicts, k, valid) && OutsideSoFar(kept, verdicts, k, outside)
    ensures ValidSoFar(kept, verdicts, k + 1, valid') && OutsideSoFar(kept, verdicts, k + 1, outside')
  {
    ValidStep(kept, verdicts, k, valid);
    OutsideStep(kept, verdicts, k, outside);
    valid', outside' := valid, outside;
    if !membership[k] {
      outside' := outside + [Rejection(kept[k].index, OutsideK)];
    } else if adjusted[k] > 0 {
      valid' := valid + [Accepted(kept[k].index, kept[k].item, adjusted[k])];
    }
  }

  /** A refusal from the first pass is never the out-of-window one. */
  lemma EarlyNeverOutside(results: seq<Result<Transaction, Error>>, i: nat)
    requires Canonicalised(results) && i < |results|
    ensures EarlyRefusal(results, i) != Some(OutsideK)
  {
  }

  /** The verdicts of the kept records, in the order they were kept. */
  function KeptVerdicts(results: seq<Result<Transaction, Error>>, kept: seq<Tagged<Transaction>>,
                        qs: seq<Period>, ps: seq<Period>, ks: seq<Period>): (r: seq<Verdict>)
    requires forall k :: 0 <= k < |kept| ==> kept[k].index < |results|
    ensures |r| == |kept| && forall k :: 0 <= k < |kept| ==> r[k] == FilterVerdict(results, kept[k].index, qs, ps, ks)
  {
    seq(|kept|, k requires 0 <= k < |kept| => FilterVerdict(results, kept[k].index, qs, ps, ks))
  }

  /** What the first pass leaves behind: the kept records are the first occurrences,
      in input order and unchanged; the refused ones are all the others, each with the
      reason `EarlyRefusal` gives it. */
  predicate Screened(results: seq<Result<Transaction, Error>>, kept: seq<Tagged<Transaction>>, refused: seq<Rejection>) {
    && StrictlyIncreasing(Indices(kept)) && StrictlyIncreasing(RejectedIndices(refused))
    && (forall k :: 0 <= k < |kept| ==>
          kept[k].index < |results| && results[kept[k].index] == Success(kept[k].item))
    && (forall i :: 0 <= i < |results| ==> (i in Indices(kept) <==> FirstOccurrence(results, i)))
    && (forall k :: 0 <= k < |refused| ==>
          && refused[k].index < |results|
          && EarlyRefusal(results, refused[k].index) == Some(refused[k].error)
          && refused[k].error != OutsideK)
    && (forall i :: 0 <= i < |results| ==> (i in RejectedIndices(refused) <==> !FirstOccurrence(results, i)))
  }

  /** The accepted list of the second pass, read against the records' own verdicts:
      every entry is a record the rule keeps, with its transaction and adjusted
      remanent, and every record the rule keeps is there. */
  lemma ValidFromKept(results: seq<Result<Transaction, Error>>, kept: seq<Tagged<Transaction>>, refused: seq<Rejection>,
                      qs: seq<Period>, ps: seq<Period>, ks: seq<Period>, verdicts: seq<Verdict>, valid: seq<Accepted>)
    requires Screened(results, kept, refused)
    requires verdicts == KeptVerdicts(results, kept, qs, ps, ks)
    requires ValidSoFar(kept, verdicts, |kept|, valid)
    ensures forall a :: 0 <= a < |valid| ==>
      && valid[a].index < |results|
      && results[valid[a].index] == Success(valid[a].tx)
      && FilterVerdict(results, valid[a].index, qs, ps, ks) == Keep(valid[a].remanent)
    ensures forall i :: 0 <= i < |results| && FilterVerdict(results, i, qs, ps, ks).Keep? ==>
      i in AcceptedIndices(valid)
  {
    assert kept[..|kept|] == kept;
    forall a | 0 <= a < |valid|
      ensures valid[a].index < |results| && results[valid[a].index] == Success(valid[a].tx)
      ensures FilterVerdict(results, valid[a].index, qs, ps, ks) == Keep(valid[a].remanent)
    {
      var k :| 0 <= k < |kept| && Indices(kept)[k] == valid[a].index;
    }
    forall i | 0 <= i < |results| && FilterVerdict(results, i, qs, ps, ks).Keep?
      ensures i in AcceptedIndices(valid)
    {
      assert FirstOccurrence(results, i);
      var k :| 0 <= k < |kept| && Indices(kept)[k] == i;
    }
  }

  /** The refused list, read the same way: every entry carries the refusal the rule gives
      its record, and every record the rule refuses is there. */
  lemma InvalidFromKept(results: seq<Result<Transaction, Error>>, kept: seq<Tagged<Transaction>>, refused: seq<Rejection>,
                        qs: seq<Period>, ps: seq<Period>, ks: seq<Period>, verdicts: seq<Verdict>, outside: seq<Rejection>)
    requires Screened(results, kept, refused)
    requires verdicts == KeptVerdicts(results, kept, qs, ps, ks)
    requires OutsideSoFar(kept, verdicts, |kept|, outside)
    ensures forall a :: 0 <= a < |refused + outside| ==>
      && (refused + outside)[a].index < |results|
      && FilterVerdict(results, (refused + outside)[a].index, qs, ps, ks) == Refuse((refused + outside)[a].error)
    ensures forall i :: 0 <= i < |results| && FilterVerdict(results, i, qs, ps, ks).Refuse? ==>
      i in RejectedIndices(refused + outside)
    ensures FilterRejectionOrder(refused + outside)
  {
    var invalid := refused + outside;
    assert kept[..|kept|] == kept;
    assert RejectedIndices(invalid) == RejectedIndices(refused) + RejectedIndices(outside);
    forall a | 0 <= a < |outside|
      ensures outside[a].index < |results| && FilterVerdict(results, outside[a].index, qs, ps, ks) == Refuse(OutsideK)
    {
      var k :| 0 <= k < |kept| && Indices(kept)[k] == outside[a].index;
    }
    forall i | 0 <= i < |results| && FilterVerdict(results, i, qs, ps, ks).Refuse? && FirstOccurrence(results, i)
      ensures i in RejectedIndices(outside)
    {
      var k :| 0 <= k < |kept| && Indices(kept)[k] == i;
    }
  }

  /** `filter_transactions`: canonicalise every record, keep the first per timestamp,
      adjust the kept ones by the temporal rules, then sort them into `valid` and
      `invalid`. Read record by record, the outcome is exactly `FilterVerdict`: the records
      it keeps are in `valid` in input order with their adjusted remanent, the ones it
      refuses are in `invalid` with its reason (early refusals first, then the
      out-of-window ones, each in input order), and the ones it drops are in neither. */
  method FilterTransactions(raws: seq<RawTransaction>, qs: seq<Period>, ps: seq<Period>, ks: seq<Period>, strategy: Strategy)
    returns (r: Filtered)
    requires WellIndexed(qs) && Ordered(ps) && Ordered(ks)
    ensures var results := Canonicalize(raws, false);
      forall a :: 0 <= a < |r.valid| ==>
        && r.valid[a].index < |raws|
        && results[r.valid[a].index] == Success(r.valid[a].tx)
        && FilterVerdict(results, r.valid[a].index, qs, ps, ks) == Keep(r.valid[a].remanent)
    ensures StrictlyIncreasing(AcceptedIndices(r.valid))
    ensures var results := Canonicalize(raws, false);
      forall i :: 0 <= i < |raws| && FilterVerdict(results, i, qs, ps, ks).Keep? ==> i in AcceptedIndices(r.valid)
    ensures var results := Canonicalize(raws, false);
      forall a :: 0 <= a < |r.invalid| ==>
        && r.invalid[a].index < |raws|
        && FilterVerdict(results, r.invalid[a].index, qs, ps, ks) == Refuse(r.invalid[a].error)
    ensures var results := Canonicalize(raws, false);
      forall i :: 0 <= i < |raws| && FilterVerdict(results, i, qs, ps, ks).Refuse? ==> i in RejectedIndices(r.invalid)
    ensures FilterRejectionOrder(r.invalid)
  {
    var results := Canonicalize(raws, false);
    var kept, refused := ScreenForFilter(results);
    assert Screened(results, kept, refused);
    var txs := Items(kept);
    var adjusted := ApplyTemporalRules(txs, qs, ps, strategy);
    var membership := MembershipInK(Epochs(txs), ks);
    var verdicts := KeptVerdicts(results, kept, qs, ps, ks);
    forall k | 0 <= k < |kept|
      ensures verdicts[k] ==
        if !membership[k] then Refuse(OutsideK) else if adjusted[k] <= 0 then Drop else Keep(adjusted[k])
    {
      assert kept[k].index in Indices(kept);
      KeptVerdict(results, kept[k].index, kept[k].item, qs, ps, ks, adjusted[k], membership[k]);
    }
    var valid, outside := SplitKept(kept, adjusted, membership, verdicts);
    ValidFromKept(results, kept, refused, qs, ps, ks, verdicts, valid);
    InvalidFromKept(results, kept, refused, qs, ps, ks, verdicts, outside);
    r := Filtered(valid, refused + outside);
  }
}
