/** `calculate_returns`: the savings per `k` window of the first-occurrence records,
    adjusted by the temporal rules, with the growth and tax figures for each window.
    Every figure is stated against the raw records: a total or window amount is a sum,
    over the positions of the input, of what each first occurrence contributes. */
module Returns {
  import opened Wrappers
  import opened TimeUtils
  import opened Records
  import opened Seqs
  import opened Ordering
  import opened Canonical
  import opened Windows
  import opened Engine
  import Finance

  /** The `instrument` argument: `"nps"` selects the pension scheme, anything else the index fund. */
  datatype Instrument = Nps | Index

  function Rate(instrument: Instrument): real {
    if instrument == Nps then Finance.NpsRate else Finance.IndexRate
  }

  /** One entry of `savingsByDates`. */
  datatype DatedSaving = DatedSaving(start: Instant, end: Instant, amount: int, profit: real, taxBenefit: real)

  datatype Returns = Returns(totalAmount: int, totalCeiling: int, savingsByDates: seq<DatedSaving>)

  /** What record `i` contributes to a total: `f` of its transaction when it is the first
      occurrence of its timestamp, and nothing otherwise. */
  function Counted(results: seq<Result<Transaction, Error>>, f: Transaction -> int): nat -> int {
    (i: nat) => if i < |results| && FirstOccurrence(results, i) then f(results[i].value) else 0
  }

  /** A transaction's contribution to window `period`: its adjusted remanent when its
      instant lies in the window, and nothing otherwise. */
  function InWindow(qs: seq<Period>, ps: seq<Period>, period: Period): Transaction -> int {
    (tx: Transaction) => if Contains(period, Epoch(tx)) then AdjustedRemanent(tx, qs, ps) else 0
  }

  /** Some record survives canonicalisation and de-duplication. */
  predicate HasValid(results: seq<Result<Transaction, Error>>) {
    exists i :: 0 <= i < |results| && FirstOccurrence(results, i)
  }

  /** `kept` is exactly the first occurrences of `results`, in input order. */
  predicate KeptFirst(results: seq<Result<Transaction, Error>>, kept: seq<Tagged<Transaction>>) {
    && StrictlyIncreasing(Indices(kept))
    && (forall k :: 0 <= k < |kept| ==>
          kept[k].index < |results| && results[kept[k].index] == Success(kept[k].item))
    && (forall i :: 0 <= i < |results| ==> (i in Indices(kept) <==> FirstOccurrence(results, i)))
  }

  /** The sum over the first `m` kept records is the masked sum over the first `n`
      positions, when exactly those records lie below `n`. */
  lemma {:induction false} KeptPrefixSum(results: seq<Result<Transaction, Error>>, kept: seq<Tagged<Transaction>>,
                                         f: Transaction -> int, n: nat, m: nat)
    requires KeptFirst(results, kept)
    requires n <= |results| && m <= |kept|
    requires forall k :: 0 <= k < m ==> kept[k].index < n
    requires forall k :: m <= k < |kept| ==> kept[k].index >= n
    ensures Sum(Items(kept[..m]), f) == Sum(Range(n), Counted(results, f))
  {
    if n == 0 {
      assert m == 0;
      assert Items(kept[..m]) == [];
      assert Range(n) == [];
    } else {
      var last := n - 1;
      assert Range(n) == Range(last) + [last];
      SumAppend<nat>(Range(last), [last], Counted(results, f));
      assert Sum<nat>([last], Counted(results, f)) == Counted(results, f)(last);
      if m > 0 && kept[m - 1].index == last {
        assert last in Indices(kept) by {
          assert Indices(kept)[m - 1] == last;
        }
        assert Items(kept[..m]) == Items(kept[..m - 1]) + [kept[m - 1].item];
        SumAppend(Items(kept[..m - 1]), [kept[m - 1].item], f);
        assert Sum([kept[m - 1].item], f) == f(kept[m - 1].item);
        forall k | 0 <= k < m - 1
          ensures kept[k].index < last
        {
          assert Indices(kept)[k] < Indices(kept)[m - 1];
        }
        KeptPrefixSum(results, kept, f, last, m - 1);
      } else {
        forall k | 0 <= k < m
          ensures kept[k].index < last
        {
          if k < m - 1 {
            assert Indices(kept)[k] < Indices(kept)[m - 1];
          }
        }
        forall k | 0 <= k < |kept|
          ensures Indices(kept)[k] != last
        {
        }
        KeptPrefixSum(results, kept, f, last, m);
      }
    }
  }

  /** A sum over the kept records is the masked sum over every position of the input. */
  lemma KeptSum(results: seq<Result<Transaction, Error>>, kept: seq<Tagged<Transaction>>, f: Transaction -> int)
    requires KeptFirst(results, kept)
    ensures Sum(Items(kept), f) == Sum(Range(|results|), Counted(results, f))
  {
    assert kept[..|kept|] == kept;
    KeptPrefixSum(results, kept, f, |results|, |kept|);
  }

  /** The contribution the aggregation sees at a position of the chronological order:
      that transaction's instant and adjusted remanent. */
  function StampContribution(adjusted: seq<int>): Stamp -> Contribution {
    (s: Stamp) => Contribution(s.epoch, if s.index < |adjusted| then adjusted[s.index] else 0)
  }

  /** The amount of a window, computed over the contributions in chronological order,
      is the masked sum over the input of the adjusted remanents inside the window. */
  lemma SavingReadsRecords(results: seq<Result<Transaction, Error>>, kept: seq<Tagged<Transaction>>,
                           qs: seq<Period>, ps: seq<Period>, adjusted: seq<int>, order: seq<Stamp>,
                           period: Period, saving: Saving)
    requires KeptFirst(results, kept)
    requires |adjusted| == |kept|
    requires forall k :: 0 <= k < |kept| ==> adjusted[k] == AdjustedRemanent(kept[k].item, qs, ps)
    requires order == OrderByEpoch(Epochs(Items(kept)))
    requires period.start.epoch <= period.end.epoch
    requires SavesWindow(Map(order, StampContribution(adjusted)), period, saving)
    ensures saving.amount == Sum(Range(|results|), Counted(results, InWindow(qs, ps, period)))
  {
    var epochs := Epochs(Items(kept));
    var within := Within(period.start.epoch, period.end.epoch);
    SumPermutationMapped(order, Stamps(epochs), StampContribution(adjusted), within);
    SumAligned(Map(Stamps(epochs), StampContribution(adjusted)), Items(kept), within, InWindow(qs, ps, period));
    KeptSum(results, kept, InWindow(qs, ps, period));
  }

  /** With rule values and remanents non-negative, no window total is negative. */
  lemma WindowNonNegative(results: seq<Result<Transaction, Error>>, qs: seq<Period>, ps: seq<Period>, period: Period)
    requires Canonicalised(results) && BuiltPeriods(qs) && BuiltPeriods(ps)
    ensures Sum(Range(|results|), Counted(results, InWindow(qs, ps, period))) >= 0
  {
    forall i | 0 <= i < |Range(|results|)|
      ensures Counted(results, InWindow(qs, ps, period))(Range(|results|)[i]) >= 0
    {
      if FirstOccurrence(results, i) {
        AdjustedNonNegative(results[i].value, qs, ps);
      }
    }
    SumNonNegative(Range(|results|), Counted(results, InWindow(qs, ps, period)));
  }

  /** What an entry of `savingsByDates` holds for window `period`: the window's bounds,
      the adjusted remanents of the first occurrences inside it, the real profit of
      investing that amount until the horizon, and the pension tax benefit (for the
      pension scheme only). */
  predicate DatedFor(results: seq<Result<Transaction, Error>>, qs: seq<Period>, ps: seq<Period>,
                     instrument: Instrument, age: int, wage: int, inflation: real,
                     period: Period, dated: DatedSaving) {
    && dated.start == period.start && dated.end == period.end
    && dated.amount == Sum(Range(|results|), Counted(results, InWindow(qs, ps, period)))
    && dated.amount >= 0
    && Finance.ComputeRealReturn(dated.amount as real, Rate(instrument), inflation, Finance.YearsToHorizon(age)).Success?
    && Finance.ComputeRealReturn(dated.amount as real, Rate(instrument), inflation, Finance.YearsToHorizon(age)).value.profit
       == dated.profit
    && (instrument == Nps ==> dated.taxBenefit == Finance.NpsTaxBenefit(dated.amount, wage))
    && (instrument == Index ==> dated.taxBenefit == 0.0)
    && dated.taxBenefit >= 0.0
  }

  /** The growth and tax figures of one window. */
  method DateSaving(ghost results: seq<Result<Transaction, Error>>, qs: seq<Period>, ps: seq<Period>,
                    instrument: Instrument, age: int, wage: int, inflation: real, period: Period, saving: Saving)
    returns (dated: DatedSaving)
    requires wage >= 0 && inflation >= 0.0
    requires saving.start == period.start && saving.end == period.end
    requires saving.amount == Sum(Range(|results|), Counted(results, InWindow(qs, ps, period)))
    requires saving.amount >= 0
    ensures DatedFor(results, qs, ps, instrument, age, wage, inflation, period, dated)
  {
    var growth := Finance.ComputeRealReturn(saving.amount as real, Rate(instrument), inflation, Finance.YearsToHorizon(age));
    var taxBenefit := if instrument == Nps then Finance.NpsTaxBenefit(saving.amount, wage) else 0.0;
    dated := DatedSaving(saving.start, saving.end, saving.amount, growth.value.profit, taxBenefit);
  }

  /** The figures `calculate_returns` reports for the first occurrences `kept`. */
  method ReturnsOfKept(ghost results: seq<Result<Transaction, Error>>, kept: seq<Tagged<Transaction>>,
                       instrument: Instrument, age: int, wage: int, inflation: real,
                       qs: seq<Period>, ps: seq<Period>, ks: seq<Period>, strategy: Overrides.Strategy)
    returns (r: Returns)
    requires KeptFirst(results, kept) && Canonicalised(results)
    requires BuiltPeriods(qs) && BuiltPeriods(ps) && BuiltPeriods(ks)
    requires wage >= 0 && inflation >= 0.0
    ensures r.totalAmount == Sum(Range(|results|), Counted(results, AmountOf))
    ensures r.totalCeiling == Sum(Range(|results|), Counted(results, CeilingOf))
    ensures |r.savingsByDates| == |ks|
    ensures forall j :: 0 <= j < |ks| ==>
      DatedFor(results, qs, ps, instrument, age, wage, inflation, ks[j], r.savingsByDates[j])
  {
    var txs := Items(kept);
    var adjusted := ApplyTemporalRules(txs, qs, ps, strategy);
    var order := OrderByEpoch(Epochs(txs));
    var contributions := Map(order, StampContribution(adjusted));
    assert ByEpoch(contributions);
    var savings := AggregateSavingsByK(contributions, ks, true);
    KeptSum(results, kept, AmountOf);
    KeptSum(results, kept, CeilingOf);
    var dated := DateSavings(results, kept, instrument, age, wage, inflation, qs, ps, ks, adjusted, order, savings);
    r := Returns(Sum(txs, AmountOf), Sum(txs, CeilingOf), dated);
  }

  /** The loop of `calculate_returns` over the window savings. */
  method DateSavings(ghost results: seq<Result<Transaction, Error>>, kept: seq<Tagged<Transaction>>,
                     instrument: Instrument, age: int, wage: int, inflation: real,
                     qs: seq<Period>, ps: seq<Period>, ks: seq<Period>,
                     adjusted: seq<int>, order: seq<Stamp>, savings: seq<Saving>)
    returns (dated: seq<DatedSaving>)
    requires KeptFirst(results, kept) && Canonicalised(results)
    requires BuiltPeriods(qs) && BuiltPeriods(ps) && Ordered(ks)
    requires wage >= 0 && inflation >= 0.0
    requires |adjusted| == |kept|
    requires forall k :: 0 <= k < |kept| ==> adjusted[k] == AdjustedRemanent(kept[k].item, qs, ps)
    requires order == OrderByEpoch(Epochs(Items(kept)))
    requires |savings| == |ks|
    requires forall j :: 0 <= j < |ks| ==> SavesWindow(Map(order, StampContribution(adjusted)), ks[j], savings[j])
    ensures |dated| == |ks|
    ensures forall j :: 0 <= j < |ks| ==>
      DatedFor(results, qs, ps, instrument, age, wage, inflation, ks[j], dated[j])
  {
    forall j | 0 <= j < |ks|
      ensures savings[j].start == ks[j].start && savings[j].end == ks[j].end
      ensures savings[j].amount == Sum(Range(|results|), Counted(results, InWindow(qs, ps, ks[j])))
      ensures savings[j].amount >= 0
    {
      SavingReadsRecords(results, kept, qs, ps, adjusted, order, ks[j], savings[j]);
      WindowNonNegative(results, qs, ps, ks[j]);
    }
    dated := DateEach(results, qs, ps, instrument, age, wage, inflation, ks, savings);
  }

  /** The growth and tax figures of every window, in the windows' order. */
  method DateEach(ghost results: seq<Result<Transaction, Error>>, qs: seq<Period>, ps: seq<Period>,
                  instrument: Instrument, age: int, wage: int, inflation: real,
                  ks: seq<Period>, savings: seq<Saving>)
    returns (dated: seq<DatedSaving>)
    requires wage >= 0 && inflation >= 0.0
    requires |savings| == |ks|
    requires forall j :: 0 <= j < |ks| ==>
      && savings[j].start == ks[j].start && savings[j].end == ks[j].end
      && savings[j].amount == Sum(Range(|results|), Counted(results, InWindow(qs, ps, ks[j])))
      && savings[j].amount >= 0
    ensures |dated| == |ks|
    ensures forall j :: 0 <= j < |ks| ==>
      DatedFor(results, qs, ps, instrument, age, wage, inflation, ks[j], dated[j])
  {
    dated := [];
    for j := 0 to |ks|
      invariant |dated| == j
      invariant forall i :: 0 <= i < j ==>
        DatedFor(results, qs, ps, instrument, age, wage, inflation, ks[i], dated[i])
    {
      var entry := DateSaving(results, qs, ps, instrument, age, wage, inflation, ks[j], savings[j]);
      dated := dated + [entry];
    }
  }

  /** `calculate_returns`. The checks come in the source's order: age, wage, inflation,
      then at least one first occurrence among the records. On success the totals are
      the amounts and ceilings of the first occurrences (ceilings recomputed from the
      amounts), and there is one entry per window, in the windows' order. */
  method CalculateReturns(instrument: Instrument, age: int, wage: int, inflation: real, raws: seq<RawTransaction>,
                          qs: seq<Period>, ps: seq<Period>, ks: seq<Period>, strategy: Overrides.Strategy)
    returns (r: Result<Returns, Error>)
    requires BuiltPeriods(qs) && BuiltPeriods(ps) && BuiltPeriods(ks)
    ensures age < 0 ==> r == Failure(NegativeAge)
    ensures age >= 0 && wage < 0 ==> r == Failure(NegativeWage)
    ensures age >= 0 && wage >= 0 && inflation < 0.0 ==> r == Failure(NegativeInflation)
    ensures age >= 0 && wage >= 0 && inflation >= 0.0 ==>
      (r.Success? <==> HasValid(Canonicalize(StripAll(raws), false)))
    ensures r.Failure? && age >= 0 && wage >= 0 && inflation >= 0.0 ==> r.error == NoValidTransactions
    ensures r.Success? ==>
      var results := Canonicalize(StripAll(raws), false);
      && r.value.totalAmount == Sum(Range(|raws|), Counted(results, AmountOf))
      && r.value.totalCeiling == Sum(Range(|raws|), Counted(results, CeilingOf))
      && |r.value.savingsByDates| == |ks|
      && forall j :: 0 <= j < |ks| ==>
           DatedFor(results, qs, ps, instrument, age, wage, NormalizeInflationRate(inflation).value,
                    ks[j], r.value.savingsByDates[j])
  {
    if age < 0 {
      return Failure(NegativeAge);
    }
    if wage < 0 {
      return Failure(NegativeWage);
    }
    var normalized :- NormalizeInflationRate(inflation);
    var kept, invalidCount, duplicateCount := PrepareReturnsTransactions(raws);
    ghost var results := Canonicalize(StripAll(raws), false);
    assert KeptFirst(results, kept);
    if |kept| == 0 {
      assert !HasValid(results) by {
        forall i | 0 <= i < |results|
          ensures !FirstOccurrence(results, i)
        {
          assert i !in Indices(kept);
        }
      }
      return Failure(NoValidTransactions);
    }
    assert HasValid(results) by {
      assert kept[0].index in Indices(kept);
    }
    var figures := ReturnsOfKept(results, kept, instrument, age, wage, normalized, qs, ps, ks, strategy);
    r := Success(figures);
  }
}
