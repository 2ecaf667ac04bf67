/** Turning raw records into canonical transactions and rule periods:
    `_to_float`, `_canonical_transaction`, `build_transactions`,
    `_build_periods`, `_normalize_inflation_rate` and the first-occurrence
    rule that the validator, the filter and the returns driver share. */
module Canonical {
  import opened Wrappers
  import opened TimeUtils
  import opened Records
  import opened Seqs
  import Finance

  /** `_to_float`: a missing field and a non-numeric one are distinct errors. */
  function ToNumber(n: Number, field: Field): (r: Result<int, Error>)
    ensures n.Value? <==> r.Success?
    ensures n.Value? ==> r.value == n.cents
    ensures n.Missing? ==> r == Failure(MissingField(field))
    ensures n.NotNumeric? ==> r == Failure(NonNumericField(field))
  {
    match n
    case Missing => Failure(MissingField(field))
    case NotNumeric => Failure(NonNumericField(field))
    case Value(c) => Success(c)
  }

  /** Python's `first or second` on two optional strings: an empty first string is falsy. */
  function PickTimestamp(first: Option<string>, second: Option<string>): (r: Option<string>)
    ensures first.Some? && first.value != "" ==> r == first
    ensures (first.None? || first.value == "") ==> r == second
  {
    if first.Some? && first.value != "" then first else second
  }

  function ParseInstant(s: string): (r: Result<Instant, Error>)
    ensures r.Success? <==> ParseTimestamp(s).Success?
    ensures r.Success? ==> r.value == ParseTimestamp(s).value && |r.value.text| == 19
  {
    match ParseTimestamp(s)
    case Success(i) => Success(i)
    case Failure(e) => Failure(BadTimestamp(e))
  }

  /** A transaction that satisfies the invariants `_canonical_transaction` checks. */
  predicate WellFormed(tx: Transaction) {
    && 0 <= tx.amount < Finance.AmountLimit
    && tx.amount <= tx.ceiling
    && tx.remanent >= 0
    && |tx.instant.text| == 19
  }

  /** The reasons `_canonical_transaction` can give for refusing a record. */
  predicate TransactionError(e: Error) {
    || e.BadTimestamp? || e == MissingTimestamp || e.MissingField? || e.NonNumericField?
    || e == NegativeAmount || e == AmountTooLarge || e == CeilingBelowAmount || e == NegativeRemanent
  }

  /** A ceiling or remanent field as `_canonical_transaction` reads it: the supplied field when
      it is required or present, otherwise the value computed from the amount. */
  function Resolved(n: Number, required: bool, computed: int): (r: Number)
    ensures required || !n.Missing? ==> r == n
    ensures !required && n.Missing? ==> r == Value(computed)
  {
    if required || !n.Missing? then n else Value(computed)
  }

  /** The timestamp of a record is picked and parses, and its amount is in range. */
  predicate ReadableAmount(raw: RawTransaction) {
    var s := PickTimestamp(raw.date, raw.timestamp);
    && s.Some? && ParseTimestamp(s.value).Success?
    && raw.amount.Value? && 0 <= raw.amount.cents < Finance.AmountLimit
  }

  /** The ceiling as read for a record with a non-negative amount. */
  function CeilingRead(raw: RawTransaction, requireCeilingAndRemanent: bool): Number
    requires raw.amount.Value? && raw.amount.cents >= 0
  {
    Resolved(raw.ceiling, requireCeilingAndRemanent, Finance.NextMultipleOf100(raw.amount.cents).value)
  }

  /** The remanent as read for a record with a non-negative amount. */
  function RemanentRead(raw: RawTransaction, requireCeilingAndRemanent: bool): Number
    requires raw.amount.Value? && raw.amount.cents >= 0
  {
    Resolved(raw.remanent, requireCeilingAndRemanent, Finance.RemanentFromAmount(raw.amount.cents).value)
  }

  /** Every check of `_canonical_transaction` passes, stated all at once rather than in order. */
  predicate Admissible(raw: RawTransaction, requireCeilingAndRemanent: bool) {
    && ReadableAmount(raw)
    && var ceiling := CeilingRead(raw, requireCeilingAndRemanent);
       var remanent := RemanentRead(raw, requireCeilingAndRemanent);
       && ceiling.Value? && remanent.Value?
       && ceiling.cents >= raw.amount.cents && remanent.cents >= 0
  }

  /** The reason `_canonical_transaction` gives for a refused record, one check at a time
      in the order the checks run: the timestamp, the amount, then the ceiling and remanent. */
  predicate RefusedInOrder(raw: RawTransaction, requireCeilingAndRemanent: bool, r: Result<Transaction, Error>) {
    var s := PickTimestamp(raw.date, raw.timestamp);
    && (s.Some? && ParseTimestamp(s.value).Failure? ==> r == Failure(BadTimestamp(ParseTimestamp(s.value).error)))
    && (s.Some? && ParseTimestamp(s.value).Success? ==>
      && (!raw.amount.Value? ==> r == Failure(ToNumber(raw.amount, AmountField).error))
      && (raw.amount.Value? && raw.amount.cents < 0 ==> r == Failure(NegativeAmount))
      && (raw.amount.Value? && raw.amount.cents >= Finance.AmountLimit ==> r == Failure(AmountTooLarge)))
    && (ReadableAmount(raw) ==>
      var ceiling := CeilingRead(raw, requireCeilingAndRemanent);
      var remanent := RemanentRead(raw, requireCeilingAndRemanent);
      && (!ceiling.Value? ==> r == Failure(ToNumber(raw.ceiling, CeilingField).error))
      && (ceiling.Value? && !remanent.Value? ==> r == Failure(ToNumber(raw.remanent, RemanentField).error))
      && (ceiling.Value? && remanent.Value? && ceiling.cents < raw.amount.cents ==> r == Failure(CeilingBelowAmount))
      && (ceiling.Value? && remanent.Value? && ceiling.cents >= raw.amount.cents && remanent.cents < 0 ==>
            r == Failure(NegativeRemanent)))
  }

  /** The ceiling and remanent a transaction ends up with. */
  datatype Fields = Fields(ceiling: int, remanent: int)

  /** The second half of `_canonical_transaction`, once the amount is known to be in range:
      read or compute the ceiling and the remanent, then check them against the amount. */
  function ReadFields(raw: RawTransaction, requireCeilingAndRemanent: bool): (r: Result<Fields, Error>)
    requires raw.amount.Value? && 0 <= raw.amount.cents < Finance.AmountLimit
    ensures var ceiling := CeilingRead(raw, requireCeilingAndRemanent);
      var remanent := RemanentRead(raw, requireCeilingAndRemanent);
      && (r.Success? <==> ceiling.Value? && remanent.Value? && ceiling.cents >= raw.amount.cents && remanent.cents >= 0)
      && (r.Success? ==> r.value == Fields(ceiling.cents, remanent.cents))
      && (!ceiling.Value? ==> r == Failure(ToNumber(raw.ceiling, CeilingField).error))
      && (ceiling.Value? && !remanent.Value? ==> r == Failure(ToNumber(raw.remanent, RemanentField).error))
      && (ceiling.Value? && remanent.Value? && ceiling.cents < raw.amount.cents ==> r == Failure(CeilingBelowAmount))
      && (ceiling.Value? && remanent.Value? && ceiling.cents >= raw.amount.cents && remanent.cents < 0 ==>
            r == Failure(NegativeRemanent))
  {
    var amount := raw.amount.cents;
    var ceiling :-
      if requireCeilingAndRemanent || !raw.ceiling.Missing? then ToNumber(raw.ceiling, CeilingField)
      else Success(Finance.NextMultipleOf100(amount).value);
    var remanent :-
      if requireCeilingAndRemanent || !raw.remanent.Missing? then ToNumber(raw.remanent, RemanentField)
      else Success(Finance.RemanentFromAmount(amount).value);
    if ceiling < amount then Failure(CeilingBelowAmount)
    else if remanent < 0 then Failure(NegativeRemanent)
    else Success(Fields(ceiling, remanent))
  }

  /** `_canonical_transaction` with the amount limit enforced (every caller enforces it).
      With `requireCeilingAndRemanent` both fields must be supplied; otherwise each
      supplied field is kept and each missing one is computed from the amount. */
  function CanonicalTransaction(raw: RawTransaction, requireCeilingAndRemanent: bool)
    : (r: Result<Transaction, Error>)
    ensures r.Success? ==> WellFormed(r.value)
    ensures r.Success? ==>
      var s := PickTimestamp(raw.date, raw.timestamp);
      s.Some? && ParseTimestamp(s.value) == Success(r.value.instant)
    ensures r.Success? ==> raw.amount == Value(r.value.amount)
    ensures r.Success? && (requireCeilingAndRemanent || !raw.ceiling.Missing?) ==>
      raw.ceiling == Value(r.value.ceiling)
    ensures r.Success? && (requireCeilingAndRemanent || !raw.remanent.Missing?) ==>
      raw.remanent == Value(r.value.remanent)
    ensures r.Success? && !requireCeilingAndRemanent && raw.ceiling.Missing? ==>
      r.value.ceiling % Finance.Hundred == 0 && r.value.ceiling < r.value.amount + Finance.Hundred
    ensures r.Success? && !requireCeilingAndRemanent && raw.ceiling.Missing? && raw.remanent.Missing? ==>
      r.value.amount + r.value.remanent == r.value.ceiling
    ensures r.Success? && !requireCeilingAndRemanent && raw.ceiling.Missing? ==>
      r.value.ceiling == Finance.NextMultipleOf100(r.value.amount).value
    ensures r.Success? && !requireCeilingAndRemanent && raw.remanent.Missing? ==>
      r.value.amount + r.value.remanent == Finance.NextMultipleOf100(r.value.amount).value
    ensures r.Success? <==> Admissible(raw, requireCeilingAndRemanent)
    ensures PickTimestamp(raw.date, raw.timestamp).None? ==> r == Failure(MissingTimestamp)
    ensures RefusedInOrder(raw, requireCeilingAndRemanent, r)
    ensures r.Failure? ==> TransactionError(r.error)
  {
    var picked := PickTimestamp(raw.date, raw.timestamp);
    if picked.None? then Failure(MissingTimestamp)
    else
      var instant :- ParseInstant(picked.value);
      var amount :- ToNumber(raw.amount, AmountField);
      if amount < 0 then Failure(NegativeAmount)
      else if amount >= Finance.AmountLimit then Failure(AmountTooLarge)
      else
        var fields :- ReadFields(raw, requireCeilingAndRemanent);
        Success(Transaction(instant, amount, fields.ceiling, fields.remanent))
  }

  /** A negative amount on a record with a readable timestamp is reported as such,
      whatever its other fields say. */
  lemma NegativeAmountRejected(raw: RawTransaction, requireCeilingAndRemanent: bool)
    requires PickTimestamp(raw.date, raw.timestamp).Some?
    requires ParseTimestamp(PickTimestamp(raw.date, raw.timestamp).value).Success?
    requires raw.amount.Value? && raw.amount.cents < 0
    ensures CanonicalTransaction(raw, requireCeilingAndRemanent) == Failure(NegativeAmount)
  {
  }

  /** A record with a readable timestamp and an in-range amount, whose ceiling and remanent
      are left to be computed, is always accepted: the computed values pass both checks. */
  lemma ComputedFieldsAccepted(raw: RawTransaction)
    requires ReadableAmount(raw) && raw.ceiling.Missing? && raw.remanent.Missing?
    ensures CanonicalTransaction(raw, false).Success?
    ensures var tx := CanonicalTransaction(raw, false).value;
      tx.amount == raw.amount.cents && tx.ceiling == Finance.NextMultipleOf100(tx.amount).value
      && tx.remanent == tx.ceiling - tx.amount
  {
    hide CanonicalTransaction, RefusedInOrder;
  }

  // ---------------------------------------------------------------- parse endpoint

  /** One expense of `build_transactions`: note the `timestamp` key is tried before `date`. */
  function BuildExpense(raw: RawTransaction): (r: Result<Transaction, Error>)
    ensures r.Success? ==> WellFormed(r.value) && raw.amount == Value(r.value.amount)
    ensures r.Success? ==> r.value.ceiling % Finance.Hundred == 0
    ensures r.Success? ==> r.value.amount <= r.value.ceiling < r.value.amount + Finance.Hundred
    ensures r.Success? ==> r.value.remanent == r.value.ceiling - r.value.amount
    ensures r.Success? ==>
      var s := PickTimestamp(raw.timestamp, raw.date);
      s.Some? && ParseTimestamp(s.value) == Success(r.value.instant)
    ensures PickTimestamp(raw.timestamp, raw.date).None? ==> r == Failure(MissingExpenseTimestamp)
    ensures var s := PickTimestamp(raw.timestamp, raw.date);
      s.Some? && ParseTimestamp(s.value).Failure? ==> r == Failure(BadTimestamp(ParseTimestamp(s.value).error))
    ensures var s := PickTimestamp(raw.timestamp, raw.date);
      s.Some? && ParseTimestamp(s.value).Success? && !raw.amount.Value? ==>
        r == Failure(ToNumber(raw.amount, AmountField).error)
    ensures var s := PickTimestamp(raw.timestamp, raw.date);
      s.Some? && ParseTimestamp(s.value).Success? && raw.amount.Value? && raw.amount.cents < 0 ==>
        r == Failure(NegativeExpense)
    ensures var s := PickTimestamp(raw.timestamp, raw.date);
      s.Some? && ParseTimestamp(s.value).Success? && raw.amount.Value? && raw.amount.cents >= Finance.AmountLimit ==>
        r == Failure(ExpenseTooLarge)
    ensures var s := PickTimestamp(raw.timestamp, raw.date);
      s.Some? && ParseTimestamp(s.value).Success? && raw.amount.Value? && 0 <= raw.amount.cents < Finance.AmountLimit ==>
        r.Success?
  {
    var picked := PickTimestamp(raw.timestamp, raw.date);
    if picked.None? then Failure(MissingExpenseTimestamp)
    else
      var instant :- ParseInstant(picked.value);
      var amount :- ToNumber(raw.amount, AmountField);
      if amount < 0 then Failure(NegativeExpense)
      else if amount >= Finance.AmountLimit then Failure(ExpenseTooLarge)
      else
        var ceiling := Finance.NextMultipleOf100(amount).value;
        Success(Transaction(instant, amount, ceiling, ceiling - amount))
  }

  /** The parse endpoint's answer: the transactions and three totals. */
  datatype Parsed = Parsed(transactions: seq<Transaction>, totalAmount: int, totalCeiling: int, totalRemanent: int)

  function AmountOf(tx: Transaction): int { tx.amount }
  function CeilingOf(tx: Transaction): int { tx.ceiling }
  function RemanentOf(tx: Transaction): int { tx.remanent }

  /** `build_transactions`: the first bad expense aborts the whole request; otherwise
      one transaction per expense, in order, with the totals over them. */
  method BuildTransactions(expenses: seq<RawTransaction>) returns (r: Result<Parsed, Error>)
    ensures r.Success? <==> forall i :: 0 <= i < |expenses| ==> BuildExpense(expenses[i]).Success?
    ensures r.Failure? ==> exists i :: 0 <= i < |expenses| && BuildExpense(expenses[i]) == Failure(r.error)
                                       && forall j :: 0 <= j < i ==> BuildExpense(expenses[j]).Success?
    ensures r.Success? ==> |r.value.transactions| == |expenses|
    ensures r.Success? ==> forall i :: 0 <= i < |expenses| ==> r.value.transactions[i] == BuildExpense(expenses[i]).value
    ensures r.Success? ==> r.value.totalAmount == Sum(r.value.transactions, AmountOf)
    ensures r.Success? ==> r.value.totalCeiling == Sum(r.value.transactions, CeilingOf)
    ensures r.Success? ==> r.value.totalRemanent == Sum(r.value.transactions, RemanentOf)
    ensures r.Success? ==> r.value.totalCeiling == r.value.totalAmount + r.value.totalRemanent
  {
    hide BuildExpense, ParseTimestamp;
    var txs: seq<Transaction> := [];
    for i := 0 to |expenses|
      invariant |txs| == i
      invariant forall j :: 0 <= j < i ==> BuildExpense(expenses[j]).Success?
      invariant forall j :: 0 <= j < i ==> txs[j] == BuildExpense(expenses[j]).value
      invariant forall j :: 0 <= j < i ==> CeilingOf(txs[j]) == AmountOf(txs[j]) + RemanentOf(txs[j])
    {
      var built := BuildExpense(expenses[i]);
      if built.Failure? {
        return Failure(built.error);
      }
      txs := txs + [built.value];
    }
    SumSplit(txs, CeilingOf, AmountOf, RemanentOf);
    r := Success(Parsed(txs, Sum(txs, AmountOf), Sum(txs, CeilingOf), Sum(txs, RemanentOf)));
  }

  // ---------------------------------------------------------------- periods

  /** The `fixed` value of a `q` period or the `extra` value of a `p` period, with its
      bound checks; a `k` period has none. */
  function PeriodValue(n: Number, kind: Kind): (r: Result<int, Error>)
    ensures kind == K ==> r == Success(0)
    ensures kind != K && r.Success? ==> n == Value(r.value) && 0 <= r.value < Finance.AmountLimit
    ensures kind == Q && n.Value? && n.cents < 0 ==> r == Failure(NegativeFixed)
    ensures kind == P && n.Value? && n.cents < 0 ==> r == Failure(NegativeExtra)
    ensures kind == Q && n.Value? && n.cents >= Finance.AmountLimit ==> r == Failure(FixedTooLarge)
    ensures kind == P && n.Value? && n.cents >= Finance.AmountLimit ==> r == Failure(ExtraTooLarge)
    ensures kind != K && n.Value? && 0 <= n.cents < Finance.AmountLimit ==> r == Success(n.cents)
    ensures kind == Q && !n.Value? ==> r == Failure(ToNumber(n, FixedField).error)
    ensures kind == P && !n.Value? ==> r == Failure(ToNumber(n, ExtraField).error)
  {
    match kind
    case K => Success(0)
    case Q =>
      var fixed :- ToNumber(n, FixedField);
      if fixed < 0 then Failure(NegativeFixed)
      else if fixed >= Finance.AmountLimit then Failure(FixedTooLarge)
      else Success(fixed)
    case P =>
      var extra :- ToNumber(n, ExtraField);
      if extra < 0 then Failure(NegativeExtra)
      else if extra >= Finance.AmountLimit then Failure(ExtraTooLarge)
      else Success(extra)
  }

  /** The reason `_build_periods` gives for a refused period with both bounds, one check at a
      time: the start, the end, their order, the single-year rule for `k`, then the value. */
  predicate PeriodRefusedInOrder(raw: RawPeriod, kind: Kind, index: nat, r: Result<Period, Error>) {
    raw.start.Some? && raw.end.Some? ==>
      var start := ParseTimestamp(raw.start.value);
      var end := ParseTimestamp(raw.end.value);
      && (start.Failure? ==> r == Failure(BadTimestamp(start.error)))
      && (start.Success? && end.Failure? ==> r == Failure(BadTimestamp(end.error)))
      && (start.Success? && end.Success? ==>
        var ordered := start.value.epoch <= end.value.epoch;
        var oneYear := kind == K ==> start.value.text[0..4] == end.value.text[0..4];
        var value := PeriodValue(raw.value, kind);
        && (!ordered ==> r == Failure(PeriodStartAfterEnd(kind, index)))
        && (ordered && !oneYear ==> r == Failure(PeriodSpansYears(kind, index)))
        && (ordered && oneYear && value.Failure? ==> r == Failure(value.error)))
  }

  /** Every check of `_build_periods` passes for this entry, stated all at once. */
  predicate PeriodAdmissible(raw: RawPeriod, kind: Kind) {
    && raw.start.Some? && raw.end.Some?
    && var start := ParseTimestamp(raw.start.value);
       var end := ParseTimestamp(raw.end.value);
       && start.Success? && end.Success? && start.value.epoch <= end.value.epoch
       && (kind == K ==> start.value.text[0..4] == end.value.text[0..4])
       && PeriodValue(raw.value, kind).Success?
  }

  /** One period of `_build_periods`, numbered `index`. */
  function BuildPeriod(raw: RawPeriod, kind: Kind, index: nat): (r: Result<Period, Error>)
    ensures r.Success? ==> r.value.index == index && r.value.start.epoch <= r.value.end.epoch
    ensures r.Success? ==> raw.start.Some? && raw.end.Some?
    ensures r.Success? ==> |r.value.start.text| == 19 && |r.value.end.text| == 19
    ensures r.Success? && kind == K ==> r.value.start.text[0..4] == r.value.end.text[0..4]
    ensures r.Success? ==> PeriodValue(raw.value, kind) == Success(r.value.value)
    ensures raw.start.None? || raw.end.None? ==> r == Failure(PeriodMissingBounds(kind, index))
    ensures PeriodRefusedInOrder(raw, kind, index, r)
    ensures r.Success? <==> PeriodAdmissible(raw, kind)
  {
    if raw.start.None? || raw.end.None? then Failure(PeriodMissingBounds(kind, index))
    else
      var start :- ParseInstant(raw.start.value);
      var end :- ParseInstant(raw.end.value);
      if start.epoch > end.epoch then Failure(PeriodStartAfterEnd(kind, index))
      else if kind == K && start.text[0..4] != end.text[0..4] then Failure(PeriodSpansYears(kind, index))
      else
        var value :- PeriodValue(raw.value, kind);
        Success(Period(start, end, index, value))
  }

  /** A built period's bounds are the parsed `start` and `end` strings. */
  lemma BuildPeriodParsesBounds(raw: RawPeriod, kind: Kind, index: nat)
    requires BuildPeriod(raw, kind, index).Success?
    ensures raw.start.Some? && raw.end.Some?
    ensures ParseTimestamp(raw.start.value) == Success(BuildPeriod(raw, kind, index).value.start)
    ensures ParseTimestamp(raw.end.value) == Success(BuildPeriod(raw, kind, index).value.end)
  {
    hide ParseTimestamp;
  }

  /** `_build_periods`: the first bad period aborts; otherwise one period per entry, numbered in order. */
  method BuildPeriods(raws: seq<RawPeriod>, kind: Kind) returns (r: Result<seq<Period>, Error>)
    ensures r.Success? <==> forall i :: 0 <= i < |raws| ==> BuildPeriod(raws[i], kind, i).Success?
    ensures r.Failure? ==> exists i :: 0 <= i < |raws| && BuildPeriod(raws[i], kind, i) == Failure(r.error)
                                       && forall j :: 0 <= j < i ==> BuildPeriod(raws[j], kind, j).Success?
    ensures r.Success? ==> |r.value| == |raws| && BuiltPeriods(r.value)
    ensures r.Success? ==> forall i :: 0 <= i < |raws| ==> r.value[i] == BuildPeriod(raws[i], kind, i).value
  {
    hide PeriodRefusedInOrder, PeriodAdmissible;
    hide BuildPeriod;
    var built: seq<Period> := [];
    for i := 0 to |raws|
      invariant |built| == i
      invariant forall j :: 0 <= j < i ==> BuildPeriod(raws[j], kind, j).Success?
      invariant forall j :: 0 <= j < i ==> built[j] == BuildPeriod(raws[j], kind, j).value
    {
      var period := BuildPeriod(raws[i], kind, i);
      if period.Failure? {
        return Failure(period.error);
      }
      built := built + [period.value];
    }
    r := Success(built);
  }

  /** `_normalize_inflation_rate`: rates above 1 are percentages. */
  function NormalizeInflationRate(inflation: real): (r: Result<real, Error>)
    ensures r.Success? <==> inflation >= 0.0
    ensures r.Failure? ==> r.error == NegativeInflation
    ensures r.Success? && inflation > 1.0 ==> r.value * 100.0 == inflation
    ensures r.Success? && inflation <= 1.0 ==> r.value == inflation
    ensures r.Success? ==> 0.0 <= r.value <= inflation
  {
    if inflation < 0.0 then Failure(NegativeInflation)
    else if inflation > 1.0 then Success(inflation / 100.0)
    else Success(inflation)
  }

  // ---------------------------------------------------------------- first occurrences

  /** Normalised timestamps of the records among the first `n` that canonicalised:
      the `seen_timestamps` set after `n` steps. */
  function SeenBefore(results: seq<Result<Transaction, Error>>, n: nat): set<string>
    requires n <= |results|
  {
    if n == 0 then {}
    else SeenBefore(results, n - 1)
         + (if results[n - 1].Success? then {results[n - 1].value.instant.text} else {})
  }

  /** Record `i` canonicalised and an earlier record with the same normalised timestamp did too. */
  predicate LaterDuplicate(results: seq<Result<Transaction, Error>>, i: nat)
    requires i < |results|
  {
    && results[i].Success?
    && exists j :: 0 <= j < i && results[j].Success?
         && results[j].value.instant.text == results[i].value.instant.text
  }

  /** Record `i` canonicalised and no earlier record has its normalised timestamp. */
  predicate FirstOccurrence(results: seq<Result<Transaction, Error>>, i: nat)
    requires i < |results|
  {
    results[i].Success? && !LaterDuplicate(results, i)
  }

  lemma {:induction false} SeenBeforeMeans(results: seq<Result<Transaction, Error>>, n: nat, text: string)
    requires n <= |results|
    ensures text in SeenBefore(results, n) <==>
      exists j :: 0 <= j < n && results[j].Success? && results[j].value.instant.text == text
  {
    if n > 0 {
      SeenBeforeMeans(results, n - 1, text);
    }
  }

  /** The running `seen_timestamps` check is exactly the first-occurrence rule. */
  lemma SeenIsLaterDuplicate(results: seq<Result<Transaction, Error>>, i: nat)
    requires i < |results| && results[i].Success?
    ensures results[i].value.instant.text in SeenBefore(results, i) <==> LaterDuplicate(results, i)
  {
    SeenBeforeMeans(results, i, results[i].value.instant.text);
  }

  /** Every record's outcome is one canonicalisation can give. */
  predicate Canonicalised(results: seq<Result<Transaction, Error>>) {
    && (forall j :: 0 <= j < |results| && results[j].Success? ==> WellFormed(results[j].value))
    && (forall j :: 0 <= j < |results| && results[j].Failure? ==> TransactionError(results[j].error))
  }

  function Canonicalize(raws: seq<RawTransaction>, requireCeilingAndRemanent: bool)
    : (r: seq<Result<Transaction, Error>>)
    ensures |r| == |raws| && Canonicalised(r)
    ensures forall i :: 0 <= i < |raws| ==> r[i] == CanonicalTransaction(raws[i], requireCeilingAndRemanent)
  {
    seq(|raws|, i requires 0 <= i < |raws| => CanonicalTransaction(raws[i], requireCeilingAndRemanent))
  }

  /** The fields the returns driver keeps of a record before canonicalising it. */
  function StripSupplied(raw: RawTransaction): RawTransaction {
    RawTransaction(raw.date, raw.timestamp, raw.amount, Missing, Missing)
  }

  /** `_prepare_returns_transactions`: canonicalise each record from its timestamp and
      amount alone, keep the first per normalised timestamp, count the rest. */
  method PrepareReturnsTransactions(raws: seq<RawTransaction>)
    returns (kept: seq<Tagged<Transaction>>, invalidCount: nat, duplicateCount: nat)
    ensures |kept| + invalidCount + duplicateCount == |raws|
    ensures StrictlyIncreasing(Indices(kept))
    ensures forall k :: 0 <= k < |kept| ==>
      kept[k].index < |raws| && Success(kept[k].item) == Canonicalize(StripAll(raws), false)[kept[k].index]
    ensures forall i :: 0 <= i < |raws| ==>
      (i in Indices(kept) <==> FirstOccurrence(Canonicalize(StripAll(raws), false), i))
    ensures forall k :: 0 <= k < |kept| ==>
      kept[k].item.ceiling % Finance.Hundred == 0 && kept[k].item.amount + kept[k].item.remanent == kept[k].item.ceiling
  {
    hide CanonicalTransaction, ParseTimestamp, RefusedInOrder, Admissible;
    var results := Canonicalize(StripAll(raws), false);
    var seen: set<string> := {};
    kept := [];
    invalidCount, duplicateCount := 0, 0;
    for i := 0 to |raws|
      invariant seen == SeenBefore(results, i)
      invariant |kept| + invalidCount + duplicateCount == i
      invariant StrictlyIncreasing(Indices(kept))
      invariant forall k :: 0 <= k < |kept| ==> kept[k].index < i && Success(kept[k].item) == results[kept[k].index]
      invariant forall j :: 0 <= j < i ==> (j in Indices(kept) <==> FirstOccurrence(results, j))
    {
      var tx := results[i];
      assert i !in Indices(kept);
      if tx.Failure? {
        invalidCount := invalidCount + 1;
        continue;
      }
      SeenIsLaterDuplicate(results, i);
      if tx.value.instant.text in seen {
        duplicateCount := duplicateCount + 1;
        continue;
      }
      seen := seen + {tx.value.instant.text};
      assert Indices(kept + [Tagged(i, tx.value)]) == Indices(kept) + [i];
      kept := kept + [Tagged(i, tx.value)];
    }
    StrippedAreComputed(raws);
  }

  /** A record canonicalised from its timestamp and amount alone gets the computed ceiling and remanent. */
  lemma StrippedAreComputed(raws: seq<RawTransaction>)
    ensures forall i :: 0 <= i < |raws| && Canonicalize(StripAll(raws), false)[i].Success? ==>
      var tx := Canonicalize(StripAll(raws), false)[i].value;
      tx.ceiling % Finance.Hundred == 0 && tx.amount + tx.remanent == tx.ceiling
  {
    forall i | 0 <= i < |raws| && Canonicalize(StripAll(raws), false)[i].Success?
      ensures var tx := Canonicalize(StripAll(raws), false)[i].value;
        tx.ceiling % Finance.Hundred == 0 && tx.amount + tx.remanent == tx.ceiling
    {
      var raw := StripSupplied(raws[i]);
      assert raw.ceiling.Missing? && raw.remanent.Missing?;
    }
  }

  function StripAll(raws: seq<RawTransaction>): (r: seq<RawTransaction>)
    ensures |r| == |raws| && forall i :: 0 <= i < |raws| ==> r[i] == StripSupplied(raws[i])
  {
    seq(|raws|, i requires 0 <= i < |raws| => StripSupplied(raws[i]))
  }
}
