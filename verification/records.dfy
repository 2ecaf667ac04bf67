/** The entities the engine of `app/core/engine.py` passes around: raw request
    records, canonical transactions, rule periods and the tagged reasons that
    stand for the source's `ValueError` messages. Amounts are integer cents and
    times are epoch seconds. */
module Records {
  import opened Wrappers
  import opened TimeUtils

  /** A numeric field of a raw record as `_to_float` sees it: absent (None),
      not convertible to a number, or a value in cents. */
  datatype Number = Missing | NotNumeric | Value(cents: int)

  datatype Field = AmountField | CeilingField | RemanentField | FixedField | ExtraField

  /** The three rule kinds: override (`q`), extra (`p`) and aggregate (`k`). */
  datatype Kind = Q | P | K

  /** Every message the engine raises or records against a transaction. */
  datatype Error =
    | BadTimestamp(cause: TimeError)           // from parse_timestamp_to_epoch
    | MissingTimestamp                          // "Transaction must include 'date' or 'timestamp'."
    | MissingExpenseTimestamp                   // "Each expense must include a timestamp."
    | MissingField(field: Field)                // "Missing field: <name>"
    | NonNumericField(field: Field)             // "Field '<name>' must be numeric."
    | NegativeAmount                            // "Amount cannot be negative."
    | AmountTooLarge                            // "Amount must be < 500000 as per challenge constraints."
    | NegativeExpense                           // "Expense amount cannot be negative."
    | ExpenseTooLarge                           // "Expense amount must be < 500000 as per constraints."
    | CeilingBelowAmount                        // "Ceiling cannot be lower than amount."
    | NegativeRemanent                          // "Remanent cannot be negative."
    | DuplicateTimestamp                        // validator: "Duplicate transaction timestamp."
    | CeilingMismatch                           // "Invalid ceiling value for the amount. ..."
    | RemanentMismatch                          // "Invalid remanent value. Expected ceiling - amount."
    | RemanentTooLarge                          // "Remanent exceeds challenge constraints ..."
    | LimitExceeded                             // "Cumulative remanent exceeds maximum allowed investment."
    | NegativeAmountsNotAllowed                 // filter's rewrite of NegativeAmount
    | DuplicateTransaction                      // filter: "Duplicate transaction"
    | OutsideK                                  // "Transaction is outside all k evaluation ranges."
    | NegativeWage                              // "Wage cannot be negative."
    | NegativeLimit                             // "Maximum investment cannot be negative."
    | NegativeAge                               // "Age cannot be negative."
    | NegativeInflation                         // "Inflation cannot be negative."
    | NoValidTransactions                       // "No valid transactions available for returns calculation."
    | PeriodMissingBounds(kind: Kind, index: nat)  // "<kind>[<i>] must include start and end."
    | PeriodStartAfterEnd(kind: Kind, index: nat)  // "<kind>[<i>] start must be <= end."
    | PeriodSpansYears(kind: Kind, index: nat)     // "<kind>[<i>] cannot span multiple years."
    | NegativeFixed                             // "q.fixed cannot be negative."
    | FixedTooLarge                             // "q.fixed must be < 500000 as per challenge constraints."
    | NegativeExtra                             // "p.extra cannot be negative."
    | ExtraTooLarge                             // "p.extra must be < 500000 as per challenge constraints."

  /** A raw transaction or expense record: the `date` and `timestamp` keys and
      the numeric fields (the expense records of the parse request have no
      ceiling or remanent, which reads as `Missing`). */
  datatype RawTransaction = RawTransaction(
    date: Option<string>, timestamp: Option<string>,
    amount: Number, ceiling: Number, remanent: Number)

  /** A canonical transaction: normalised timestamp, amount, ceiling and remanent in cents. */
  datatype Transaction = Transaction(instant: Instant, amount: int, ceiling: int, remanent: int)

  /** A raw rule period; `value` is the `fixed` field of a `q` period and the
      `extra` field of a `p` period, and is not read for `k`. */
  datatype RawPeriod = RawPeriod(start: Option<string>, end: Option<string>, value: Number)

  /** A built period with its position in the request list; `value` is 0 for `k`. */
  datatype Period = Period(start: Instant, end: Instant, index: nat, value: int)

  /** An item together with the position of the record it came from. */
  datatype Tagged<T> = Tagged(index: nat, item: T)

  /** A record that was turned away, with its position and the reason. */
  datatype Rejection = Rejection(index: nat, error: Error)

  /** An adjusted contribution: a transaction's instant and its adjusted remanent. */
  datatype Contribution = Contribution(epoch: int, amount: int)

  function Epoch(tx: Transaction): int {
    tx.instant.epoch
  }

  /** The period covers second `t`, both ends included. */
  predicate Contains(p: Period, t: int) {
    p.start.epoch <= t <= p.end.epoch
  }

  predicate InSomePeriod(ps: seq<Period>, t: int) {
    exists j :: 0 <= j < |ps| && Contains(ps[j], t)
  }

  /** Every period is recorded under its own list position, as `_build_periods` numbers them. */
  predicate WellIndexed(ps: seq<Period>) {
    forall j :: 0 <= j < |ps| ==> ps[j].index == j
  }

  predicate Ordered(ps: seq<Period>) {
    forall j :: 0 <= j < |ps| ==> ps[j].start.epoch <= ps[j].end.epoch
  }

  predicate NonNegativeValues(ps: seq<Period>) {
    forall j :: 0 <= j < |ps| ==> ps[j].value >= 0
  }

  /** What `_build_periods` guarantees of its output. */
  predicate BuiltPeriods(ps: seq<Period>) {
    WellIndexed(ps) && Ordered(ps) && NonNegativeValues(ps)
  }

  function Indices<T>(s: seq<Tagged<T>>): (r: seq<nat>)
    ensures |r| == |s| && forall k :: 0 <= k < |s| ==> r[k] == s[k].index
  {
    seq(|s|, k requires 0 <= k < |s| => s[k].index)
  }

  function RejectedIndices(s: seq<Rejection>): (r: seq<nat>)
    ensures |r| == |s| && forall k :: 0 <= k < |s| ==> r[k] == s[k].index
  {
    seq(|s|, k requires 0 <= k < |s| => s[k].index)
  }

  predicate StrictlyIncreasing(s: seq<nat>) {
    forall a, b :: 0 <= a < b < |s| ==> s[a] < s[b]
  }
}
