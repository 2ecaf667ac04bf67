# Round-up savings engine, modelled in Dafny

This project models the core of a micro-savings service. Each expense is rounded
up to the next multiple of 100. The difference, the *remanent*, is saved. Three
kinds of date-ranged rule then act on the saved amounts:

- a `q` period replaces a transaction's remanent with a fixed value. The latest
  starting covering period wins, and ties go to the earlier one in the request;
- a `p` period adds an extra amount on top;
- a `k` period is an evaluation window whose saved total is reported.

The engine parses and normalises timestamps to epoch seconds. It builds
transactions from expenses and validates submitted transactions against a
monthly wage and an investment cap. It filters transactions through the rules,
and projects each window's total as a pension (NPS) or index-fund investment,
with the inflation-adjusted profit and the pension tax benefit.

The model is split into modules that follow the program:

| module | file | models |
|---|---|---|
| `Wrappers` | wrappers.dfy | `Option` and `Result`: the `ValueError` paths become `Failure` values |
| `Seqs` | seqs.dfy | sums over sequences, a stable insertion sort standing for Python's `sorted` |
| `TimeUtils` | time_utils.dfy | `app/core/time_utils.py`: the timestamp parser and `to_epoch_seconds` |
| `Finance` | finance.dfy | `app/core/finance.py`: rounding up, the slab tax, the pension benefit, real returns |
| `Records` | records.dfy | the engine's records, periods and error reasons |
| `Ordering` | ordering.dfy | the chronological order `(epoch, index)` and `bisect_left`/`bisect_right` |
| `Canonical` | canonical.dfy | `_to_float`, `_canonical_transaction`, `build_transactions`, `_build_periods`, `_prepare_returns_transactions`, `_normalize_inflation_rate` |
| `Validator` | validator.dfy | `validate_transactions` |
| `Overrides` | overrides.dfy | the `q` override, by the heap sweep and by the union-find fill |
| `Extras` | extras.dfy | the `p` extra, by the start/end event sweep |
| `Windows` | windows.dfy | `_merge_k_periods`, `_membership_in_k`, `aggregate_savings_by_k` |
| `Engine` | engine.dfy | `_apply_temporal_rules` and `filter_transactions` |
| `Returns` | returns.dfy | `calculate_returns` |

Money is held as integer cents. The amount limit 500000 is `50000000` cents.
The validator's tolerance "differs by more than 0.01" is "differs by more than
one cent". Times are integer epoch seconds. Rates, inflation, tax and growth are
`real`, so those figures are exact rationals.

Each efficient algorithm of the engine is proved equal to a plain reference
definition:

- the heap and union-find overrides both equal `OverrideAt`, the value of the
  winning covering `q` period;
- the event sweep equals `ExtraAt`, the sum of the covering `p` values;
- the merged-window membership equals "inside some `k` period";
- the prefix-sum window totals equal the plain sum of the contributions inside
  the window;
- `filter_transactions` equals `FilterVerdict`, a record-by-record rule;
- `validate_transactions` agrees with the per-record placement rules and the
  running cap.

The rule strategy (heap or union-find) is a parameter. `StrategiesAgree` shows
that the choice does not affect the result.

## Model

| member | source | states |
|---|---|---|
| TimeUtils.StripLeft | app/core/time_utils.py:63-66 | the result is a suffix of the input, every dropped character is whitespace, and the result does not start with whitespace |
| TimeUtils.StripRight | app/core/time_utils.py:63-66 | the result is a prefix of the input, every dropped character is whitespace, and the result does not end with whitespace |
| TimeUtils.StripIdentity | app/core/time_utils.py:63-66 | a string with no surrounding whitespace is left unchanged by stripping |
| TimeUtils.StripSurrounded | app/core/time_utils.py:63-66 | one whitespace character on each side, of any of Python's whitespace kinds, is removed and nothing else is |
| TimeUtils.StripUnicodeSpaces | app/core/time_utils.py:63-68 | an ideographic space before and a line separator after a timestamp are stripped, and the padded text parses as the bare one |
| TimeUtils.ParseReadsStripped | app/core/time_utils.py:63-68 | two inputs with the same stripped text parse to the same result |
| TimeUtils.DecimalValueOfDigits | app/core/time_utils.py:27-32 | a number rendered zero-padded in `width` digits reads back as itself |
| TimeUtils.DigitsOfDecimalValue | app/core/time_utils.py:27-32 | a digit field read as a number and rendered at its own width is the same text |
| TimeUtils.ParseComponents | app/core/time_utils.py:8-46 | on success the datetime is valid and the text is its canonical rendering: the input itself at 19 characters, the input plus `:00` (zero seconds) at 16; every failure is the format error |
| TimeUtils.ParseTimestamp | app/core/time_utils.py:62-68 | a parse yields 19-character text, and it fails with the empty-string error exactly when the stripped input is empty |
| TimeUtils.ParseAcceptsExactly | app/core/time_utils.py:8-46 | a timestamp is accepted exactly when, once stripped, it has the dash, space and colon layout, numeric fields, and names a real calendar date and time |
| TimeUtils.EpochStrictlyIncreasing | app/core/time_utils.py:58-59 | a chronologically earlier datetime has a smaller epoch |
| TimeUtils.EpochOrderIsChronological | app/core/time_utils.py:58-59 | epoch order is calendar order, and two datetimes share an epoch only when they are equal |
| TimeUtils.ReadRender | app/core/time_utils.py:8-46 | the canonical rendering of a valid datetime has the long layout and reads back as the same fields |
| TimeUtils.ParseRender | app/core/time_utils.py:62-68 | parsing the canonical rendering of a valid datetime gives that text and that datetime's epoch |
| TimeUtils.ParseIdempotent | app/core/time_utils.py:45 | normalisation is idempotent: the normalised text parses to itself with the same epoch |
| TimeUtils.ShortFormMeansZeroSeconds | app/core/time_utils.py:32 | a `HH:mm` timestamp reads as the same instant and text as the same timestamp with `:00` |
| TimeUtils.UnixEpochIsZero | app/core/time_utils.py:58-59 | 1970-01-01 00:00:00 is epoch 0, and parsing its text gives that instant |
| Finance.NextMultipleOf100 | app/core/finance.py:20-25 | a negative amount is an error; otherwise the result is the least multiple of 100 at or above the amount, so a multiple of 100 is its own ceiling |
| Finance.RemanentFromAmount | app/core/finance.py:28-30 | amount plus remanent is the rounded-up ceiling, and the remanent lies in [0, 100) |
| Finance.Tax | app/core/finance.py:33-49 | the tax is never negative, and is zero up to 700000 |
| Finance.TaxMarginalRate | app/core/finance.py:33-49 | the tax is monotone in the income, and a raise of the income raises it by at most 30% of the raise, so the slabs join without a jump |
| Finance.TaxAtSlabBoundaries | app/core/finance.py:37-48 | the tax at 1000000, 1200000 and 1500000 is 30000, 60000 and 120000, the constants each next slab starts from |
| Finance.NpsDeduction | app/core/finance.py:53-58 | the deduction is the least of the invested amount, 10% of twelve months' wage and the 200000 cap |
| Finance.TaxWithinSlab | app/core/finance.py:33-49 | inside one slab the tax grows linearly at that slab's rate (0, 10, 15, 20 or 30%) |
| Finance.NpsTaxBenefit | app/core/finance.py:52-61 | the benefit lies between 0 and 30% of the deduction; it is zero when the annual income is at most 700000, and at least 10% of the deduction when the reduced income is still above 700000 |
| Finance.NpsBenefitWithinSlab | app/core/finance.py:52-61 | when the deduction leaves the income in its slab, the benefit is the deduction taxed at that slab's rate: the tax saved, not the deduction itself |
| Finance.YearsToHorizon | app/core/finance.py:64-65 | the horizon is at least one year: the years left until 60, or 5 from 60 on |
| Finance.ComputeRealReturn | app/core/finance.py:68-83 | it fails exactly on a negative principal, a negative inflation or non-positive years, with each error in the source's order; the profit is the deflated return minus the principal; with no inflation the deflated return is the nominal; with a non-negative rate the nominal return is at least the principal and the deflated return lies between 0 and the nominal; the compounding itself is pinned by `GrowthOneYear` and `GrowthStep` |
| Finance.GrowthOneYear | app/core/finance.py:80-82 | over one year the nominal return is the principal times one plus the rate, and the real return times one plus inflation is the nominal |
| Finance.GrowthStep | app/core/finance.py:80-82 | each further year multiplies the nominal return by one plus the rate, and the real return by one plus the rate over one plus inflation; with `GrowthOneYear` this determines the result for every number of years |
| Canonical.ToNumber | app/core/engine.py:23-29 | a missing field and a non-numeric field give their two different errors; a number gives its value |
| Canonical.PickTimestamp | app/core/engine.py:38 | the first key is used unless it is absent or empty, else the second |
| Canonical.ParseInstant | app/core/engine.py:42 | it succeeds exactly when the timestamp parses, and with the parsed instant |
| Canonical.CanonicalTransaction | app/core/engine.py:32-76 | it succeeds exactly when every check passes (`Admissible`), and a refused record gets the reason of the first failing check in the source's order (`RefusedInOrder`): missing timestamp, unreadable timestamp, missing or non-numeric amount, negative amount, amount at or above 500000, unreadable ceiling, unreadable remanent, ceiling below amount, negative remanent; a success is well formed and keeps the parsed instant and the amount; each supplied ceiling and remanent is kept; a missing ceiling becomes the next multiple of 100 and a missing remanent the gap from the amount to it |
| Canonical.ReadFields | app/core/engine.py:49-67 | once the amount is in range: it succeeds exactly when the ceiling and remanent as read (supplied, or computed when absent and not required) are numbers with the ceiling at least the amount and the remanent non-negative, returning those two values; otherwise the unreadable ceiling, the unreadable remanent, ceiling below amount and negative remanent are reported in that order |
| Canonical.NegativeAmountRejected | app/core/engine.py:43-45 | a record with a readable timestamp and a negative amount is refused for the negative amount, whatever its other fields |
| Canonical.ComputedFieldsAccepted | app/core/engine.py:52-67 | a record with a readable timestamp and an amount in range, whose ceiling and remanent are both left to be computed, is accepted, with the next multiple of 100 as its ceiling and the gap to it as its remanent |
| Canonical.BuildExpense | app/core/engine.py:205-226 | an expense with a readable timestamp (the `timestamp` key tried first) and an amount in [0, 500000) is built, keeping its amount and parsed instant, with the next multiple of 100 as its ceiling and ceiling minus amount as its remanent; otherwise the errors come in the source's order: missing timestamp, unreadable timestamp, missing or non-numeric amount, negative amount, amount at or above 500000 |
| Canonical.BuildTransactions | app/core/engine.py:203-233 | it succeeds exactly when every expense builds; otherwise it fails with the first failing expense's error; on success there is one transaction per expense, in order, with totals that are their sums and total ceiling equal to total amount plus total remanent |
| Canonical.PeriodValue | app/core/engine.py:184-197 | a `k` period has no value; a `q` or `p` value in [0, 500000) is accepted as it is, any other is refused: a missing or non-numeric value with its field error, the negative and too-large values each with the error of its own kind |
| Canonical.BuildPeriod | app/core/engine.py:163-199 | it builds exactly when both bounds are present and parse, start is at or before end, a `k` period stays within one year and the value is accepted (`PeriodAdmissible`); otherwise the reason is that of the first failing check in the source's order (`PeriodRefusedInOrder`): missing bound, unreadable start, unreadable end, start after end, several years, bad value; a built period has its position as its index, 19-character bounds and the checked value |
| Canonical.BuildPeriodParsesBounds | app/core/engine.py:169-170 | a built period's bounds are its parsed `start` and `end` strings |
| Canonical.BuildPeriods | app/core/engine.py:161-200 | it succeeds exactly when every period builds, and otherwise fails with the first failing period's error; on success there is one period per entry, in order |
| Canonical.NormalizeInflationRate | app/core/engine.py:155-158 | a negative rate is an error; a rate above 1 is a percentage and is divided by 100; the result never exceeds the input |
| Canonical.SeenBeforeMeans | app/core/engine.py:146-149 | the running set of seen timestamps after `n` records holds exactly the normalised timestamps of the records before `n` that canonicalised |
| Canonical.SeenIsLaterDuplicate | app/core/engine.py:146-149 | the seen-set test marks a record exactly when an earlier record has its timestamp |
| Canonical.PrepareReturnsTransactions | app/core/engine.py:125-152 | kept, invalid and duplicate records account for every input; the kept records are exactly the first occurrences, in input order, each canonicalised from its timestamp and amount alone, so its ceiling is the rounded-up amount |
| Validator.InvestmentLimit | app/core/engine.py:241 | the cap is the explicit maximum when given, else twelve months of wage, which is non-negative for a non-negative wage |
| Validator.Screen | app/core/engine.py:272-300 | a transaction passes only with its ceiling within a cent of the next multiple of 100, its remanent within a cent of ceiling minus amount, and its remanent within the challenge bound; each error is reported exactly when its check is the first to fail, in the order ceiling, remanent, bound |
| Validator.ScreenAcceptsComputed | app/core/engine.py:272-300 | a transaction whose ceiling and remanent are exactly the computed ones passes the screen |
| Validator.ScreenRecords | app/core/engine.py:250-302 | the first pass puts every record in exactly one of candidates, invalid and duplicates, in input order, by the per-record rule |
| Validator.ApplyCap | app/core/engine.py:304-317 | the cap pass splits the candidates into valid and capped, each in input order; a candidate is valid exactly when its remanent fits under the limit on top of the valid ones before it, and the valid total stays under the limit |
| Validator.CapDecision | app/core/engine.py:304-317 | read per record, a candidate is capped exactly when it is not valid, and valid exactly when it fits under the limit on top of the earlier valid ones |
| Validator.MergeOrder | app/core/engine.py:256-317 | the invalid list holds the first-pass rejections in input order, followed by the cap rejections in input order |
| Validator.MergeMembership | app/core/engine.py:256-317 | the invalid list holds exactly the records turned away by either pass, each with the reason of the pass that turned it away |
| Validator.ValidateTransactions | app/core/engine.py:236-325 | it fails exactly on a negative wage or a negative cap; on success every record lands in exactly one list, in input order, where the per-record rules place it, with its own transaction, and the valid ones respect the running cap |
| Ordering.OrderByEpoch | app/core/engine.py:339-341 | the order is a permutation of the positions, sorted by instant with ties by position, so its instants are non-decreasing |
| Ordering.BisectLeft | app/core/engine.py:468 | the result splits the times into those below `x` and those at or above it |
| Ordering.BisectRight | app/core/engine.py:469 | the result splits the times into those at or below `x` and those above it |
| Ordering.BoundsSelectRange | app/core/engine.py:468-469 | between the two bisections lie exactly the positions whose instant falls in the closed range |
| Overrides.OverrideAt | app/core/engine.py:410-438 | there is an override at `t` exactly when some `q` period covers `t`, and it is the value of the winning covering period |
| Overrides.WinnerUnique | app/core/engine.py:414-437 | the latest-start, lowest-index rule picks one period at each instant |
| Overrides.HeapReadsWinner | app/core/engine.py:433-437 | after pushing the started periods and popping the expired ones, the heap top is the override at the current instant |
| Overrides.HeapOverrides | app/core/engine.py:410-438 | for non-decreasing times, the heap sweep gives each time exactly the override at that time |
| Overrides.FirstValueIsOverride | app/core/engine.py:446-449 | in priority order, the first period that covers `t` gives the override at `t` |
| Overrides.FillIsFirstValue | app/core/engine.py:465-481 | filling the unassigned positions inside a period's bisected range adds that period's value exactly where it is the first covering period by priority |
| Overrides.Find | app/core/engine.py:455-459 | `find` with path halving returns the first unassigned position at or after its argument (the sentinel when there is none): a root, with every position it skips already assigned, and the forest stays sound with the positions before the argument untouched |
| Overrides.PeriodBounds | app/core/engine.py:465-472 | the bounds, read from the cache or freshly bisected, are the first position at or after the start and the last position at or before the end, and the cache stays consistent with the times |
| Overrides.FillRange | app/core/engine.py:476-481 | the union-find fill sets exactly the still-empty positions in the range to the value, keeps the forest sound, and counts the assignments |
| Overrides.DsuOverrides | app/core/engine.py:441-482 | for non-decreasing times, the union-find fill also gives each time exactly the override at that time, stopping early once every position is assigned |
| Overrides.QOverrides | app/core/engine.py:345-348 | whichever strategy is chosen, each time gets exactly the override at that time |
| Overrides.StrategiesAgree | app/core/engine.py:343-348 | the heap and the union-find strategies give the same overrides, so the strategy choice does not change the result |
| Extras.EventsBalance | app/core/engine.py:350-351 | the start events due at `t` minus the end events due at `t` add up to the sum of the extras covering `t` |
| Extras.PassedAreDue | app/core/engine.py:359-368 | the events a pointer has passed at `t` are exactly the events due at `t` |
| Extras.SweepReadsExtra | app/core/engine.py:357-368 | the running extra the sweep keeps is the sum of the covering `p` values |
| Extras.ExtrasSweep | app/core/engine.py:350-368 | for non-decreasing times, the sweep gives each time exactly the sum of the covering `p` values |
| Windows.SortedSpansCover | app/core/engine.py:489-492 | the sorted spans cover the same instants as the `k` periods |
| Windows.MergeKPeriods | app/core/engine.py:485-505 | the merged spans are separated, sorted, cover exactly the instants of the `k` periods, and are empty only when there are no periods |
| Windows.PointerReadsCover | app/core/engine.py:533-537 | once the pointer has skipped every span ending before `ts`, inside the span it points at is the same as inside some merged span |
| Windows.MembershipInK | app/core/engine.py:508-539 | with no `k` periods every transaction is in; otherwise a transaction is in exactly when some `k` period covers its instant |
| Windows.PrefixWindow | app/core/engine.py:611-624 | the difference of the prefix sums at the two bisections is the total of the contributions inside the window |
| Windows.BisectedAmount | app/core/engine.py:618-624 | for a window with start after end, the difference of prefix sums is minus the total strictly between end and start |
| Windows.PrefixSums | app/core/engine.py:611-614 | entry `k` of the prefix list is the total of the first `k` contributions |
| Windows.WindowAmount | app/core/engine.py:617-626 | the saving of one window carries its bounds and the total contributed inside it (minus the total between the bounds for a reversed window) |
| Windows.SavesWindowPermutation | app/core/engine.py:608 | a window's total does not depend on the order the contributions come in |
| Windows.AggregateSavingsByK | app/core/engine.py:602-627 | one saving per window, in the windows' order, each with the window's bounds and the total of the contributions inside it |
| Engine.AdjustedNonNegative | app/core/engine.py:370-376 | with non-negative rule values and remanent, the adjusted remanent is non-negative |
| Engine.AdjustedOutsideRules | app/core/engine.py:370-376 | outside every `q` and `p` period, a transaction keeps its own remanent |
| Engine.ResolveInOrder | app/core/engine.py:342-376 | along the chronological order, each position gets the override (else its own remanent) plus the extra of its transaction |
| Engine.ApplyTemporalRules | app/core/engine.py:328-377 | every transaction, at its own position, gets its adjusted remanent: the winning `q` value or its own remanent, plus the covering `p` extras |
| Engine.EarlyRefusal | app/core/engine.py:549-565 | a record passes the first filter pass exactly when it is the first occurrence of its normalised timestamp |
| Engine.ScreenForFilter | app/core/engine.py:549-565 | the first pass keeps exactly the first occurrences and refuses every other record with its reason, both in input order |
| Engine.SplitKept | app/core/engine.py:579-598 | the final pass keeps a record with a positive adjusted remanent inside the windows, refuses a record outside them, and drops the rest, in input order |
| Engine.FilterTransactions | app/core/engine.py:542-599 | the valid records are exactly those the record-by-record rule keeps, each with its adjusted remanent, in input order; the invalid records are exactly those it refuses, with the rule's reason, the early refusals before the out-of-window ones and each group in input order; the dropped records are in neither |
| Returns.KeptSum | app/core/engine.py:704-705 | a sum over the kept records is the sum over the input of what each first occurrence contributes |
| Returns.SavingReadsRecords | app/core/engine.py:664-679 | a window's amount, summed in chronological order, is the sum over the input of the adjusted remanents of the first occurrences inside the window |
| Returns.WindowNonNegative | app/core/engine.py:685-691 | with built periods, no window total is negative, so the negative-principal error of `compute_real_return` cannot arise |
| Returns.DateSaving | app/core/engine.py:686-701 | one window's entry keeps its bounds and amount, its profit is the real profit of investing the amount until the horizon at the instrument's rate, and its tax benefit is the pension benefit for the pension scheme and zero for the index fund |
| Returns.DateSavings | app/core/engine.py:685-701 | one entry per window, in the windows' order, each holding the window's amount as a sum over the input records together with its profit and tax benefit |
| Returns.ReturnsOfKept | app/core/engine.py:664-707 | the totals are the amounts and ceilings of the first occurrences; there is one entry per window with its bounds, its amount, its real profit and (for the pension only) its tax benefit |
| Returns.CalculateReturns | app/core/engine.py:637-707 | a negative age, a negative wage and a negative inflation are refused in that order; otherwise it succeeds exactly when some record survives canonicalising and de-duplication; on success the totals and each window's amount, profit and tax benefit are as the returns rule states them against the raw records, with the normalised inflation |

## Left out

- Rounding: `money()` rounds every figure to two decimals in binary floating point.
  Here amounts are exact integer cents and tax, growth and profit are exact reals, so
  float rounding and `Decimal` conversions are not modelled.
- Validator.Screen: the `0.01` tolerance becomes "more than one cent", exact on integer cents.
- Validator.ApplyCap: the cap comparison's `1e-9` slack (app/core/engine.py:307) is
  dropped, because sums of integer cents are exact.
- Overrides.HeapOverrides: `heapq` is modelled as an abstract priority queue, a
  sequence whose top is chosen by `Outranks` (latest start, then lowest index), and
  not as a binary heap array. Only the order of the top element matters to the result.
- `_choose_q_strategy` (app/core/engine.py:380-407) is a performance heuristic. The
  strategy is a parameter instead, and `StrategiesAgree` shows both choices give
  the same overrides.
- Logging (the `logger.warning` of `calculate_returns`) and the output shaping of
  `_transaction_output`, `_invalid_output` and `_filter_invalid_output` are not
  modelled. Rejections carry the record's position and an `Error` reason instead
  of an echoed record and a message string.
- `build_period_payload` only calls `_build_periods` three times, so it has no
  member of its own.
- `parse_timestamp` and `format_timestamp` are not used by the engine.
  `parse_timestamp_to_epoch` is modelled.
- `str()` and `float()` coercion of arbitrary values: raw fields are given as
  optional strings and `Number` values (missing, not numeric, or a value in cents).
  Python `int()` leniency inside a field (a sign, surrounding spaces, underscores)
  is not modelled: a field must be ASCII digits.
- The instrument is the two-valued `Instrument`. Any string other than `"nps"`
  selects the index fund.
- Returns.CalculateReturns: the wage is integer cents rather than a float.
- Returns.CalculateReturns: requires built periods, because its callers always pass
  the output of `_build_periods`. With them, `compute_real_return`'s
  negative-principal error is unreachable (`WindowNonNegative`).
- Engine.FilterTransactions: requires `q` periods numbered by their list position and
  `p` and `k` periods with start at or before end, which `_build_periods` guarantees.
- Windows.MembershipInK: the `not merged_k` branch (app/core/engine.py:525-526) is
  unreachable, because merging a non-empty list of periods gives at least one span
  (`MergeKPeriods`).
- Overrides.HeapOverrides and Overrides.DsuOverrides: the early return on an empty
  `q` list is not a separate branch. The general path gives the same all-`None`
  result.
- The FastAPI routes, request schemas and service layer around the engine are not
  part of this model.
