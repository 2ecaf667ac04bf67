/** The money rules of `app/core/finance.py`. Amounts are integer cents, so
    "100" in the source is 10000 here and every slab bound is scaled by 100.
    Tax and growth figures are exact reals: the source's two-place rounding
    (`money`) is not modelled. */
module Finance {
  import opened Wrappers

  /** One hundred currency units, in cents: the rounding step of a ceiling. */
  const Hundred: int := 10000

  /** The exclusive upper bound on amounts, fixed and extra values (500000 units). */
  const AmountLimit: int := 50000000

  /** Cap on the pension deduction (200000 units, in cents). */
  const NpsDeductionCap: real := 20000000.0

  /** Annual growth rates of the two schemes. */
  const NpsRate: real := 0.0711
  const IndexRate: real := 0.1449

  datatype FinanceError =
    | NegativeAmount       // "Amount cannot be negative."
    | NegativePrincipal    // "Invested amount cannot be negative."
    | NegativeInflation    // "Inflation rate cannot be negative."
    | NonPositiveYears     // "Years must be greater than zero."

  /** `next_multiple_of_100`: the least multiple of 100 units at or above the amount. */
  function NextMultipleOf100(amount: int): (r: Result<int, FinanceError>)
    ensures r.Success? <==> amount >= 0
    ensures r.Failure? ==> r.error == NegativeAmount
    ensures r.Success? ==> r.value % Hundred == 0 && amount <= r.value < amount + Hundred
    ensures amount >= 0 && amount % Hundred == 0 ==> r == Success(amount)
  {
    if amount < 0 then Failure(NegativeAmount)
    else Success((amount + Hundred - 1) / Hundred * Hundred)
  }

  /** `remanent_from_amount`: what the round-up saves. */
  function RemanentFromAmount(amount: int): (r: Result<int, FinanceError>)
    ensures r.Success? <==> amount >= 0
    ensures r.Success? ==> amount + r.value == NextMultipleOf100(amount).value
    ensures r.Success? ==> 0 <= r.value < Hundred
  {
    var ceiling :- NextMultipleOf100(amount);
    Success(ceiling - amount)
  }

  // ---------------------------------------------------------------- tax

  /** `compute_tax`: the slab tax on an annual income, in cents (negative income taxed as 0). */
  function Tax(income: real): (t: real)
    ensures t >= 0.0
    ensures income <= 70000000.0 ==> t == 0.0
  {
    var annual := if income < 0.0 then 0.0 else income;
    if annual <= 70000000.0 then 0.0
    else if annual <= 100000000.0 then (annual - 70000000.0) * 0.10
    else if annual <= 120000000.0 then 3000000.0 + (annual - 100000000.0) * 0.15
    else if annual <= 150000000.0 then 6000000.0 + (annual - 120000000.0) * 0.20
    else 12000000.0 + (annual - 150000000.0) * 0.30
  }

  /** The slabs join without a jump: raising the income never lowers the tax, and
      never raises it by more than the top marginal rate of 30% of the raise. */
  lemma TaxMarginalRate(a: real, b: real)
    ensures a <= b ==> Tax(a) <= Tax(b)
    ensures a <= b ==> Tax(b) - Tax(a) <= (b - a) * 0.30
    ensures 70000000.0 <= a <= b ==> Tax(b) - Tax(a) >= (b - a) * 0.10
  {
  }

  /** The slab an income falls in: 0 is the tax-free band up to 700000, then the
      bands up to 1000000, 1200000 and 1500000, and 4 above. Each band is closed
      at its top, as the source's `<=` comparisons make it. */
  function Slab(income: real): nat {
    if income <= 70000000.0 then 0
    else if income <= 100000000.0 then 1
    else if income <= 120000000.0 then 2
    else if income <= 150000000.0 then 3
    else 4
  }

  /** The rate charged on each unit of income inside a slab. */
  function SlabRate(slab: nat): real {
    if slab == 0 then 0.0
    else if slab == 1 then 0.10
    else if slab == 2 then 0.15
    else if slab == 3 then 0.20
    else 0.30
  }

  /** Inside one slab the tax grows linearly at that slab's rate. */
  lemma TaxWithinSlab(a: real, b: real)
    requires 0.0 <= a <= b && Slab(a) == Slab(b)
    ensures Tax(b) - Tax(a) == (b - a) * SlabRate(Slab(a))
  {
  }

  /** The slab values at the three joins, where the next rate takes over. */
  lemma TaxAtSlabBoundaries()
    ensures Tax(100000000.0) == 3000000.0
    ensures Tax(120000000.0) == 6000000.0
    ensures Tax(150000000.0) == 12000000.0
  {
  }

  function Min3(a: real, b: real, c: real): (m: real)
    ensures m <= a && m <= b && m <= c
    ensures m == a || m == b || m == c
  {
    if a <= b && a <= c then a else if b <= c then b else c
  }

  /** The pension deduction: the invested amount, capped at 10% of the annual
      income (twelve monthly wages) and at the absolute cap. */
  function NpsDeduction(invested: int, monthlyWage: int): (d: real)
    ensures d <= invested as real && d <= (12 * monthlyWage) as real * 0.10 && d <= NpsDeductionCap
    ensures d == invested as real || d == (12 * monthlyWage) as real * 0.10 || d == NpsDeductionCap
  {
    Min3(invested as real, (12 * monthlyWage) as real * 0.10, NpsDeductionCap)
  }

  /** `nps_tax_benefit`: the tax saved by the deduction, which is a difference of
      two taxes and not the deduction itself. */
  function NpsTaxBenefit(invested: int, monthlyWage: int): (r: real)
    ensures invested >= 0 && monthlyWage >= 0 ==>
      0.0 <= r <= NpsDeduction(invested, monthlyWage) * 0.30
    ensures invested >= 0 && monthlyWage >= 0 && 12 * monthlyWage <= 70000000 ==> r == 0.0
    ensures var d := NpsDeduction(invested, monthlyWage);
      invested >= 0 && monthlyWage >= 0 && (12 * monthlyWage) as real - d >= 70000000.0 ==> r >= d * 0.10
  {
    var annual := (12 * monthlyWage) as real;
    var deduction := NpsDeduction(invested, monthlyWage);
    TaxMarginalRate(annual - deduction, annual);
    Tax(annual) - Tax(annual - deduction)
  }

  /** When the deduction does not move the income out of its slab, the benefit is the
      deduction taxed at that slab's rate: the tax saved, not the deduction. */
  lemma {:induction false} NpsBenefitWithinSlab(invested: int, monthlyWage: int)
    requires invested >= 0 && monthlyWage >= 0
    requires var annual := (12 * monthlyWage) as real;
      Slab(annual - NpsDeduction(invested, monthlyWage)) == Slab(annual)
    ensures NpsTaxBenefit(invested, monthlyWage)
      == NpsDeduction(invested, monthlyWage) * SlabRate(Slab((12 * monthlyWage) as real))
  {
    var annual := (12 * monthlyWage) as real;
    var deduction := NpsDeduction(invested, monthlyWage);
    TaxWithinSlab(annual - deduction, annual);
  }

  /** `years_to_investment_horizon`: years until 60, or 5 once 60 is reached. */
  function YearsToHorizon(age: int): (y: int)
    ensures y >= 1
    ensures age < 60 ==> age + y == 60
    ensures age >= 60 ==> y == 5
  {
    if age < 60 then 60 - age else 5
  }

  // ---------------------------------------------------------------- growth

  function Pow(x: real, n: nat): real {
    if n == 0 then 1.0 else x * Pow(x, n - 1)
  }

  lemma {:induction false} PowAtLeastOne(x: real, n: nat)
    requires x >= 1.0
    ensures Pow(x, n) >= 1.0
  {
    if n > 0 {
      PowAtLeastOne(x, n - 1);
    }
  }

  lemma {:induction false} PowOfOne(n: nat)
    ensures Pow(1.0, n) == 1.0
  {
    if n > 0 {
      PowOfOne(n - 1);
    }
  }

  /** The nominal value, its inflation-adjusted (real) value and the real profit. */
  datatype Growth = Growth(nominal: real, deflated: real, profit: real)

  /** `compute_real_return`: compound the principal for `years` at `rate`, then
      deflate by the inflation compounded over the same years. */
  function ComputeRealReturn(principal: real, rate: real, inflation: real, years: int)
    : (r: Result<Growth, FinanceError>)
    ensures r.Success? <==> principal >= 0.0 && inflation >= 0.0 && years > 0
    ensures principal < 0.0 ==> r == Failure(NegativePrincipal)
    ensures principal >= 0.0 && inflation < 0.0 ==> r == Failure(NegativeInflation)
    ensures principal >= 0.0 && inflation >= 0.0 && years <= 0 ==> r == Failure(NonPositiveYears)
    ensures r.Success? ==> r.value.profit == r.value.deflated - principal
    ensures r.Success? && inflation == 0.0 ==> r.value.deflated == r.value.nominal
    ensures r.Success? && rate >= 0.0 ==> principal <= r.value.nominal && 0.0 <= r.value.deflated <= r.value.nominal
  {
    if principal < 0.0 then Failure(NegativePrincipal)
    else if inflation < 0.0 then Failure(NegativeInflation)
    else if years <= 0 then Failure(NonPositiveYears)
    else
      var growthFactor := Pow(1.0 + rate, years);
      var inflationFactor := Pow(1.0 + inflation, years);
      PowAtLeastOne(1.0 + inflation, years);
      PowOfOne(years);
      var nominal := principal * growthFactor;
      var deflated := nominal / inflationFactor;
      if rate >= 0.0 then
        PowAtLeastOne(1.0 + rate, years);
        DeflateBelow(nominal, inflationFactor);
        Success(Growth(nominal, deflated, deflated - principal))
      else
        Success(Growth(nominal, deflated, deflated - principal))
  }

  /** One year of growth: the principal times one plus the rate, deflated by one plus inflation. */
  lemma GrowthOneYear(principal: real, rate: real, inflation: real)
    requires principal >= 0.0 && inflation >= 0.0
    ensures var g := ComputeRealReturn(principal, rate, inflation, 1);
      && g.Success?
      && g.value.nominal == principal * (1.0 + rate)
      && g.value.deflated * (1.0 + inflation) == g.value.nominal
  {
    assert Pow(1.0 + rate, 1) == 1.0 + rate;
    assert Pow(1.0 + inflation, 1) == 1.0 + inflation;
  }

  /** Each further year multiplies the nominal value by one plus the rate, and the real value
      by one plus the rate over one plus inflation: together with `GrowthOneYear` this pins
      the result to compounding over `years`. */
  lemma {:induction false} GrowthStep(principal: real, rate: real, inflation: real, years: int)
    requires principal >= 0.0 && inflation >= 0.0 && years >= 1
    ensures var a := ComputeRealReturn(principal, rate, inflation, years);
      var b := ComputeRealReturn(principal, rate, inflation, years + 1);
      && a.Success? && b.Success?
      && b.value.nominal == a.value.nominal * (1.0 + rate)
      && b.value.deflated * (1.0 + inflation) == a.value.deflated * (1.0 + rate)
  {
    var x, j := 1.0 + rate, 1.0 + inflation;
    hide *;
    var g, q := Pow(x, years), Pow(j, years);
    PowAtLeastOne(j, years);
    PowAtLeastOne(j, years + 1);
    PowStep(x, years);
    PowStep(j, years);
    ReadGrowth(principal, rate, inflation, years, g, q);
    ReadGrowth(principal, rate, inflation, years + 1, x * g, j * q);
    var before := ComputeRealReturn(principal, rate, inflation, years).value;
    var after := ComputeRealReturn(principal, rate, inflation, years + 1).value;
    DeflateStep(principal, g, q, x, j, before.nominal, before.deflated, after.nominal, after.deflated);
  }

  lemma PowStep(x: real, n: nat)
    ensures Pow(x, n + 1) == x * Pow(x, n)
  {
  }

  /** The result of `ComputeRealReturn` in terms of its growth factor `g` and inflation factor `q`. */
  lemma ReadGrowth(principal: real, rate: real, inflation: real, years: int, g: real, q: real)
    requires principal >= 0.0 && inflation >= 0.0 && years >= 1
    requires g == Pow(1.0 + rate, years) && q == Pow(1.0 + inflation, years) && q >= 1.0
    ensures var r := ComputeRealReturn(principal, rate, inflation, years);
      && r.Success?
      && r.value.nominal == principal * g
      && r.value.deflated == principal * g / q
  {
  }

  /** One more year multiplies the nominal value by the growth factor `x`; dividing by one
      more inflation factor `j` and multiplying it back leaves the real value times `x`. */
  lemma DeflateStep(p: real, g: real, q: real, x: real, j: real,
                    nominal: real, deflated: real, nominal': real, deflated': real)
    requires j >= 1.0 && q >= 1.0
    requires nominal == p * g && deflated == p * g / q
    requires nominal' == p * (x * g) && deflated' == p * (x * g) / (j * q)
    ensures nominal' == nominal * x && deflated' * j == deflated * x
  {
    var n := p * g;
    assert p * (x * g) == n * x;
    assert n * x / (j * q) * (j * q) == n * x;
    assert n / q * q == n;
  }

  lemma DeflateBelow(x: real, d: real)
    requires x >= 0.0 && d >= 1.0
    ensures 0.0 <= x / d <= x
  {
    assert x / d * d == x;
  }
}
