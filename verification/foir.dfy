/** The FOIR (fixed obligation to income ratio) cap of the strict evaluator: the EMI the
    applicant can still afford, turned into a loan amount with the present value of an
    annuity at a fixed 18% a year over the requested tenure. */
module Foir {
  import opened Wrappers
  import opened Policies
  import opened Rules

  /** The reference rate of the check, 18% a year, charged monthly. */
  const AnnualRate: real := 0.18
  const RatePerMonth: real := AnnualRate / 12.0

  /** The tenure assumed when none (or 0) is requested. */
  const DefaultTenureMonths: int := 60

  /** One month's discount factor, 1 / (1 + r). */
  const Discount: real := 1.0 / (1.0 + RatePerMonth)

  function Pow(b: real, n: nat): real {
    if n == 0 then 1.0 else b * Pow(b, n - 1)
  }

  /** `Math.pow(1 + r, -n)` for an integer n. */
  function PowNeg(n: int): real {
    if n >= 0 then Pow(Discount, n) else Pow(1.0 + RatePerMonth, -n)
  }

  /** The present value of n monthly payments of 1, `(1 - (1 + r)^-n) / r`. */
  function AnnuityFactor(n: int): real {
    (1.0 - PowNeg(n)) / RatePerMonth
  }

  /** `applicant.tenureMonthsRequested || 60`. */
  function EffectiveTenure(requested: int): (n: int)
    ensures n != 0
    ensures requested == 0 ==> n == 60
    ensures requested != 0 ==> n == requested
  {
    if requested == 0 then DefaultTenureMonths else requested
  }

  /** The EMI room left: salary x foirPercent/100 minus the existing EMIs. */
  function AllowedEmi(salary: real, foirPercent: real, existingEmi: real): real {
    salary * (foirPercent / 100.0) - existingEmi
  }

  /** Discounting over n >= 1 months: 1 - n(1 - v) <= v^n < 1 (Bernoulli's inequality). */
  lemma {:induction false} DiscountBounds(n: nat)
    ensures 0.0 < Pow(Discount, n) <= 1.0
    ensures 1.0 - (n as real) * (1.0 - Discount) <= Pow(Discount, n)
    ensures n >= 1 ==> Pow(Discount, n) < 1.0
  {
    if n > 0 {
      DiscountBounds(n - 1);
    }
  }

  /** Compounding over n >= 1 months exceeds 1. */
  lemma {:induction false} GrowthAboveOne(n: nat)
    ensures Pow(1.0 + RatePerMonth, n) >= 1.0
    ensures n >= 1 ==> Pow(1.0 + RatePerMonth, n) > 1.0
  {
    if n > 0 {
      GrowthAboveOne(n - 1);
    }
  }

  /** For a positive tenure the annuity factor is positive, below the tenure itself (a
      loan's present value is less than the sum of its instalments) and below the
      perpetuity value 1/r; for a negative tenure it is negative. */
  lemma AnnuityFactorBounds(n: int)
    ensures n > 0 ==> 0.0 < AnnuityFactor(n) < n as real
    ensures n > 0 ==> AnnuityFactor(n) < 1.0 / RatePerMonth
    ensures n < 0 ==> AnnuityFactor(n) < 0.0
  {
    if n > 0 {
      DiscountBounds(n);
    } else if n < 0 {
      GrowthAboveOne(-n);
    }
  }

  /** A longer tenure gives a larger factor. */
  lemma AnnuityFactorIncreasing(n: nat)
    requires n >= 1
    ensures AnnuityFactor(n) < AnnuityFactor(n + 1)
  {
    DiscountBounds(n);
  }

  /** `maxAmountByFoir`: 0 when no FOIR row covers the salary or no EMI room is left;
      otherwise the allowed EMI times the annuity factor of the effective tenure, using the
      FIRST covering row. */
  function MaxAmountByFoir(rows: seq<FoirRule>, salary: real, existingEmi: real, tenureRequested: int): (cap: real)
    ensures FirstFoirRow(rows, salary).None? ==> cap == 0.0
    ensures FirstFoirRow(rows, salary).Some? ==>
              var emi := AllowedEmi(salary, FirstFoirRow(rows, salary).value.foirPercent, existingEmi);
              var n := EffectiveTenure(tenureRequested);
              && (emi <= 0.0 ==> cap == 0.0)
              && (emi > 0.0 && n > 0 ==> 0.0 < cap < emi * n as real && cap < emi / RatePerMonth)
              && (emi > 0.0 && n < 0 ==> cap < 0.0)
  {
    match FirstFoirRow(rows, salary)
    case None => 0.0
    case Some(row) =>
      var emi := AllowedEmi(salary, row.foirPercent, existingEmi);
      if emi > 0.0 then
        var n := EffectiveTenure(tenureRequested);
        AnnuityFactorBounds(n);
        emi * AnnuityFactor(n)
      else 0.0
  }
}
