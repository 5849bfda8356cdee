/**
 * The fixed-rate annuity formula shared by the mortgage calculator
 * (utils/calculations.ts:9-11) and, inverted, by the affordability
 * calculator (utils/calculations.ts:68-70).
 */
module Annuity {

  /** `Math.pow(x, n)` for a whole exponent, in exact arithmetic. */
  function Pow(x: real, n: nat): real
  {
    if n == 0 then 1.0 else x * Pow(x, n - 1)
  }

  /** Monthly rate as a fraction, from an annual rate in percent. */
  function MonthlyRate(interestRate: real): real
  {
    interestRate / 100.0 / 12.0
  }

  /** Number of monthly payments in a term of whole years. */
  function TotalMonths(years: nat): nat
  {
    years * 12
  }

  /**
   * The annuity formula divides by `(1 + r)^n - 1`; it is defined exactly
   * when that divisor is not zero: a zero rate makes it 0/0, and a zero
   * term with a non-zero rate divides a non-zero amount by zero.
   */
  predicate AnnuityDefined(r: real, n: nat)
  {
    Pow(1.0 + r, n) != 1.0
  }

  /**
   * The payment per unit borrowed, `r (1+r)^n / ((1+r)^n - 1)`; its
   * defining equation, free of division, is the ensures clause.
   */
  function AnnuityFactor(r: real, n: nat): (f: real)
    requires AnnuityDefined(r, n)
    ensures f * (Pow(1.0 + r, n) - 1.0) == r * Pow(1.0 + r, n)
  {
    (r * Pow(1.0 + r, n)) / (Pow(1.0 + r, n) - 1.0)
  }

  /**
   * The fixed monthly payment on `principal` at monthly rate `r` over `n`
   * months, in the source's order of operations; its defining equation,
   * free of division, is the ensures clause.
   */
  function Payment(principal: real, r: real, n: nat): (m: real)
    requires AnnuityDefined(r, n)
    ensures m * (Pow(1.0 + r, n) - 1.0) == principal * r * Pow(1.0 + r, n)
  {
    principal * (r * Pow(1.0 + r, n)) / (Pow(1.0 + r, n) - 1.0)
  }

  /** Two solutions of `x * d == c * a` and `f * d == a` with `d != 0` are related by `x == c * f`: pure algebra. */
  lemma ScaledSolution(x: real, f: real, c: real, a: real, d: real)
    requires d != 0.0 && x * d == c * a && f * d == a
    ensures x == c * f
  {
    assert (x - c * f) * d == x * d - c * (f * d);
  }

  /** The payment is the amount borrowed times the payment per unit borrowed. */
  lemma PaymentIsScaledFactor(principal: real, r: real, n: nat)
    requires AnnuityDefined(r, n)
    ensures Payment(principal, r, n) == principal * AnnuityFactor(r, n)
  {
    ScaledSolution(Payment(principal, r, n), AnnuityFactor(r, n), principal,
                   r * Pow(1.0 + r, n), Pow(1.0 + r, n) - 1.0);
  }

  /** A quotient times its divisor is the dividend: pure algebra. */
  lemma QuotientTimesDivisor(a: real, d: real)
    requires d != 0.0
    ensures (a / d) * d == a
  {
  }

  /**
   * Inverting the payment formula: the loan whose payment is `payment` is
   * `payment` divided by the factor, and no other loan has that payment.
   */
  lemma LoanForPayment(payment: real, loan: real, r: real, n: nat)
    requires AnnuityDefined(r, n) && AnnuityFactor(r, n) != 0.0
    ensures Payment(payment / AnnuityFactor(r, n), r, n) == payment
    ensures Payment(loan, r, n) == payment <==> loan == payment / AnnuityFactor(r, n)
  {
    var f := AnnuityFactor(r, n);
    PaymentIsScaledFactor(payment / f, r, n);
    PaymentIsScaledFactor(loan, r, n);
    QuotientTimesDivisor(payment, f);
    if Payment(loan, r, n) == payment {
      ScaledSolution(loan, payment / f, 1.0, payment, f);
    }
  }

  /** Dividing by a positive number keeps order: pure algebra. */
  lemma QuotientMonotone(a: real, b: real, d: real)
    requires d > 0.0 && a <= b
    ensures a / d <= b / d
  {
    QuotientTimesDivisor(a, d);
    QuotientTimesDivisor(b, d);
  }

  /** One step of the power's recursion. */
  lemma PowStep(x: real, n: nat)
    requires n >= 1
    ensures Pow(x, n) == x * Pow(x, n - 1)
  {
  }

  lemma {:induction false} PowOfOne(n: nat)
    ensures Pow(1.0, n) == 1.0
  {
    if n > 0 {
      PowOfOne(n - 1);
      PowStep(1.0, n);
    }
  }

  /** A product of two non-zero factors is non-zero: pure algebra. */
  lemma NonzeroProduct(x: real, y: real, z: real)
    requires x != 0.0 && y != 0.0 && z == x * y
    ensures z != 0.0
  {
  }

  lemma {:induction false} PowNonzero(x: real, n: nat)
    requires x != 0.0
    ensures Pow(x, n) != 0.0
  {
    if n > 0 {
      PowNonzero(x, n - 1);
      PowStep(x, n);
      NonzeroProduct(x, Pow(x, n - 1), Pow(x, n));
    }
  }

  /** Multiplying by a factor above one grows a value of at least one: pure algebra. */
  lemma GrowthStep(x: real, y: real, z: real)
    requires x > 1.0 && y >= 1.0 && z == x * y
    ensures z > y
  {
    assert z - y == (x - 1.0) * y;
  }

  /** For a base above one, powers are at least one and strictly increase. */
  lemma {:induction false} PowIncreasing(x: real, k: nat, n: nat)
    requires x > 1.0 && k <= n
    ensures 1.0 <= Pow(x, k) <= Pow(x, n)
    ensures k < n ==> Pow(x, k) < Pow(x, n)
  {
    if k < n {
      PowIncreasing(x, k, n - 1);
      PowStep(x, n);
      GrowthStep(x, Pow(x, n - 1), Pow(x, n));
    } else if k > 0 {
      PowIncreasing(x, k - 1, k - 1);
      PowStep(x, k);
      GrowthStep(x, Pow(x, k - 1), Pow(x, k));
    }
  }

  /** A defined annuity has a non-zero rate and a non-empty term. */
  lemma DefinedHasRateAndTerm(r: real, n: nat)
    requires AnnuityDefined(r, n)
    ensures r != 0.0 && n > 0
  {
    if r == 0.0 {
      PowOfOne(n);
    }
  }

  /** A value `f` with `f * d == a`, `d > 0` and `a > 0` is positive: pure algebra. */
  lemma PositiveQuotient(f: real, a: real, d: real)
    requires d > 0.0 && a > 0.0 && f * d == a
    ensures f > 0.0
  {
  }

  /** A positive rate over a non-empty term makes the formula defined and the payment factor positive. */
  lemma PositiveRateDefined(r: real, n: nat)
    requires r > 0.0 && n > 0
    ensures AnnuityDefined(r, n)
    ensures AnnuityFactor(r, n) > 0.0
  {
    PowIncreasing(1.0 + r, 0, n);
    PowStep(1.0 + r, 0 + 1);
    assert Pow(1.0 + r, n) > 1.0;
    assert r * Pow(1.0 + r, n) > 0.0;
    PositiveQuotient(AnnuityFactor(r, n), r * Pow(1.0 + r, n), Pow(1.0 + r, n) - 1.0);
  }

  /**
   * The affordability calculator divides by the factor itself; it is
   * non-zero exactly when the rate is not -100% a month.
   */
  lemma FactorNonzero(r: real, n: nat)
    requires AnnuityDefined(r, n)
    ensures AnnuityFactor(r, n) != 0.0 <==> 1.0 + r != 0.0
  {
    DefinedHasRateAndTerm(r, n);
    PowStep(1.0 + r, n);
    if 1.0 + r != 0.0 {
      PowNonzero(1.0 + r, n);
      NonzeroProduct(r, Pow(1.0 + r, n), r * Pow(1.0 + r, n));
      if AnnuityFactor(r, n) == 0.0 {
        assert AnnuityFactor(r, n) * (Pow(1.0 + r, n) - 1.0) == 0.0;
      }
    } else {
      assert Pow(1.0 + r, n) == 0.0 * Pow(1.0 + r, n - 1);
      assert r * Pow(1.0 + r, n) == 0.0;
      ScaledSolution(AnnuityFactor(r, n), 0.0, 1.0, 0.0, Pow(1.0 + r, n) - 1.0);
    }
  }
}
