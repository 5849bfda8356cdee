/**
 * Specification of the month-by-month amortization loop of the mortgage
 * calculator (utils/calculations.ts:13-31): the running balance, the
 * running interest total and the yearly schedule, each as a function of
 * the number of months run, with the facts the loop is meant to establish.
 */
module Amortization {
  import opened Types
  import opened Annuity

  /**
   * Balance owed after `k` months: each month charges `balance * r` of
   * interest, and the part of the payment above it repays principal.
   */
  function Balance(principal: real, r: real, payment: real, k: nat): real
  {
    if k == 0 then principal
    else
      var b := Balance(principal, r, payment, k - 1);
      b - (payment - b * r)
  }

  /** Interest charged over the first `k` months. */
  function InterestTotal(principal: real, r: real, payment: real, k: nat): real
  {
    if k == 0 then 0.0
    else InterestTotal(principal, r, payment, k - 1) + Balance(principal, r, payment, k - 1) * r
  }

  /** `Math.max(0, x)`. */
  function ClampAtZero(x: real): (y: real)
    ensures y >= 0.0 && y >= x
    ensures y == x || y == 0.0
  {
    if x > 0.0 then x else 0.0
  }

  /** The schedule row the loop would record for month `i` (1-based). */
  function Point(principal: real, r: real, payment: real, i: nat): AmortizationPoint
    requires i >= 1
  {
    var interest := Balance(principal, r, payment, i - 1) * r;
    AmortizationPoint((i as real) / 12.0, payment - interest, interest,
                      ClampAtZero(Balance(principal, r, payment, i)))
  }

  /** Month `i` of an `n`-month loan is recorded at each year end and at the last month. */
  predicate Recorded(n: nat, i: nat)
  {
    i % 12 == 0 || i == n
  }

  /** The rows recorded during the first `k` months of an `n`-month loan, in month order. */
  function Schedule(principal: real, r: real, payment: real, n: nat, k: nat): seq<AmortizationPoint>
  {
    if k == 0 then []
    else
      Schedule(principal, r, payment, n, k - 1)
        + (if Recorded(n, k) then [Point(principal, r, payment, k)] else [])
  }

  /** The month of the `j`-th recorded row (0-based) of an `n`-month loan. */
  function RecordedMonth(n: nat, j: nat): nat
  {
    if 12 * (j + 1) <= n then 12 * (j + 1) else n
  }

  /**
   * The recorded months are exactly the months 1..n that are a year end
   * or the last month, there are ceil(n/12) of them, and they increase.
   */
  lemma RecordedMonths(n: nat)
    ensures forall j :: 0 <= j < (n + 11) / 12 ==>
      1 <= RecordedMonth(n, j) <= n && Recorded(n, RecordedMonth(n, j))
    ensures forall j :: 0 <= j && j + 1 < (n + 11) / 12 ==>
      RecordedMonth(n, j) < RecordedMonth(n, j + 1)
    ensures forall i :: 1 <= i <= n && Recorded(n, i) ==>
      0 <= (i - 1) / 12 < (n + 11) / 12 && RecordedMonth(n, (i - 1) / 12) == i
  {
    var len := (n + 11) / 12;
    assert 12 * len <= n + 11 < 12 * len + 12;
    forall j | 0 <= j < len
      ensures 1 <= RecordedMonth(n, j) <= n && Recorded(n, RecordedMonth(n, j))
    {
      if 12 * (j + 1) <= n {
        assert (12 * (j + 1)) % 12 == 0;
      }
    }
    forall j | 0 <= j && j + 1 < len
      ensures RecordedMonth(n, j) < RecordedMonth(n, j + 1)
    {
      assert 12 * (j + 1) < n;
    }
    forall i | 1 <= i <= n && Recorded(n, i)
      ensures 0 <= (i - 1) / 12 < len && RecordedMonth(n, (i - 1) / 12) == i
    {
      var j := (i - 1) / 12;
      assert 12 * j <= i - 1 < 12 * j + 12;
      if i % 12 == 0 {
        assert i == 12 * (j + 1);
      }
    }
  }

  /**
   * Running the loop for `k <= n` months records `k/12` rows, one more when
   * the last month is not a year end, and row `j` is the one for month
   * `RecordedMonth(n, j)`.
   */
  lemma {:induction false} ScheduleShape(principal: real, r: real, payment: real, n: nat, k: nat)
    requires k <= n
    ensures |Schedule(principal, r, payment, n, k)| == k / 12 + (if k == n && n % 12 != 0 then 1 else 0)
    ensures forall j :: 0 <= j < |Schedule(principal, r, payment, n, k)| ==>
      Schedule(principal, r, payment, n, k)[j] == Point(principal, r, payment, RecordedMonth(n, j))
  {
    if k > 0 {
      ScheduleShape(principal, r, payment, n, k - 1);
      var prev := Schedule(principal, r, payment, n, k - 1);
      assert |prev| == (k - 1) / 12;
      if Recorded(n, k) {
        assert RecordedMonth(n, |prev|) == k;
      } else {
        assert k / 12 == (k - 1) / 12;
      }
    }
  }

  /** Every row of the schedule splits the fixed payment into principal and interest, and reports a non-negative balance. */
  lemma ScheduleRows(principal: real, r: real, payment: real, n: nat)
    ensures |Schedule(principal, r, payment, n, n)| == (n + 11) / 12
    ensures forall j :: 0 <= j < |Schedule(principal, r, payment, n, n)| ==>
      var p := Schedule(principal, r, payment, n, n)[j];
      var i := RecordedMonth(n, j);
      && p.month == (i as real) / 12.0
      && p.interest == Balance(principal, r, payment, i - 1) * r
      && p.principal + p.interest == payment
      && p.remainingBalance == ClampAtZero(Balance(principal, r, payment, i))
      && p.remainingBalance >= 0.0
  {
    ScheduleShape(principal, r, payment, n, n);
    RecordedMonths(n);
  }

  /** `1 + q + ... + q^(k-1)`, built the way the balance recursion unfolds. */
  function Geometric(q: real, k: nat): real
  {
    if k == 0 then 0.0 else q * Geometric(q, k - 1) + 1.0
  }

  /** One step of the geometric sum's recursion. */
  lemma GeometricStep(q: real, k: nat)
    requires k >= 1
    ensures Geometric(q, k) == q * Geometric(q, k - 1) + 1.0
  {
  }

  /** One step of the geometric sum, against one step of the power: pure algebra. */
  lemma GeometricStepAlgebra(r: real, g: real, g1: real, p: real, p1: real)
    requires g * r == p - 1.0
    requires g1 == (1.0 + r) * g + 1.0 && p1 == (1.0 + r) * p
    ensures g1 * r == p1 - 1.0
  {
    assert g1 * r == (1.0 + r) * (g * r) + r;
  }

  /** The induction step of GeometricSum. */
  lemma GeometricSumStep(r: real, k: nat)
    requires k >= 1
    requires Geometric(1.0 + r, k - 1) * r == Pow(1.0 + r, k - 1) - 1.0
    ensures Geometric(1.0 + r, k) * r == Pow(1.0 + r, k) - 1.0
  {
    PowStep(1.0 + r, k);
    GeometricStep(1.0 + r, k);
    GeometricStepAlgebra(r, Geometric(1.0 + r, k - 1), Geometric(1.0 + r, k),
                         Pow(1.0 + r, k - 1), Pow(1.0 + r, k));
  }

  /** `r (1 + q + ... + q^(k-1)) == q^k - 1` for `q == 1 + r`. */
  lemma {:induction false} GeometricSum(r: real, k: nat)
    ensures Geometric(1.0 + r, k) * r == Pow(1.0 + r, k) - 1.0
  {
    if k > 0 {
      GeometricSum(r, k - 1);
      GeometricSumStep(r, k);
    }
  }

  /** One step of the balance recursion. */
  lemma BalanceStep(principal: real, r: real, payment: real, k: nat)
    requires k >= 1
    ensures Balance(principal, r, payment, k)
         == Balance(principal, r, payment, k - 1) - (payment - Balance(principal, r, payment, k - 1) * r)
  {
  }

  /** One month of the balance recursion, in the unrolled form: pure algebra. */
  lemma StepAlgebra(b: real, b1: real, r: real, payment: real, principal: real,
                    pk: real, pk1: real, gk: real, gk1: real)
    requires b == principal * pk - payment * gk
    requires b1 == b - (payment - b * r)
    requires pk1 == (1.0 + r) * pk && gk1 == (1.0 + r) * gk + 1.0
    ensures b1 == principal * pk1 - payment * gk1
  {
  }

  /** The induction step of BalanceUnrolled. */
  lemma BalanceUnrolledStep(principal: real, r: real, payment: real, k: nat)
    requires k >= 1
    requires Balance(principal, r, payment, k - 1)
          == principal * Pow(1.0 + r, k - 1) - payment * Geometric(1.0 + r, k - 1)
    ensures Balance(principal, r, payment, k)
         == principal * Pow(1.0 + r, k) - payment * Geometric(1.0 + r, k)
  {
    BalanceStep(principal, r, payment, k);
    PowStep(1.0 + r, k);
    GeometricStep(1.0 + r, k);
    StepAlgebra(Balance(principal, r, payment, k - 1), Balance(principal, r, payment, k),
                r, payment, principal,
                Pow(1.0 + r, k - 1), Pow(1.0 + r, k),
                Geometric(1.0 + r, k - 1), Geometric(1.0 + r, k));
  }

  /** After `k` months the balance is the grown principal less the grown payments. */
  lemma {:induction false} BalanceUnrolled(principal: real, r: real, payment: real, k: nat)
    ensures Balance(principal, r, payment, k)
         == principal * Pow(1.0 + r, k) - payment * Geometric(1.0 + r, k)
  {
    if k > 0 {
      BalanceUnrolled(principal, r, payment, k - 1);
      BalanceUnrolledStep(principal, r, payment, k);
    }
  }

  /** The closed form of the balance from its unrolled form: pure algebra. */
  lemma ClosedFormAlgebra(b: real, payment: real, principal: real, r: real, gn: real, gk: real, geo: real)
    requires b == principal * gk - payment * geo
    requires payment * (gn - 1.0) == principal * r * gn
    requires geo * r == gk - 1.0
    ensures b * (gn - 1.0) == principal * (gn - gk)
  {
    calc {
      b * (gn - 1.0);
      principal * gk * (gn - 1.0) - (payment * (gn - 1.0)) * geo;
      principal * gk * (gn - 1.0) - principal * gn * (geo * r);
      principal * gk * (gn - 1.0) - principal * gn * (gk - 1.0);
      principal * (gn - gk);
    }
  }

  /** BalanceClosedForm from the unrolled balance, the geometric sum and the payment equation. */
  lemma ClosedFormFromParts(principal: real, r: real, payment: real, n: nat, k: nat)
    requires Balance(principal, r, payment, k)
          == principal * Pow(1.0 + r, k) - payment * Geometric(1.0 + r, k)
    requires Geometric(1.0 + r, k) * r == Pow(1.0 + r, k) - 1.0
    requires payment * (Pow(1.0 + r, n) - 1.0) == principal * r * Pow(1.0 + r, n)
    ensures Balance(principal, r, payment, k) * (Pow(1.0 + r, n) - 1.0)
         == principal * (Pow(1.0 + r, n) - Pow(1.0 + r, k))
  {
    ClosedFormAlgebra(Balance(principal, r, payment, k), payment,
                      principal, r, Pow(1.0 + r, n), Pow(1.0 + r, k), Geometric(1.0 + r, k));
  }

  /** BalanceClosedForm for any payment that satisfies the payment's defining equation. */
  lemma ClosedFormFor(principal: real, r: real, payment: real, n: nat, k: nat)
    requires payment * (Pow(1.0 + r, n) - 1.0) == principal * r * Pow(1.0 + r, n)
    ensures Balance(principal, r, payment, k) * (Pow(1.0 + r, n) - 1.0)
         == principal * (Pow(1.0 + r, n) - Pow(1.0 + r, k))
  {
    BalanceUnrolled(principal, r, payment, k);
    GeometricSum(r, k);
    ClosedFormFromParts(principal, r, payment, n, k);
  }

  /**
   * With the annuity payment, the balance after `k` months is
   * `P ((1+r)^n - (1+r)^k) / ((1+r)^n - 1)`, stated here without division.
   */
  lemma BalanceClosedForm(principal: real, r: real, n: nat, k: nat)
    requires AnnuityDefined(r, n)
    ensures Balance(principal, r, Payment(principal, r, n), k) * (Pow(1.0 + r, n) - 1.0)
         == principal * (Pow(1.0 + r, n) - Pow(1.0 + r, k))
  {
    ClosedFormFor(principal, r, Payment(principal, r, n), n, k);
  }

  /** `b * d == p * 0` with `d != 0` forces `b == 0`: pure algebra. */
  lemma ZeroAlgebra(b: real, d: real, principal: real, e: real)
    requires d != 0.0 && e == 0.0 && b * d == principal * e
    ensures b == 0.0
  {
  }

  /** The annuity payment repays the loan exactly: nothing is owed after the last month. */
  lemma PaidOff(principal: real, r: real, n: nat)
    requires AnnuityDefined(r, n)
    ensures Balance(principal, r, Payment(principal, r, n), n) == 0.0
  {
    BalanceClosedForm(principal, r, n, n);
    ZeroAlgebra(Balance(principal, r, Payment(principal, r, n), n), Pow(1.0 + r, n) - 1.0,
                principal, Pow(1.0 + r, n) - Pow(1.0 + r, n));
  }

  /** A value `b` with `b * d == p * e` lies in [0, p] when 0 <= e <= d, d > 0 and p >= 0: pure algebra. */
  lemma BoundsAlgebra(b: real, d: real, e: real, principal: real)
    requires b * d == principal * e && d > 0.0 && 0.0 <= e <= d && principal >= 0.0
    ensures 0.0 <= b <= principal
  {
    assert principal * e <= principal * d;
    assert b * d <= principal * d;
  }

  /**
   * At a positive rate the balance of a non-negative loan stays between
   * zero and the principal throughout the term, so the clamp at zero never
   * changes a value in exact arithmetic.
   */
  lemma BalanceBounds(principal: real, r: real, n: nat, k: nat)
    requires r > 0.0 && n > 0 && principal >= 0.0 && k <= n
    ensures AnnuityDefined(r, n)
    ensures 0.0 <= Balance(principal, r, Payment(principal, r, n), k) <= principal
  {
    PositiveRateDefined(r, n);
    PowIncreasing(1.0 + r, k, n);
    PowIncreasing(1.0 + r, 0, k);
    PowIncreasing(1.0 + r, 0, n);
    BalanceClosedForm(principal, r, n, k);
    BoundsAlgebra(Balance(principal, r, Payment(principal, r, n), k),
                  Pow(1.0 + r, n) - 1.0, Pow(1.0 + r, n) - Pow(1.0 + r, k), principal);
  }

  /** Two values scaled by the same positive `d` keep their order: pure algebra. */
  lemma DecreaseAlgebra(b0: real, b1: real, d: real, principal: real, g0: real, g1: real, gn: real)
    requires b0 * d == principal * (gn - g0) && b1 * d == principal * (gn - g1)
    requires d > 0.0 && principal > 0.0 && g0 < g1
    ensures b1 < b0
  {
    assert (b0 - b1) * d == principal * (g1 - g0);
    assert principal * (g1 - g0) > 0.0;
  }

  /** BalanceDecreasing for any payment that satisfies the payment's defining equation. */
  lemma DecreasingFor(principal: real, r: real, payment: real, n: nat, k: nat)
    requires r > 0.0 && principal > 0.0 && k < n
    requires payment * (Pow(1.0 + r, n) - 1.0) == principal * r * Pow(1.0 + r, n)
    ensures Balance(principal, r, payment, k + 1) < Balance(principal, r, payment, k)
  {
    PowIncreasing(1.0 + r, k, k + 1);
    PowIncreasing(1.0 + r, 0, n);
    ClosedFormFor(principal, r, payment, n, k);
    ClosedFormFor(principal, r, payment, n, k + 1);
    DecreasingFromParts(principal, r, payment, n, k);
  }

  /** DecreasingFor from the two closed forms and the order of the powers. */
  lemma DecreasingFromParts(principal: real, r: real, payment: real, n: nat, k: nat)
    requires principal > 0.0 && 1.0 <= Pow(1.0 + r, 0) < Pow(1.0 + r, n)
    requires Pow(1.0 + r, k) < Pow(1.0 + r, k + 1)
    requires Balance(principal, r, payment, k) * (Pow(1.0 + r, n) - 1.0)
          == principal * (Pow(1.0 + r, n) - Pow(1.0 + r, k))
    requires Balance(principal, r, payment, k + 1) * (Pow(1.0 + r, n) - 1.0)
          == principal * (Pow(1.0 + r, n) - Pow(1.0 + r, k + 1))
    ensures Balance(principal, r, payment, k + 1) < Balance(principal, r, payment, k)
  {
    DecreaseAlgebra(Balance(principal, r, payment, k), Balance(principal, r, payment, k + 1),
                    Pow(1.0 + r, n) - 1.0, principal,
                    Pow(1.0 + r, k), Pow(1.0 + r, k + 1), Pow(1.0 + r, n));
  }

  /** At a positive rate every month repays a positive amount of a positive loan. */
  lemma BalanceDecreasing(principal: real, r: real, n: nat, k: nat)
    requires r > 0.0 && principal > 0.0 && k < n
    ensures AnnuityDefined(r, n)
    ensures Balance(principal, r, Payment(principal, r, n), k + 1)
          < Balance(principal, r, Payment(principal, r, n), k)
  {
    PositiveRateDefined(r, n);
    DecreasingFor(principal, r, Payment(principal, r, n), n, k);
  }

  /** A value `b` with `b * d == p * e`, `d > 0`, `e > 0` and `p < 0` is negative: pure algebra. */
  lemma NegativeAlgebra(b: real, d: real, e: real, principal: real)
    requires b * d == principal * e && d > 0.0 && e > 0.0 && principal < 0.0
    ensures b < 0.0
  {
    assert principal * e < 0.0;
  }

  /**
   * When the down payment exceeds the price, the principal is negative: at
   * a positive rate every balance strictly inside the term is then below
   * zero, and the clamp at zero replaces it by 0.
   */
  lemma NegativeLoanClamped(principal: real, r: real, n: nat, k: nat)
    requires r > 0.0 && principal < 0.0 && 0 < k < n
    ensures AnnuityDefined(r, n)
    ensures Balance(principal, r, Payment(principal, r, n), k) < 0.0
    ensures ClampAtZero(Balance(principal, r, Payment(principal, r, n), k)) == 0.0
  {
    PositiveRateDefined(r, n);
    PowIncreasing(1.0 + r, k, n);
    PowIncreasing(1.0 + r, 0, n);
    BalanceClosedForm(principal, r, n, k);
    NegativeAlgebra(Balance(principal, r, Payment(principal, r, n), k),
                    Pow(1.0 + r, n) - 1.0, Pow(1.0 + r, n) - Pow(1.0 + r, k), principal);
  }

  /** Interest paid so far is the payments made so far less the principal repaid so far. */
  lemma {:induction false} InterestTotalIdentity(principal: real, r: real, payment: real, k: nat)
    ensures InterestTotal(principal, r, payment, k)
         == (k as real) * payment - principal + Balance(principal, r, payment, k)
  {
    if k > 0 {
      InterestTotalIdentity(principal, r, payment, k - 1);
      BalanceStep(principal, r, payment, k);
    }
  }

  /** Over the whole term, principal plus interest equals the sum of all `n` payments. */
  lemma TotalCostIsAllPayments(principal: real, r: real, n: nat)
    requires AnnuityDefined(r, n)
    ensures principal + InterestTotal(principal, r, Payment(principal, r, n), n)
         == (n as real) * Payment(principal, r, n)
  {
    InterestTotalIdentity(principal, r, Payment(principal, r, n), n);
    PaidOff(principal, r, n);
  }
}
