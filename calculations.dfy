/**
 * The three calculators of utils/calculations.ts: the mortgage calculator
 * (a month-by-month loop, modelled as a method proved against the
 * specification functions of module Amortization), the rental-investment
 * calculator and the affordability calculator (both pure arithmetic).
 */
module Calculations {
  import opened Types
  import opened Annuity
  import opened Amortization

  // ---------------------------------------------------------------- mortgage

  /** The amount borrowed. */
  function Principal(data: MortgageData): real
  {
    data.homePrice - data.downPayment
  }

  /** The mortgage formulas divide by zero exactly when this fails (for instance at a 0% rate or a 0-year term). */
  predicate MortgageDefined(data: MortgageData)
  {
    AnnuityDefined(MonthlyRate(data.interestRate), TotalMonths(data.loanTerm))
  }

  /** The fixed monthly loan payment, before tax and insurance. */
  function BasePayment(data: MortgageData): real
    requires MortgageDefined(data)
  {
    Payment(Principal(data), MonthlyRate(data.interestRate), TotalMonths(data.loanTerm))
  }

  /** What the mortgage calculator returns, month by month as the loop computes it. */
  function MortgageResults(data: MortgageData): CalculationResults
    requires MortgageDefined(data)
  {
    var p := Principal(data);
    var r := MonthlyRate(data.interestRate);
    var n := TotalMonths(data.loanTerm);
    var m := BasePayment(data);
    CalculationResults(
      m + data.propertyTax / 12.0 + data.insurance / 12.0,
      InterestTotal(p, r, m, n),
      p + InterestTotal(p, r, m, n),
      Schedule(p, r, m, n, n))
  }

  /**
   * `calculateMortgage`: runs the amortization loop month by month,
   * updating the balance and the interest total and recording a schedule
   * row at every year end and at the last month.
   */
  method CalculateMortgage(data: MortgageData) returns (res: CalculationResults)
    requires MortgageDefined(data)
    ensures res == MortgageResults(data)
    ensures res.monthlyPayment == BasePayment(data) + data.propertyTax / 12.0 + data.insurance / 12.0
    ensures res.totalCost == (TotalMonths(data.loanTerm) as real) * BasePayment(data)
    ensures |res.amortization| == data.loanTerm
  {
    var principal := data.homePrice - data.downPayment;
    var monthlyRate := data.interestRate / 100.0 / 12.0;
    var totalMonths := data.loanTerm * 12;
    var monthlyPayment := Payment(principal, monthlyRate, totalMonths);

    var amortization: seq<AmortizationPoint> := [];
    var remainingBalance := principal;
    var totalInterest := 0.0;

    var i := 1;
    while i <= totalMonths
      invariant 1 <= i <= totalMonths + 1
      invariant remainingBalance == Balance(principal, monthlyRate, monthlyPayment, i - 1)
      invariant totalInterest == InterestTotal(principal, monthlyRate, monthlyPayment, i - 1)
      invariant amortization == Schedule(principal, monthlyRate, monthlyPayment, totalMonths, i - 1)
    {
      var interest := remainingBalance * monthlyRate;
      var principalPaid := monthlyPayment - interest;
      remainingBalance := remainingBalance - principalPaid;
      totalInterest := totalInterest + interest;

      if i % 12 == 0 || i == totalMonths {
        amortization := amortization + [AmortizationPoint(
          (i as real) / 12.0, principalPaid, interest,
          if remainingBalance > 0.0 then remainingBalance else 0.0)];
      }
      i := i + 1;
    }

    res := CalculationResults(
      monthlyPayment + data.propertyTax / 12.0 + data.insurance / 12.0,
      totalInterest,
      principal + totalInterest,
      amortization);
    MortgageProperties(data);
  }

  /**
   * What the mortgage results promise, in exact arithmetic: the total cost
   * is all the payments, the schedule has one row per year (row `j` for
   * year `j + 1`), each row's payment splits into principal and interest,
   * the last row shows the loan repaid, and no balance shown is negative.
   */
  lemma MortgageProperties(data: MortgageData)
    requires MortgageDefined(data)
    ensures var res := MortgageResults(data);
      && res.totalCost == Principal(data) + res.totalInterest
      && res.totalCost == (TotalMonths(data.loanTerm) as real) * BasePayment(data)
      && |res.amortization| == data.loanTerm
      && (forall j :: 0 <= j < data.loanTerm ==>
            && res.amortization[j].month == (j + 1) as real
            && res.amortization[j].principal + res.amortization[j].interest == BasePayment(data)
            && res.amortization[j].remainingBalance >= 0.0)
      && res.amortization[data.loanTerm - 1].remainingBalance == 0.0
  {
    var p := Principal(data);
    var r := MonthlyRate(data.interestRate);
    var n := TotalMonths(data.loanTerm);
    DefinedHasRateAndTerm(r, n);
    TotalCostIsAllPayments(p, r, n);
    ScheduleRows(p, r, BasePayment(data), n);
    assert (n + 11) / 12 == data.loanTerm;
    forall j | 0 <= j < data.loanTerm
      ensures RecordedMonth(n, j) == 12 * (j + 1)
    {
    }
    PaidOff(p, r, n);
  }

  /**
   * At a positive rate on a non-negative loan, the clamp at zero in the
   * schedule never fires: each row shows the true balance, which never
   * exceeds the amount borrowed.
   */
  lemma ScheduleBalancesExact(data: MortgageData)
    requires data.interestRate > 0.0 && data.loanTerm > 0 && Principal(data) >= 0.0
    ensures MortgageDefined(data)
    ensures forall j :: 0 <= j < |MortgageResults(data).amortization| ==>
      var row := MortgageResults(data).amortization[j];
      row.remainingBalance
        == Balance(Principal(data), MonthlyRate(data.interestRate), BasePayment(data), 12 * (j + 1))
      && row.remainingBalance <= Principal(data)
  {
    var p := Principal(data);
    var r := MonthlyRate(data.interestRate);
    var n := TotalMonths(data.loanTerm);
    PositiveRateDefined(r, n);
    MortgageProperties(data);
    ScheduleRows(p, r, BasePayment(data), n);
    forall j | 0 <= j < data.loanTerm
      ensures RecordedMonth(n, j) == 12 * (j + 1)
      ensures 0.0 <= Balance(p, r, BasePayment(data), 12 * (j + 1)) <= p
    {
      BalanceBounds(p, r, n, 12 * (j + 1));
    }
  }

  /** A positive rate and a non-empty term are enough for the mortgage formulas to be defined. */
  lemma PositiveRateMortgageDefined(data: MortgageData)
    requires data.interestRate > 0.0 && data.loanTerm > 0
    ensures MortgageDefined(data)
  {
    PositiveRateDefined(MonthlyRate(data.interestRate), TotalMonths(data.loanTerm));
  }

  // -------------------------------------------------------------- investment

  /** The investment ratios divide by the purchase price and by the down payment. */
  predicate InvestmentDefined(data: InvestmentData)
  {
    data.purchasePrice != 0.0 && data.downPayment != 0.0
  }

  /** Net operating income: rent after vacancy, less operating expenses, per year. */
  function NetOperatingIncome(data: InvestmentData): (noi: real)
    ensures noi == (data.monthlyRent + data.otherIncome) * 12.0 * (1.0 - data.vacancyRate / 100.0)
                 - (data.managementFee + data.maintenance) * 12.0
  {
    var grossRent := (data.monthlyRent + data.otherIncome) * 12.0;
    var vacancyLoss := grossRent * (data.vacancyRate / 100.0);
    var effectiveGrossIncome := grossRent - vacancyLoss;
    var operatingExpenses := (data.managementFee + data.maintenance) * 12.0;
    effectiveGrossIncome - operatingExpenses
  }

  /**
   * `calculateInvestment`: the cap rate is NOI as a percentage of the price,
   * cash-on-cash is NOI as a percentage of the cash put in, and the monthly
   * cash flow is a twelfth of NOI.
   */
  function CalculateInvestment(data: InvestmentData): (res: InvestmentResults)
    requires InvestmentDefined(data)
    ensures res.noi == NetOperatingIncome(data)
    ensures res.capRate * data.purchasePrice == res.noi * 100.0
    ensures res.cashOnCash * data.downPayment == res.noi * 100.0
    ensures res.monthlyCashFlow * 12.0 == res.noi
  {
    var noi := NetOperatingIncome(data);
    InvestmentResults(noi, noi / data.purchasePrice * 100.0, noi / data.downPayment * 100.0, noi / 12.0)
  }

  /**
   * With positive price and down payment, the cap rate, the cash-on-cash
   * return and the monthly cash flow all have the sign of NOI.
   */
  lemma InvestmentSigns(data: InvestmentData)
    requires data.purchasePrice > 0.0 && data.downPayment > 0.0
    ensures var res := CalculateInvestment(data);
      && (res.capRate > 0.0 <==> res.noi > 0.0)
      && (res.cashOnCash > 0.0 <==> res.noi > 0.0)
      && (res.monthlyCashFlow > 0.0 <==> res.noi > 0.0)
  {
    var res := CalculateInvestment(data);
    assert res.capRate * data.purchasePrice == res.noi * 100.0;
    assert res.cashOnCash * data.downPayment == res.noi * 100.0;
    SameSign(res.capRate, data.purchasePrice, res.noi * 100.0);
    SameSign(res.cashOnCash, data.downPayment, res.noi * 100.0);
  }

  /** A product with a positive factor has the sign of the other factor: pure algebra. */
  lemma SameSign(x: real, d: real, y: real)
    requires d > 0.0 && x * d == y
    ensures x > 0.0 <==> y > 0.0
    ensures x >= 0.0 <==> y >= 0.0
  {
    if x > 0.0 {
      assert x * d > 0.0;
    } else if x == 0.0 {
      assert x * d == 0.0;
    } else {
      assert x * d < 0.0;
    }
  }

  /**
   * Leverage: when only part of the price is paid in cash and NOI is not
   * negative, the cash-on-cash return is at least the cap rate.
   */
  lemma LeverageRaisesReturn(data: InvestmentData)
    requires 0.0 < data.downPayment <= data.purchasePrice
    requires NetOperatingIncome(data) >= 0.0
    ensures CalculateInvestment(data).cashOnCash >= CalculateInvestment(data).capRate
  {
    var res := CalculateInvestment(data);
    var a := res.noi * 100.0;
    assert res.capRate * data.purchasePrice == a;
    assert res.cashOnCash * data.downPayment == a;
    SameSign(res.capRate, data.purchasePrice, a);
    assert res.capRate * (data.purchasePrice - data.downPayment) >= 0.0;
    SameSign(res.cashOnCash - res.capRate, data.downPayment, res.capRate * (data.purchasePrice - data.downPayment));
  }

  // ----------------------------------------------------------- affordability

  /** Share of gross monthly income the calculator allows for the mortgage payment. */
  const MortgageIncomeShare: real := 0.28

  /** The affordability calculator assumes a 30-year loan. */
  const StandardTermYears: nat := 30

  /**
   * The affordability formula divides by the annuity factor, which must
   * itself be defined (a 0% rate makes it 0/0) and non-zero.
   */
  predicate AffordabilityDefined(data: AffordabilityData)
  {
    var r := MonthlyRate(data.interestRate);
    AnnuityDefined(r, TotalMonths(StandardTermYears)) && AnnuityFactor(r, TotalMonths(StandardTermYears)) != 0.0
  }

  /** The payment the 28% rule leaves for the mortgage after existing debts. */
  function AvailableForMortgage(data: AffordabilityData): real
  {
    data.annualIncome / 12.0 * MortgageIncomeShare - data.monthlyDebts
  }

  /**
   * `calculateAffordability`: the largest loan whose 30-year payment at the
   * given rate is the payment the 28% rule allows, plus the down payment.
   */
  function CalculateAffordability(data: AffordabilityData): (res: AffordabilityResults)
    requires AffordabilityDefined(data)
    ensures res.maxMonthlyPayment == AvailableForMortgage(data)
    ensures Payment(res.maxHomePrice - data.downPayment, MonthlyRate(data.interestRate),
                    TotalMonths(StandardTermYears)) == res.maxMonthlyPayment
  {
    var monthlyIncome := data.annualIncome / 12.0;
    var availableForMortgage := monthlyIncome * MortgageIncomeShare - data.monthlyDebts;
    var monthlyRate := MonthlyRate(data.interestRate);
    var totalMonths := TotalMonths(StandardTermYears);
    var maxLoan := availableForMortgage / AnnuityFactor(monthlyRate, totalMonths);
    LoanForPayment(availableForMortgage, maxLoan, monthlyRate, totalMonths);
    AffordabilityResults(maxLoan + data.downPayment, availableForMortgage)
  }

  /** A positive rate is enough for the affordability formula to be defined. */
  lemma PositiveRateAffordabilityDefined(data: AffordabilityData)
    requires data.interestRate > 0.0
    ensures AffordabilityDefined(data)
  {
    PositiveRateDefined(MonthlyRate(data.interestRate), TotalMonths(StandardTermYears));
  }

  /** The mortgage on the most affordable home, over 30 years with no tax or insurance. */
  function AffordableMortgage(data: AffordabilityData): MortgageData
    requires AffordabilityDefined(data)
  {
    MortgageData(CalculateAffordability(data).maxHomePrice, data.downPayment, StandardTermYears,
                 data.interestRate, 0.0, 0.0)
  }

  /**
   * Round trip one way: feeding the most affordable home back into the
   * mortgage calculator gives back exactly the payment the 28% rule allows.
   */
  lemma AffordabilityRoundTrip(data: AffordabilityData)
    requires AffordabilityDefined(data)
    ensures MortgageDefined(AffordableMortgage(data))
    ensures MortgageResults(AffordableMortgage(data)).monthlyPayment
         == CalculateAffordability(data).maxMonthlyPayment
  {
  }

  /**
   * Round trip the other way: when the 28% rule allows exactly the payment
   * of a 30-year mortgage with no tax or insurance, the affordability
   * calculator gives back that mortgage's home price.
   */
  lemma MortgageRoundTrip(mortgage: MortgageData, data: AffordabilityData)
    requires mortgage.loanTerm == StandardTermYears
    requires mortgage.propertyTax == 0.0 && mortgage.insurance == 0.0
    requires mortgage.interestRate == data.interestRate && mortgage.downPayment == data.downPayment
    requires AffordabilityDefined(data)
    requires MortgageDefined(mortgage)
    requires AvailableForMortgage(data) == MortgageResults(mortgage).monthlyPayment
    ensures CalculateAffordability(data).maxHomePrice == mortgage.homePrice
  {
    var r := MonthlyRate(data.interestRate);
    var n := TotalMonths(StandardTermYears);
    assert Payment(Principal(mortgage), r, n) == AvailableForMortgage(data);
    LoanForPayment(AvailableForMortgage(data), Principal(mortgage), r, n);
  }

  /**
   * At a positive rate the most affordable price reaches the down payment
   * exactly when the 28% rule leaves a non-negative payment; when existing
   * debts exceed the allowance, the price reported is below the down payment.
   */
  lemma MaxLoanSign(data: AffordabilityData)
    requires data.interestRate > 0.0
    ensures AffordabilityDefined(data)
    ensures CalculateAffordability(data).maxHomePrice >= data.downPayment
        <==> AvailableForMortgage(data) >= 0.0
  {
    var r := MonthlyRate(data.interestRate);
    var n := TotalMonths(StandardTermYears);
    PositiveRateDefined(r, n);
    var f := AnnuityFactor(r, n);
    QuotientTimesDivisor(AvailableForMortgage(data), f);
    SameSign(AvailableForMortgage(data) / f, f, AvailableForMortgage(data));
  }

  /** At a positive rate, more income (or fewer debts) never lowers the most affordable price. */
  lemma AffordabilityMonotone(a: AffordabilityData, b: AffordabilityData)
    requires a.interestRate == b.interestRate > 0.0 && a.downPayment == b.downPayment
    requires AvailableForMortgage(a) <= AvailableForMortgage(b)
    ensures AffordabilityDefined(a) && AffordabilityDefined(b)
    ensures CalculateAffordability(a).maxHomePrice <= CalculateAffordability(b).maxHomePrice
  {
    var r := MonthlyRate(a.interestRate);
    var n := TotalMonths(StandardTermYears);
    PositiveRateDefined(r, n);
    QuotientMonotone(AvailableForMortgage(a), AvailableForMortgage(b), AnnuityFactor(r, n));
  }
}
