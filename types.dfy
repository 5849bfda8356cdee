/**
 * The record shapes the calculators read and return. Every TypeScript
 * `number` is modelled as an exact `real`, except the loan term, which the
 * model takes as a whole number of years.
 */
module Types {

  /** Inputs of the mortgage calculator. */
  datatype MortgageData = MortgageData(
    homePrice: real,
    downPayment: real,
    loanTerm: nat,       // years
    interestRate: real,  // annual, in percent
    propertyTax: real,   // per year
    insurance: real)     // per year

  /** Inputs of the rental-investment calculator. */
  datatype InvestmentData = InvestmentData(
    purchasePrice: real,
    monthlyRent: real,
    otherIncome: real,     // per month
    managementFee: real,   // per month
    maintenance: real,     // per month
    vacancyRate: real,     // in percent
    downPayment: real,
    interestRate: real)    // carried by the record, read by no formula

  /** Inputs of the affordability calculator. */
  datatype AffordabilityData = AffordabilityData(
    annualIncome: real,
    monthlyDebts: real,
    downPayment: real,
    interestRate: real)  // annual, in percent

  /** One recorded row of the amortization schedule. */
  datatype AmortizationPoint = AmortizationPoint(
    month: real,             // the loan month divided by 12, i.e. the year
    principal: real,         // principal repaid in that month
    interest: real,          // interest charged in that month
    remainingBalance: real)  // balance after that month, clamped at zero

  /** What the mortgage calculator returns. */
  datatype CalculationResults = CalculationResults(
    monthlyPayment: real,
    totalInterest: real,
    totalCost: real,
    amortization: seq<AmortizationPoint>)

  /** What the investment calculator returns (an anonymous object in the source). */
  datatype InvestmentResults = InvestmentResults(
    noi: real,
    capRate: real,
    cashOnCash: real,
    monthlyCashFlow: real)

  /** What the affordability calculator returns (an anonymous object in the source). */
  datatype AffordabilityResults = AffordabilityResults(
    maxHomePrice: real,
    maxMonthlyPayment: real)
}
