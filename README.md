# Real-estate calculators, modelled in Dafny

A model of the three calculators in `utils/calculations.ts` of a client-side
real-estate calculator, with the record shapes of `types.ts`:

- **Mortgage** (`calculateMortgage`): the amount borrowed is the home price
  less the down payment. The fixed monthly payment comes from the annuity
  formula. A month-by-month loop charges interest on the running balance,
  repays principal with the rest of the payment, and adds up the interest.
  It records a schedule row at every year end and at the last month, with
  the balance clamped at zero. The reported monthly payment adds a twelfth
  of the yearly property tax and a twelfth of the yearly insurance.
- **Rental investment** (`calculateInvestment`): net operating income (NOI)
  is gross rent after vacancy loss, less management and maintenance. The cap
  rate, the cash-on-cash return and the monthly cash flow are derived from it.
- **Affordability** (`calculateAffordability`): 28% of gross monthly income,
  less existing debts, is the payment allowed for the mortgage. The annuity
  formula is inverted over 30 years to give the largest loan, and the down
  payment is added to it.

Files:

- `types.dfy` (module `Types`): the input and result records as datatypes.
- `annuity.dfy` (module `Annuity`): `Math.pow` with a whole exponent, the
  monthly rate, the annuity factor and payment, and the inversion of the
  payment formula.
- `amortization.dfy` (module `Amortization`): the running balance, the
  running interest total and the schedule as functions of the months run,
  with the facts the loop establishes.
- `calculations.dfy` (module `Calculations`): the mortgage loop as a method
  proved against those functions, the investment and affordability
  calculators as functions, and the lemmas relating the calculators.

Arithmetic is exact (`real`), so the model states what the formulas mean
rather than what floating point makes of them. Where the source would divide
by zero and produce `NaN` or `Infinity`, the model requires the divisor to be
non-zero. `MortgageDefined`, `InvestmentDefined` and `AffordabilityDefined`
state exactly those conditions. Lemmas show that a positive rate and a
non-empty term are enough for them.

The main results:

- The annuity payment pays the loan off exactly in the last month.
- In closed form, the balance after `k` months is
  `P((1+r)^n - (1+r)^k)/((1+r)^n - 1)`. At a positive rate, for a loan of
  non-negative principal, it stays between zero and the principal (and, for
  a positive principal, falls every month), so the clamp at zero never
  changes a value in exact arithmetic. When the down payment exceeds the
  home price the principal is negative, every balance strictly inside the
  term is below zero, and the clamp replaces it by 0.
- The total cost (principal plus all interest) equals the `n` payments.
- The schedule has `ceil(n/12)` rows, for exactly the year-end months and
  the last month, in increasing order.
- Affordability is the exact inverse of the mortgage payment, in both
  directions.

## Model

| member | source | states |
|---|---|---|
| `Annuity.AnnuityFactor` | utils/calculations.ts:68-70 | the payment per unit borrowed `f` satisfies `f((1+r)^n - 1) == r(1+r)^n` |
| `Annuity.Payment` | utils/calculations.ts:9-11 | the monthly payment `m` on principal `P` satisfies `m((1+r)^n - 1) == P·r·(1+r)^n` |
| `Annuity.PaymentIsScaledFactor` | utils/calculations.ts:9-11 | the mortgage payment formula is the principal times the factor that the affordability formula divides by |
| `Annuity.LoanForPayment` | utils/calculations.ts:68-70 | the loan `payment / factor` has exactly the payment `payment`; any loan with that payment is that one (the inverse of the payment formula) |
| `Annuity.DefinedHasRateAndTerm` | utils/calculations.ts:9-11 | if the annuity divisor is non-zero, the rate is non-zero and the term is non-empty (a 0% rate gives 0/0; a 0-month term divides a non-zero amount by zero) |
| `Annuity.PositiveRateDefined` | utils/calculations.ts:9-11 | a positive rate over a non-empty term makes the formula defined, with a positive factor |
| `Annuity.FactorNonzero` | utils/calculations.ts:68-70 | the factor the affordability formula divides by is non-zero exactly when the monthly rate is not -100% |
| `Amortization.ClampAtZero` | utils/calculations.ts:28 | `Math.max(0, x)` is at least 0 and at least `x`, and is one of them |
| `Amortization.RecordedMonths` | utils/calculations.ts:23 | the recorded months are exactly the months in 1..n that are a year end or the last month; there are ceil(n/12) of them and they increase |
| `Amortization.ScheduleShape` | utils/calculations.ts:17-30 | after `k <= n` months the loop has recorded `k/12` rows, plus one if the last month is not a year end; row `j` is month `RecordedMonth(n, j)` |
| `Amortization.ScheduleRows` | utils/calculations.ts:17-30 | the schedule has ceil(n/12) rows; row `j` is for month `i`, has month field `i/12`, interest `balance·r`, principal plus interest equal to the payment, and a non-negative clamped balance |
| `Amortization.BalanceUnrolled` | utils/calculations.ts:17-20 | after `k` months the balance is `P(1+r)^k - m(1 + (1+r) + ... + (1+r)^(k-1))` |
| `Amortization.BalanceClosedForm` | utils/calculations.ts:9-20 | with the annuity payment, balance after `k` months times `((1+r)^n - 1)` equals `P((1+r)^n - (1+r)^k)` |
| `Amortization.PaidOff` | utils/calculations.ts:9-20 | with the annuity payment, the balance after the last month is exactly 0 |
| `Amortization.BalanceBounds` | utils/calculations.ts:28 | at a positive rate, a non-negative loan's balance stays in [0, P] for the whole term, so the clamp never fires |
| `Amortization.NegativeLoanClamped` | utils/calculations.ts:28 | at a positive rate, a negative principal (down payment above the price) gives a negative balance in every month strictly inside the term, which the clamp replaces by 0 |
| `Amortization.BalanceDecreasing` | utils/calculations.ts:18-20 | at a positive rate, every month strictly lowers the balance of a positive loan |
| `Amortization.InterestTotalIdentity` | utils/calculations.ts:14-21 | interest paid after `k` months equals `k` payments less the principal repaid so far |
| `Amortization.TotalCostIsAllPayments` | utils/calculations.ts:36 | principal plus total interest equals the sum of all `n` payments |
| `Calculations.CalculateMortgage` | utils/calculations.ts:4-39 | the loop returns exactly the month-by-month results; the payment includes a twelfth of tax and insurance; the total cost is `n` payments; there is one schedule row per year |
| `Calculations.MortgageProperties` | utils/calculations.ts:13-38 | total cost is principal plus interest and is all `n` payments; there is one row per year, row `j` has month `j+1`, principal plus interest equal to the payment and a non-negative balance; the last row shows 0 |
| `Calculations.ScheduleBalancesExact` | utils/calculations.ts:28 | at a positive rate on a non-negative loan, each row shows the unclamped balance, and it never exceeds the principal |
| `Calculations.PositiveRateMortgageDefined` | utils/calculations.ts:5-11 | a positive rate and a term of at least a year make the mortgage formulas defined |
| `Calculations.NetOperatingIncome` | utils/calculations.ts:42-47 | NOI is `(rent + other)·12·(1 - vacancy/100) - (management + maintenance)·12` |
| `Calculations.CalculateInvestment` | utils/calculations.ts:41-58 | cap rate times price and cash-on-cash times down payment are both `100·NOI`; monthly cash flow times 12 is NOI |
| `Calculations.InvestmentSigns` | utils/calculations.ts:49-56 | with positive price and down payment, the cap rate, the cash-on-cash return and the cash flow are positive exactly when NOI is |
| `Calculations.LeverageRaisesReturn` | utils/calculations.ts:49-50 | with a down payment in (0, price] and non-negative NOI, the cash-on-cash return is at least the cap rate |
| `Calculations.CalculateAffordability` | utils/calculations.ts:60-76 | the allowed payment is 28% of monthly income less debts; the 30-year payment on `maxHomePrice - downPayment` is exactly that payment |
| `Calculations.PositiveRateAffordabilityDefined` | utils/calculations.ts:65-70 | a positive rate makes the affordability formula defined |
| `Calculations.AffordabilityRoundTrip` | utils/calculations.ts:60-76 | feeding the most affordable home back into the mortgage calculator (30 years, no tax or insurance) gives back the allowed payment |
| `Calculations.MortgageRoundTrip` | utils/calculations.ts:68-73 | if the allowed payment equals a 30-year mortgage's payment (no tax or insurance), the affordability calculator returns that home price |
| `Calculations.MaxLoanSign` | utils/calculations.ts:63-73 | at a positive rate, the affordable price is at least the down payment exactly when the allowed payment is non-negative |
| `Calculations.AffordabilityMonotone` | utils/calculations.ts:62-73 | at a positive rate, a larger allowed payment never gives a lower affordable price |

## Left out

- `CalculateMortgage`, `MortgageResults`, `CalculateInvestment` and `CalculateAffordability`
  each require their divisors to be non-zero. For a zero divisor the source
  returns `NaN` or `Infinity` (for example at a 0% rate, or at a zero
  purchase price or down payment). The model does not represent those values.
- Floating point: rounding, `NaN` and `Infinity`. All arithmetic is exact
  `real`. So the final balance is exactly 0, where floating point leaves a
  small residue that the clamp at zero hides.
- Fractional loan terms: `CalculateMortgage` takes the loan term as a whole
  number of years (`nat`), so terms that are a whole number of months but
  not of years (2.5 years, 30 months) cannot be passed to it. For such a
  term the source raises to the whole exponent 30, runs 30 months and
  records months 12, 24 and 30, the last with `month` 2.5, through its
  "last month" condition. The `Amortization` functions and lemmas are stated
  for any whole number of months `n` and cover that case, including the
  last-month row. When twelve times the term is not whole, the source runs
  the whole months below it, raises to a fractional power and records no
  final row; that case is not modelled.
- `Math.pow` is modelled by `Annuity.Pow`, which handles whole exponents only.
- The investment record's `interestRate` field is read by no formula, in
  the model as in the source.
- `App.tsx` is not part of this model. It holds the React view: input forms,
  tabs, metric cards, charts, number formatting, the `parseFloat(...) || 0`
  input coercion and display-only derived values.
- The `CalculatorTab` enum of `types.ts` is not modelled, because only the
  view uses it.
- `services/geminiService.ts` is not part of this model. It is a network
  call to an external text-generation service with fixed fallback strings.
