# Loan book: accounting engine and store, in Dafny

This project models the core of a personal-loan dashboard. Two parts are modelled:

- **The loan-accounting engine** (`loan_calculations.dfy`, module `LoanCalculations`). It holds pure functions over a loan, a list of payments and a reference date:
  - the total due: the principal plus simple interest, accrued by 30-day months from the issue date up to the earlier of the reference date and the due date, and 0 for a loan marked paid;
  - the remaining balance: the total due less the payments of that loan, clamped at 0;
  - whether the loan is overdue, and by how many days;
  - the split of a payment: interest first, then principal;
  - the status the loan should have: `paid`, then `defaulted` (more than 90 days past due), then `overdue`, otherwise `active`.
- **The borrower/loan/payment store** (`loan_context.dfy`, module `LoanContext`, class `LoanStore`). It keeps three ordered collections as `seq` fields and offers add, update and delete for each entity.
  - Deleting a borrower is refused while any loan refers to it.
  - Deleting a loan that has payments needs confirmation, and then its payments are deleted too.
  - Renaming a borrower copies the new name into that borrower's loans.
  - After every payment change, the owning loan gets the status the engine derives.
  - Queries: look-ups by id, lists by borrower and by loan, the overdue list, the loans due soon, and the dashboard metrics, computed by a loop with invariants.

Supporting modules:

- `types.dfy` (`Types`): the records.
- `list_ops.dfy` (`ListOps`): the array operations the source uses (`filter`, `find`, `some`, `reduce`, `map` by id), stated once, with their facts.
- `calendar.dfy` (`Calendar`): the calendar month of a day number, proved against a direct count of days and leap days.
- `wrappers.dfy` (`Wrappers`): `Option`.

Modelling conventions:

- Dates are whole day numbers. A day difference is a subtraction, and "is after" is `>`.
- Amounts are exact `real`s.
- The reference date `now` is a parameter of every operation that reads the clock.
- The delete-confirmation dialog is a `confirmed` parameter. A refusal is a returned `false`.
- The interest rate is a **percentage per 30-day month**. This follows the accrual formula (`src/utils/loanCalculations.ts:10`, `:24`, `:27`) and the field's comment in `src/types/index.ts:18`. Some screen labels call it a yearly rate; the model does not follow those labels.

Three behaviours of the code are kept as written, although a loan book would usually do otherwise:

- Adding a loan keeps whatever status the caller supplies. Only the loan form sets `active`.
- A payment update refreshes only the loan named by the *new* payment's `loanId`. A payment moved to another loan leaves the old loan's status as it was.
- The status refresh runs only when a payment changes. A stored status can go stale as days pass. `GetOverdueLoans` and the metrics read the stored status.

## Model

| member | source | states |
|---|---|---|
| `LoanCalculations.SimpleInterest` | src/utils/loanCalculations.ts:10-27 | interest is non-negative for a non-negative principal, rate and day count, and 0 over 0 days |
| `LoanCalculations.SimpleInterestMonotone` | src/utils/loanCalculations.ts:21-27 | with non-negative principal and rate, more elapsed days never give less interest |
| `LoanCalculations.CalculateTotalDue` | src/utils/loanCalculations.ts:8-30 | 0 for a loan marked paid; for an unpaid loan with non-negative principal and rate, at least the principal once the accrual end is on or after the issue date; for an unpaid loan issued no later than its due date, exactly the principal on the issue date |
| `LoanCalculations.TotalDueFrozenAfterDue` | src/utils/loanCalculations.ts:19-21 | accrual stops at the due date: every reference date on or after it gives the same total |
| `LoanCalculations.TotalDueMonotone` | src/utils/loanCalculations.ts:19-29 | for an unpaid loan with non-negative principal and rate, the total due never decreases as the reference date advances |
| `LoanCalculations.PaymentsOf` | src/utils/loanCalculations.ts:41-42 | keeps exactly the payments whose `loanId` is the loan's id |
| `LoanCalculations.CalculateRemainingBalance` | src/utils/loanCalculations.ts:35-46 | never negative; 0 exactly when the loan's own payments cover the total due; otherwise the total due less those payments |
| `LoanCalculations.TotalPaidNonNegative` | src/utils/loanCalculations.ts:41-43 | the sum paid towards a loan is non-negative when each of its payment amounts is |
| `LoanCalculations.PaidLoanOwesNothing` | src/utils/loanCalculations.ts:14-45 | a loan marked paid has total due 0 and remaining balance 0 on every date (for non-negative payment amounts) |
| `LoanCalculations.RemainingBalanceOwnPaymentsOnly` | src/utils/loanCalculations.ts:41-43 | the balance computed from all payments equals the balance computed from the loan's own payments |
| `LoanCalculations.TotalPaidAppend` | src/utils/loanCalculations.ts:41-43 | a new payment adds its amount to what a loan has paid if it belongs to that loan, and nothing otherwise |
| `LoanCalculations.RemainingBalanceIgnoresOtherLoans` | src/utils/loanCalculations.ts:40-45 | a payment of another loan leaves the balance unchanged |
| `LoanCalculations.PaymentNeverIncreasesBalance` | src/utils/loanCalculations.ts:40-45 | a non-negative payment of this loan never raises the balance, and a positive one lowers a positive balance |
| `LoanCalculations.IsLoanOverdue` | src/utils/loanCalculations.ts:51-58 | overdue exactly when the loan is not marked paid and the date is past the due date |
| `LoanCalculations.GetDaysOverdue` | src/utils/loanCalculations.ts:63-70 | never negative; positive exactly when the loan is overdue, and then the number of days past the due date |
| `LoanCalculations.CalculatePaymentDistribution` | src/utils/loanCalculations.ts:75-98 | the two parts always add up to the payment; a payment up to the accrued interest is all interest; a larger one pays all the accrued interest and puts a positive rest on the principal |
| `LoanCalculations.DistributionNonNegative` | src/utils/loanCalculations.ts:80-97 | for an unpaid loan with non-negative principal and rate, issued no later than its due date and paid on or after issue, the accrued interest and both parts of a non-negative payment are non-negative |
| `LoanCalculations.PaidLoanDistribution` | src/utils/loanCalculations.ts:80-97 | for a loan marked paid with a positive principal and a non-negative payment, the accrued interest is minus the principal: the interest part is negative and the principal part exceeds the payment |
| `LoanCalculations.DetermineNewLoanStatus` | src/utils/loanCalculations.ts:103-130 | paid exactly when the balance is 0, even past the due date; otherwise defaulted exactly when more than 90 days past due (and not marked paid), overdue when past due otherwise, active up to the due date |
| `LoanCalculations.PaidStaysPaid` | src/utils/loanCalculations.ts:108-113 | a loan marked paid is derived as paid again on every date |
| `LoanCalculations.DefaultThreshold` | src/utils/loanCalculations.ts:118-126 | an unpaid balance is overdue 90 days after the due date and defaulted 91 days after it |
| `LoanCalculations.StatusFixpoint` | src/utils/loanCalculations.ts:103-130 | storing the derived status in the loan and deriving again gives the same status |
| `LoanCalculations.WorkedExample` | src/utils/loanCalculations.ts:75-91 | 5000 at 12% a month, 60 days after issue, owes 6200, and a payment of 500 then is all interest |
| `Calendar.YearMonthOf` | src/context/LoanContext.tsx:241-251 | the month of a day number lies between 1 and 12 |
| `Calendar.YearMonthOfDaysFromCivil` | src/context/LoanContext.tsx:241-251 | for every valid Gregorian date, the year and month computed from its day number are that date's year and month; the day number is counted directly as 365 days a year plus the leap days before it |
| `Calendar.DaysFromCivilSuccessor` | src/context/LoanContext.tsx:241-251 | the directly counted day numbers go up by one from each date to the next, across month and year ends, leap years included |
| `Calendar.DaysFromCivilEpoch` | src/context/LoanContext.tsx:241-251 | 1 January 1970 is day 0 |
| `Calendar.LeapYearsStep` | src/context/LoanContext.tsx:241-251 | the count of leap years before a year goes up by one after a leap year and by nothing after another year |
| `Calendar.EpochMonth` | src/context/LoanContext.tsx:241-251 | day 0 falls in January 1970 |
| `Calendar.DayBeforeEpochMonth` | src/context/LoanContext.tsx:241-251 | day -1 falls in December 1969 |
| `Calendar.LeapDayMonth` | src/context/LoanContext.tsx:241-251 | 29 February 2024 falls in February 2024 |
| `ListOps.Filter` | src/context/LoanContext.tsx:205-211 | keeps exactly the elements that pass the test, and no more of them than the input has |
| `ListOps.FilterCounts` | src/context/LoanContext.tsx:205-211 | each passing element is kept as many times as it occurs, and each failing one never |
| `ListOps.FilterConcat` | src/context/LoanContext.tsx:205-211 | filtering a concatenation concatenates the filtered parts, so the original order is kept |
| `ListOps.FilterSnoc` | src/context/LoanContext.tsx:205-211 | an appended element is kept at the end exactly when it passes the test |
| `ListOps.FilterIdempotent` | src/utils/loanCalculations.ts:41-42 | filtering twice with the same test is the same as filtering once |
| `ListOps.FilterAll` | src/context/LoanContext.tsx:100-116 | a filter that every element passes returns its input |
| `ListOps.SumSnoc` | src/utils/loanCalculations.ts:41-43 | the running sum of the amounts grows by the last element's amount |
| `ListOps.SumNonNegative` | src/utils/loanCalculations.ts:41-43 | a sum of non-negative amounts is non-negative |
| `ListOps.FindIndex` | src/context/LoanContext.tsx:130 | no index when no element passes the test; otherwise the first passing index |
| `ListOps.Find` | src/context/LoanContext.tsx:197-203 | nothing when no element passes the test; otherwise the element at the first passing index, as `FindIndex` states it |
| `ListOps.FilterKeepsKeysUnique` | src/context/LoanContext.tsx:77 | removing records keeps ids unique |
| `ListOps.ReplaceByKey` | src/context/LoanContext.tsx:90-96 | same length; every record with the new record's id is replaced by it, and the others are unchanged |
| `ListOps.ReplaceKeepsKeysUnique` | src/context/LoanContext.tsx:90-96 | replacing records by id keeps ids unique |
| `ListOps.MaxKeyLength` | src/data/mockData.ts:191 | bounds the length of every id in a collection |
| `ListOps.FreshKey` | src/data/mockData.ts:191 | a generated id differs from every id in the collection |
| `LoanContext.PaymentById` | src/context/LoanContext.tsx:171-175 | nothing exactly when no payment has the id; otherwise the first stored payment with that id |
| `LoanContext.WithoutBorrower` | src/context/LoanContext.tsx:77 | keeps exactly the borrowers with another id |
| `LoanContext.WithoutLoan` | src/context/LoanContext.tsx:116 | keeps exactly the loans with another id |
| `LoanContext.WithoutPayment` | src/context/LoanContext.tsx:177 | keeps exactly the payments with another id |
| `LoanContext.WithoutPaymentsOf` | src/context/LoanContext.tsx:113 | keeps exactly the payments of other loans |
| `LoanContext.RenameBorrower` | src/context/LoanContext.tsx:59-65 | exactly the loans of that borrower get the new borrower name; every other loan and every other field is unchanged |
| `LoanContext.PaymentsInMonth` | src/context/LoanContext.tsx:245-252 | keeps exactly the payments dated in the calendar month and year of the reference date |
| `LoanContext.OverdueWithinOutstanding` | src/context/LoanContext.tsx:222-239 | the overdue total is at least 0 and at most the outstanding total |
| `LoanContext.PaidLoansContributeNothing` | src/context/LoanContext.tsx:222-223 | the totals over only the loans not marked paid equal the totals over all loans |
| `LoanContext.MonthlyIncomeAppend` | src/context/LoanContext.tsx:241-253 | a payment raises the monthly income by its amount exactly when it is dated in the current month and year |
| `LoanContext.LoanStore.constructor` | src/context/LoanContext.tsx:37-39 | the store starts from the seed collections, with unique ids |
| `LoanContext.LoanStore.AddBorrower` | src/context/LoanContext.tsx:42-49 | appends one borrower with a fresh id and every other field copied; the earlier borrowers and their order are unchanged; if every loan named a stored borrower and every payment a stored loan, that still holds |
| `LoanContext.LoanStore.UpdateBorrower` | src/context/LoanContext.tsx:51-66 | replaces only the borrower with that id, and copies the new name into exactly that borrower's loans; if every loan named a stored borrower and every payment a stored loan, that still holds |
| `LoanContext.LoanStore.DeleteBorrower` | src/context/LoanContext.tsx:68-78 | refused, with nothing changed, exactly when some loan refers to the borrower; otherwise removes only the borrowers with that id; if every loan named a stored borrower and every payment a stored loan, that still holds |
| `LoanContext.LoanStore.AddLoan` | src/context/LoanContext.tsx:81-88 | appends one loan with a fresh id and every other field, the status included, copied; if every loan named a stored borrower and every payment a stored loan, and the new loan names a stored borrower, that still holds |
| `LoanContext.LoanStore.UpdateLoan` | src/context/LoanContext.tsx:90-96 | replaces only the loan with that id, taking its status as given; if every loan named a stored borrower and every payment a stored loan, and the updated loan names a stored borrower, that still holds |
| `LoanContext.LoanStore.DeleteLoan` | src/context/LoanContext.tsx:98-117 | with payments and no confirmation nothing changes; otherwise the loan and exactly its payments are removed, and other loans and payments stay in order; if every stored payment's parts added up to its amount, they still do; if every loan named a stored borrower and every payment a stored loan, that still holds |
| `LoanContext.LoanStore.RefreshLoanStatus` | src/context/LoanContext.tsx:129-142 | the loan with that id gets the status derived from the current payments; every other loan, and every other field, is unchanged; an unknown id changes nothing; if every loan named a stored borrower and every payment a stored loan, that still holds |
| `LoanContext.LoanStore.AddPayment` | src/context/LoanContext.tsx:120-145 | appends one payment with a fresh id; adds its amount to what its loan has paid and nothing to any other loan; refreshes that loan's status and leaves the other loans unchanged; if every stored payment's parts and the new one's added up to the amount, all of them still do; if every loan named a stored borrower and every payment a stored loan, and the new payment names a stored loan, that still holds |
| `LoanContext.LoanStore.UpdatePayment` | src/context/LoanContext.tsx:147-168 | replaces the payment with that id and refreshes only the loan the new payment names; if every stored payment's parts and the new one's added up to the amount, all of them still do; if every loan named a stored borrower and every payment a stored loan, and the updated payment names a stored loan, that still holds |
| `LoanContext.LoanStore.DeletePayment` | src/context/LoanContext.tsx:170-194 | an unknown id changes nothing; otherwise removes that payment and refreshes the loan it belonged to; if every stored payment's parts added up to its amount, they still do; if every loan named a stored borrower and every payment a stored loan, that still holds |
| `LoanContext.LoanStore.GetBorrowerById` | src/context/LoanContext.tsx:197-199 | nothing exactly when no borrower has the id; otherwise the first stored borrower with it |
| `LoanContext.LoanStore.GetLoanById` | src/context/LoanContext.tsx:201-203 | nothing exactly when no loan has the id; otherwise the first stored loan with it |
| `LoanContext.LoanStore.GetLoansByBorrowerId` | src/context/LoanContext.tsx:205-207 | exactly the borrower's loans, each as often as stored |
| `LoanContext.LoanStore.GetPaymentsByLoanId` | src/context/LoanContext.tsx:209-211 | exactly the loan's payments, each as often as stored |
| `LoanContext.LoanStore.GetOverdueLoans` | src/context/LoanContext.tsx:264-268 | exactly the loans recorded as overdue or defaulted |
| `LoanContext.LoanStore.GetUpcomingDueLoans` | src/context/LoanContext.tsx:271-284 | exactly the loans not marked paid whose due date lies from the reference date to that many days later |
| `LoanContext.LoanStore.CalculateLoanMetrics` | src/context/LoanContext.tsx:214-261 | the loop's totals are the balances and interest of the loans not marked paid, the balances of those recorded overdue or defaulted, and the amounts paid in the current month; the overdue total is between 0 and the outstanding total |

## Left out

- The screens, routing, charts, the CSV export and the settings page. They are presentation and browser I/O. The status update repeated inside the loan-details screen is left out too.
- The instalment-amount and next-payment-date helpers of the loan form. They are float formatting and calendar-month arithmetic inside component state.
- Bulk import is not part of this model. No import code appears in the modelled files.
- React state and closure mechanics. Each command reads and writes the three collections in one atomic step.
- Floating-point rounding. Amounts are exact reals.
- Time of day and time zones. Dates are whole days, and the source's `Date` comparisons are read as day comparisons. Two consequences follow:
  - In the source, the current instant is already after the due date's midnight during the due day itself, so that comparison can flip a day early. Likewise `getUpcomingDueLoans` drops a loan due today once the due date's UTC midnight has passed (the date string is read as UTC midnight), which west of UTC is already the evening before the due day.
  - The monthly-income filter reads the payment date in local time after parsing it as UTC.
- `ListOps.FreshKey`: stands for a random UUID. It returns a deterministic id longer than every stored id. The store's contracts promise only freshness.
- `LoanCalculations.PaidLoanOwesNothing`: assumes the loan's payment amounts are non-negative. The store does not check amounts (the payment form does). A negative amount on a loan marked paid gives a positive balance, and that loan is then derived as overdue or active.
- `LoanCalculations.PaidStaysPaid`: assumes non-negative payment amounts, for the same reason.
- `LoanCalculations.StatusFixpoint`: assumes non-negative payment amounts, for the same reason.
- `LoanContext.LoanStore.RefreshLoanStatus`: its "status is current" clause (`StatusCurrent`) is claimed only for loans whose payment amounts are non-negative. The exact new loan record is stated for every input.
- `LoanContext.LoanStore.AddPayment` and `LoanContext.LoanStore.UpdatePayment`: they keep "principal plus interest equals amount" for every stored payment only when the incoming payment satisfies it. The store does not check this, and neither does the source's store; only the payment form builds consistent parts.
- `LoanContext.LoanStore.AddLoan`, `LoanContext.LoanStore.UpdateLoan`, `LoanContext.LoanStore.AddPayment` and `LoanContext.LoanStore.UpdatePayment`: they keep every reference intact (each loan names a stored borrower, each payment a stored loan) only when the record they add or replace names a stored borrower or loan. Like the source, the store does not check the id it is given. Only the deletes guard references: they refuse to orphan loans and cascade to payments.
- `Calendar.YearMonthOf`: it is proved right on the day number of every valid date. That every integer is such a day number is not proved separately; `DaysFromCivilSuccessor` and `DaysFromCivilEpoch` show that the day numbers run on without gaps.
- The `PaymentSchedule` of a loan is kept as data. Nothing in the core reads it.
