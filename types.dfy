/**
 * The records of the loan book. Dates are whole day numbers (days since
 * 1970-01-01) and amounts are exact reals.
 */
module Types {
  import opened Wrappers

  datatype LoanStatus = Active | Paid | Overdue | Defaulted

  datatype Frequency = Weekly | Biweekly | Monthly | Quarterly | Yearly | Custom

  /** Informational instalment plan; nothing in the engine or the store reads it. */
  datatype PaymentSchedule = PaymentSchedule(
    frequency: Frequency,
    nextPaymentDate: int,
    installments: int,
    installmentAmount: real)

  datatype Borrower = Borrower(
    id: string,
    name: string,
    email: Option<string>,
    phone: Option<string>)

  /**
   * A loan. `interestRate` is a percentage per 30-day month, as the accrual
   * formula uses it; `borrowerName` is a copy of the borrower's name.
   */
  datatype Loan = Loan(
    id: string,
    borrowerId: string,
    borrowerName: string,
    principal: real,
    interestRate: real,
    issueDate: int,
    dueDate: int,
    status: LoanStatus,
    paymentSchedule: Option<PaymentSchedule>,
    notes: Option<string>)

  datatype Payment = Payment(
    id: string,
    loanId: string,
    date: int,
    amount: real,
    principal: real,
    interest: real,
    notes: Option<string>)

  datatype DashboardMetrics = DashboardMetrics(
    totalPrincipalOutstanding: real,
    totalInterestAccrued: real,
    totalOverdue: real,
    monthlyIncome: real)

  function BorrowerKey(b: Borrower): string { b.id }
  function LoanKey(l: Loan): string { l.id }
  function PaymentKey(p: Payment): string { p.id }
  function AmountOf(p: Payment): real { p.amount }
  function InterestOf(p: Payment): real { p.interest }
}
