/**
 * The loan-accounting engine: simple interest accrued by 30-day months up to
 * the due date, the balance left after payments, overdue days, the split of a
 * payment between interest and principal, and the status a loan should have.
 * Every function takes the reference date `currentDate` explicitly.
 */
module LoanCalculations {
  import opened Types
  import opened ListOps

  /** Days in the fixed month the accrual formula divides by. */
  const DaysPerMonth: real := 30.0

  /** Days past the due date after which an unpaid loan is in default. */
  const DefaultAfterDays: int := 90

  /** Last day interest accrues to: the reference date, but never past the due date. */
  function AccrualEnd(loan: Loan, currentDate: int): int
  {
    if currentDate < loan.dueDate then currentDate else loan.dueDate
  }

  /** Simple interest on `principal` at `monthlyRate` percent over `days` days of 30-day months. */
  function SimpleInterest(principal: real, monthlyRate: real, days: int): (interest: real)
    ensures principal >= 0.0 && monthlyRate >= 0.0 && days >= 0 ==> interest >= 0.0
    ensures days == 0 ==> interest == 0.0
  {
    var interestRate := monthlyRate / 100.0;
    var monthsElapsed := days as real / DaysPerMonth;
    NonNegativeProduct(principal, interestRate);
    NonNegativeProduct(principal * interestRate, monthsElapsed);
    principal * interestRate * monthsElapsed
  }

  /** Principal plus simple interest from the issue date to `AccrualEnd`; 0 for a paid loan. */
  function CalculateTotalDue(loan: Loan, currentDate: int): (r: real)
    ensures loan.status == Paid ==> r == 0.0
    ensures (loan.status != Paid && loan.principal >= 0.0 && loan.interestRate >= 0.0
             && loan.issueDate <= AccrualEnd(loan, currentDate)) ==> r >= loan.principal
    ensures (loan.status != Paid && loan.issueDate <= loan.dueDate && currentDate == loan.issueDate)
              ==> r == loan.principal
  {
    if loan.status == Paid then 0.0
    else loan.principal + SimpleInterest(loan.principal, loan.interestRate, AccrualEnd(loan, currentDate) - loan.issueDate)
  }

  lemma NonNegativeProduct(a: real, b: real)
    ensures a >= 0.0 && b >= 0.0 ==> a * b >= 0.0
  {
  }

  /** The payments of `payments` that belong to the loan `loanId`, in order. */
  function PaymentsOf(payments: seq<Payment>, loanId: string): (r: seq<Payment>)
    ensures forall p :: p in r <==> p in payments && p.loanId == loanId
  {
    Filter(payments, (p: Payment) => p.loanId == loanId)
  }

  /** Sum of the amounts of the payments that belong to `loan`. */
  function TotalPaid(loan: Loan, payments: seq<Payment>): real
  {
    Sum(PaymentsOf(payments, loan.id), AmountOf)
  }

  /** Total due less what was paid towards this loan, clamped at 0. */
  function CalculateRemainingBalance(loan: Loan, payments: seq<Payment>, currentDate: int): (r: real)
    ensures r >= 0.0
    ensures r >= CalculateTotalDue(loan, currentDate) - TotalPaid(loan, payments)
    ensures r == 0.0 <==> CalculateTotalDue(loan, currentDate) <= TotalPaid(loan, payments)
    ensures r > 0.0 ==> r == CalculateTotalDue(loan, currentDate) - TotalPaid(loan, payments)
  {
    var totalDue := CalculateTotalDue(loan, currentDate);
    var totalPaid := TotalPaid(loan, payments);
    if 0.0 < totalDue - totalPaid then totalDue - totalPaid else 0.0
  }

  /** A loan is overdue when it is not paid and the reference date is after its due date. */
  function IsLoanOverdue(loan: Loan, currentDate: int): (overdue: bool)
    ensures overdue ==> loan.status != Paid && currentDate - loan.dueDate >= 1
    ensures loan.status != Paid && currentDate > loan.dueDate ==> overdue
  {
    if loan.status == Paid then false else currentDate > loan.dueDate
  }

  /** Whole days past the due date for an overdue loan, 0 for any other. */
  function GetDaysOverdue(loan: Loan, currentDate: int): (days: int)
    ensures days >= 0
    ensures days > 0 <==> loan.status != Paid && currentDate > loan.dueDate
    ensures days > 0 ==> days == currentDate - loan.dueDate
  {
    if !IsLoanOverdue(loan, currentDate) then 0 else currentDate - loan.dueDate
  }

  /** How a payment is split between interest and principal. */
  datatype Distribution = Distribution(principal: real, interest: real)

  /** Interest accrued by `paymentDate`: total due less the principal. */
  function InterestAccrued(loan: Loan, paymentDate: int): real
  {
    CalculateTotalDue(loan, paymentDate) - loan.principal
  }

  /** Interest is paid first; only what exceeds the accrued interest reduces the principal. */
  function CalculatePaymentDistribution(loan: Loan, paymentAmount: real, paymentDate: int): (d: Distribution)
    ensures d.principal + d.interest == paymentAmount
    ensures paymentAmount <= InterestAccrued(loan, paymentDate) ==> d.principal == 0.0 && d.interest == paymentAmount
    ensures paymentAmount > InterestAccrued(loan, paymentDate) ==>
              d.interest == InterestAccrued(loan, paymentDate) && d.principal > 0.0
  {
    var interestAccrued := CalculateTotalDue(loan, paymentDate) - loan.principal;
    if paymentAmount <= interestAccrued then Distribution(0.0, paymentAmount)
    else Distribution(paymentAmount - interestAccrued, interestAccrued)
  }

  /**
   * The status a loan should have: paid when nothing is left to pay, otherwise
   * defaulted more than 90 days after the due date, overdue after it, and
   * active up to it. Days overdue are counted as 0 for a loan whose recorded
   * status is paid, which can only matter when its payments sum below zero.
   */
  function DetermineNewLoanStatus(loan: Loan, payments: seq<Payment>, currentDate: int): (s: LoanStatus)
    ensures s == Paid <==> CalculateRemainingBalance(loan, payments, currentDate) == 0.0
    ensures s == Defaulted <==>
              CalculateRemainingBalance(loan, payments, currentDate) > 0.0 && loan.status != Paid
              && currentDate - loan.dueDate > DefaultAfterDays
    ensures s == Overdue <==>
              CalculateRemainingBalance(loan, payments, currentDate) > 0.0 && currentDate > loan.dueDate
              && (loan.status == Paid || currentDate - loan.dueDate <= DefaultAfterDays)
    ensures s == Active <==>
              CalculateRemainingBalance(loan, payments, currentDate) > 0.0 && currentDate <= loan.dueDate
  {
    var remainingBalance := CalculateRemainingBalance(loan, payments, currentDate);
    if remainingBalance <= 0.0 then Paid
    else if currentDate > loan.dueDate then
      if GetDaysOverdue(loan, currentDate) > DefaultAfterDays then Defaulted else Overdue
    else Active
  }

  // ----- Properties of the engine -----

  /** The amounts paid towards `loan` are all non-negative. */
  predicate OwnPaymentsNonNegative(loan: Loan, payments: seq<Payment>)
  {
    forall p :: p in payments && p.loanId == loan.id ==> p.amount >= 0.0
  }

  lemma TotalPaidNonNegative(loan: Loan, payments: seq<Payment>)
    requires OwnPaymentsNonNegative(loan, payments)
    ensures TotalPaid(loan, payments) >= 0.0
  {
    var own := PaymentsOf(payments, loan.id);
    forall i | 0 <= i < |own| ensures AmountOf(own[i]) >= 0.0 {
      assert own[i] in own;
    }
    SumNonNegative(own, AmountOf);
  }

  /** A paid loan owes nothing, whatever the date and whatever non-negative payments exist. */
  lemma PaidLoanOwesNothing(loan: Loan, payments: seq<Payment>, currentDate: int)
    requires loan.status == Paid
    requires OwnPaymentsNonNegative(loan, payments)
    ensures CalculateTotalDue(loan, currentDate) == 0.0
    ensures CalculateRemainingBalance(loan, payments, currentDate) == 0.0
  {
    TotalPaidNonNegative(loan, payments);
  }

  /** Accrual stops at the due date: every later reference date gives the same total. */
  lemma TotalDueFrozenAfterDue(loan: Loan, d1: int, d2: int)
    requires loan.dueDate <= d1 && loan.dueDate <= d2
    ensures CalculateTotalDue(loan, d1) == CalculateTotalDue(loan, d2)
  {
  }

  lemma MulMonotone(c: real, a: real, b: real)
    requires c >= 0.0 && a <= b
    ensures c * a <= c * b
  {
    NonNegativeProduct(c, b - a);
    assert c * (b - a) == c * b - c * a;
  }

  /** Interest grows with the number of days when principal and rate are non-negative. */
  lemma SimpleInterestMonotone(principal: real, monthlyRate: real, days1: int, days2: int)
    requires principal >= 0.0 && monthlyRate >= 0.0 && days1 <= days2
    ensures SimpleInterest(principal, monthlyRate, days1) <= SimpleInterest(principal, monthlyRate, days2)
  {
    var c := principal * (monthlyRate / 100.0);
    NonNegativeProduct(principal, monthlyRate / 100.0);
    var m1, m2 := days1 as real / DaysPerMonth, days2 as real / DaysPerMonth;
    MulMonotone(c, m1, m2);
    assert SimpleInterest(principal, monthlyRate, days1) == principal * (monthlyRate / 100.0) * m1;
    assert c * m1 <= c * m2;
    assert principal * (monthlyRate / 100.0) * m1 == c * m1;
  }

  /** With a non-negative principal and rate the total due never decreases as time passes. */
  lemma TotalDueMonotone(loan: Loan, d1: int, d2: int)
    requires loan.status != Paid && loan.principal >= 0.0 && loan.interestRate >= 0.0
    requires d1 <= d2
    ensures CalculateTotalDue(loan, d1) <= CalculateTotalDue(loan, d2)
  {
    SimpleInterestMonotone(loan.principal, loan.interestRate,
      AccrualEnd(loan, d1) - loan.issueDate, AccrualEnd(loan, d2) - loan.issueDate);
  }

  /** The balance depends only on the loan's own payments. */
  lemma {:induction false} RemainingBalanceOwnPaymentsOnly(loan: Loan, payments: seq<Payment>, currentDate: int)
    ensures CalculateRemainingBalance(loan, payments, currentDate)
         == CalculateRemainingBalance(loan, PaymentsOf(payments, loan.id), currentDate)
  {
    FilterIdempotent(payments, (p: Payment) => p.loanId == loan.id);
  }

  /** Recording a payment of `loan` adds its amount to what was paid; one of another loan adds nothing. */
  lemma TotalPaidAppend(loan: Loan, payments: seq<Payment>, payment: Payment)
    ensures TotalPaid(loan, payments + [payment])
         == TotalPaid(loan, payments) + (if payment.loanId == loan.id then payment.amount else 0.0)
  {
    FilterSnoc(payments, payment, (p: Payment) => p.loanId == loan.id);
    SumSnoc(PaymentsOf(payments, loan.id), payment, AmountOf);
  }

  /** A payment of another loan leaves the balance as it was. */
  lemma RemainingBalanceIgnoresOtherLoans(loan: Loan, payments: seq<Payment>, payment: Payment, currentDate: int)
    requires payment.loanId != loan.id
    ensures CalculateRemainingBalance(loan, payments + [payment], currentDate)
         == CalculateRemainingBalance(loan, payments, currentDate)
  {
    TotalPaidAppend(loan, payments, payment);
  }

  /** A non-negative payment of this loan never increases its balance, and lowers a positive one. */
  lemma PaymentNeverIncreasesBalance(loan: Loan, payments: seq<Payment>, payment: Payment, currentDate: int)
    requires payment.loanId == loan.id && payment.amount >= 0.0
    ensures CalculateRemainingBalance(loan, payments + [payment], currentDate)
         <= CalculateRemainingBalance(loan, payments, currentDate)
    ensures (payment.amount > 0.0 && CalculateRemainingBalance(loan, payments, currentDate) > 0.0) ==>
              (CalculateRemainingBalance(loan, payments + [payment], currentDate)
               < CalculateRemainingBalance(loan, payments, currentDate))
  {
    TotalPaidAppend(loan, payments, payment);
  }

  /** Interest accrued by a date on or after the issue date is non-negative, so no part of a payment is. */
  lemma DistributionNonNegative(loan: Loan, paymentAmount: real, paymentDate: int)
    requires loan.status != Paid && loan.principal >= 0.0 && loan.interestRate >= 0.0
    requires loan.issueDate <= paymentDate && loan.issueDate <= loan.dueDate
    requires paymentAmount >= 0.0
    ensures InterestAccrued(loan, paymentDate) >= 0.0
    ensures CalculatePaymentDistribution(loan, paymentAmount, paymentDate).principal >= 0.0
    ensures CalculatePaymentDistribution(loan, paymentAmount, paymentDate).interest >= 0.0
  {
  }

  /**
   * For a loan already marked paid the total due is 0, so the accrued interest is
   * minus the principal and a positive payment is split into a negative interest
   * part and a principal part larger than the payment.
   */
  lemma PaidLoanDistribution(loan: Loan, paymentAmount: real, paymentDate: int)
    requires loan.status == Paid && loan.principal > 0.0 && paymentAmount >= 0.0
    ensures InterestAccrued(loan, paymentDate) == -loan.principal
    ensures CalculatePaymentDistribution(loan, paymentAmount, paymentDate)
         == Distribution(paymentAmount + loan.principal, -loan.principal)
  {
  }

  /** A loan already marked paid is derived as paid again, whatever the date. */
  lemma PaidStaysPaid(loan: Loan, payments: seq<Payment>, currentDate: int)
    requires loan.status == Paid
    requires OwnPaymentsNonNegative(loan, payments)
    ensures DetermineNewLoanStatus(loan, payments, currentDate) == Paid
  {
    PaidLoanOwesNothing(loan, payments, currentDate);
  }

  /** An unpaid balance is overdue 90 days after the due date and in default from day 91. */
  lemma DefaultThreshold(loan: Loan, payments: seq<Payment>)
    requires loan.status != Paid
    requires CalculateRemainingBalance(loan, payments, loan.dueDate) > 0.0
    ensures DetermineNewLoanStatus(loan, payments, loan.dueDate + 90) == Overdue
    ensures DetermineNewLoanStatus(loan, payments, loan.dueDate + 91) == Defaulted
  {
    TotalDueFrozenAfterDue(loan, loan.dueDate, loan.dueDate + 90);
    TotalDueFrozenAfterDue(loan, loan.dueDate, loan.dueDate + 91);
  }

  /**
   * Writing the derived status into the loan and deriving again gives the same
   * status, so a loan the store has just refreshed agrees with its payments.
   */
  lemma StatusFixpoint(loan: Loan, payments: seq<Payment>, currentDate: int)
    requires OwnPaymentsNonNegative(loan, payments)
    ensures var s := DetermineNewLoanStatus(loan, payments, currentDate);
            DetermineNewLoanStatus(loan.(status := s), payments, currentDate) == s
  {
    var s := DetermineNewLoanStatus(loan, payments, currentDate);
    var refreshed := loan.(status := s);
    assert refreshed.id == loan.id && refreshed.dueDate == loan.dueDate;
    assert OwnPaymentsNonNegative(refreshed, payments);
    if s == Paid {
      PaidStaysPaid(refreshed, payments, currentDate);
    } else {
      if loan.status == Paid {
        PaidStaysPaid(loan, payments, currentDate);
      }
      assert loan.status != Paid && refreshed.status != Paid;
      assert CalculateTotalDue(refreshed, currentDate) == CalculateTotalDue(loan, currentDate);
      assert TotalPaid(refreshed, payments) == TotalPaid(loan, payments);
      assert CalculateRemainingBalance(refreshed, payments, currentDate)
          == CalculateRemainingBalance(loan, payments, currentDate);
    }
  }

  /** An example: 5000 at 12% a month, 60 days after issue, owes 6200; a payment of 500 is all interest. */
  lemma WorkedExample(issue: int)
    ensures var loan := Loan("1", "b", "B", 5000.0, 12.0, issue, issue + 300, Active,
                             Wrappers.None, Wrappers.None);
            CalculateTotalDue(loan, issue + 60) == 6200.0
            && CalculatePaymentDistribution(loan, 500.0, issue + 60) == Distribution(0.0, 500.0)
  {
  }
}
