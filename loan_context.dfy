/**
 * The in-memory store of borrowers, loans and payments. Its commands replace
 * the three collections wholesale, refuse to orphan loans, cascade a confirmed
 * loan deletion to its payments and, after every payment change, write the
 * status the accounting engine derives into the loan concerned.
 */
module LoanContext {
  import opened Wrappers
  import opened Types
  import opened ListOps
  import opened Calendar
  import opened LoanCalculations

  // ----- Selections the commands and queries share -----

  /** The first payment with id `id`, if any. */
  function PaymentById(payments: seq<Payment>, id: string): (r: Option<Payment>)
    ensures r.None? <==> forall i :: 0 <= i < |payments| ==> payments[i].id != id
    ensures r.Some? ==> r.value in payments && r.value.id == id
    ensures r.Some? ==> exists k :: 0 <= k < |payments| && payments[k] == r.value
                                    && forall j :: 0 <= j < k ==> payments[j].id != id
  {
    Find(payments, (p: Payment) => p.id == id)
  }

  /** Whether some stored borrower has the id `id`. */
  predicate BorrowerStored(borrowers: seq<Borrower>, id: string)
  {
    exists b :: b in borrowers && b.id == id
  }

  /** Whether some stored loan has the id `id`. */
  predicate LoanStored(loans: seq<Loan>, id: string)
  {
    exists l :: l in loans && l.id == id
  }

  /** Whether any payment belongs to the loan `loanId`. */
  predicate HasPayments(payments: seq<Payment>, loanId: string)
  {
    Any(payments, (p: Payment) => p.loanId == loanId)
  }

  /** Whether any loan belongs to the borrower `borrowerId`. */
  predicate HasLoans(loans: seq<Loan>, borrowerId: string)
  {
    Any(loans, (l: Loan) => l.borrowerId == borrowerId)
  }

  function WithoutBorrower(borrowers: seq<Borrower>, id: string): (r: seq<Borrower>)
    ensures forall b :: b in r <==> b in borrowers && b.id != id
  {
    Filter(borrowers, (b: Borrower) => b.id != id)
  }

  function WithoutLoan(loans: seq<Loan>, id: string): (r: seq<Loan>)
    ensures forall l :: l in r <==> l in loans && l.id != id
  {
    Filter(loans, (l: Loan) => l.id != id)
  }

  function WithoutPayment(payments: seq<Payment>, id: string): (r: seq<Payment>)
    ensures forall p :: p in r <==> p in payments && p.id != id
  {
    Filter(payments, (p: Payment) => p.id != id)
  }

  function WithoutPaymentsOf(payments: seq<Payment>, loanId: string): (r: seq<Payment>)
    ensures forall p :: p in r <==> p in payments && p.loanId != loanId
  {
    Filter(payments, (p: Payment) => p.loanId != loanId)
  }

  /** Every loan of the borrower `borrowerId` carries `name` as its borrower name; the others are unchanged. */
  function RenameBorrower(loans: seq<Loan>, borrowerId: string, name: string): (r: seq<Loan>)
    ensures |r| == |loans|
    ensures forall i :: 0 <= i < |loans| ==>
              r[i] == if loans[i].borrowerId == borrowerId then loans[i].(borrowerName := name) else loans[i]
  {
    seq(|loans|, i requires 0 <= i < |loans| =>
      if loans[i].borrowerId == borrowerId then loans[i].(borrowerName := name) else loans[i])
  }

  /** Every payment's principal and interest parts add up to its amount. */
  predicate SplitsAddUp(payments: seq<Payment>)
  {
    forall p :: p in payments ==> p.principal + p.interest == p.amount
  }

  /** `loan` with the status the engine derives from `payments` on `now`. */
  function Refreshed(loan: Loan, payments: seq<Payment>, now: int): Loan
  {
    loan.(status := DetermineNewLoanStatus(loan, payments, now))
  }

  // ----- Dashboard figures -----

  /** The three running totals of the metrics loop. */
  datatype Totals = Totals(outstanding: real, interestPaid: real, overdue: real)

  /** What one loan adds to the totals: nothing when it is marked paid. */
  function LoanContribution(loan: Loan, payments: seq<Payment>, now: int): Totals
  {
    if loan.status == Paid then Totals(0.0, 0.0, 0.0)
    else
      var loanPayments := PaymentsOf(payments, loan.id);
      var remainingBalance := CalculateRemainingBalance(loan, loanPayments, now);
      Totals(remainingBalance,
             Sum(loanPayments, InterestOf),
             if loan.status == Overdue || loan.status == Defaulted then remainingBalance else 0.0)
  }

  /** The totals over `loans`, accumulated in order. */
  function LoanTotals(loans: seq<Loan>, payments: seq<Payment>, now: int): Totals
  {
    if loans == [] then Totals(0.0, 0.0, 0.0)
    else
      var t := LoanTotals(loans[..|loans| - 1], payments, now);
      var c := LoanContribution(loans[|loans| - 1], payments, now);
      Totals(t.outstanding + c.outstanding, t.interestPaid + c.interestPaid, t.overdue + c.overdue)
  }

  /** The payments dated in the calendar month and year of `now`. */
  function PaymentsInMonth(payments: seq<Payment>, now: int): (r: seq<Payment>)
    ensures forall p :: p in r <==> p in payments && YearMonthOf(p.date) == YearMonthOf(now)
  {
    Filter(payments, (p: Payment) => YearMonthOf(p.date) == YearMonthOf(now))
  }

  function MonthlyIncome(payments: seq<Payment>, now: int): real
  {
    Sum(PaymentsInMonth(payments, now), AmountOf)
  }

  predicate IsUnpaid(loan: Loan) { loan.status != Paid }

  /** The overdue total is part of the outstanding total, and neither is negative. */
  lemma {:induction false} OverdueWithinOutstanding(loans: seq<Loan>, payments: seq<Payment>, now: int)
    ensures 0.0 <= LoanTotals(loans, payments, now).overdue <= LoanTotals(loans, payments, now).outstanding
  {
    if loans != [] {
      OverdueWithinOutstanding(loans[..|loans| - 1], payments, now);
    }
  }

  lemma LoanTotalsSnoc(loans: seq<Loan>, loan: Loan, payments: seq<Payment>, now: int)
    ensures var t, c := LoanTotals(loans, payments, now), LoanContribution(loan, payments, now);
            LoanTotals(loans + [loan], payments, now)
            == Totals(t.outstanding + c.outstanding, t.interestPaid + c.interestPaid, t.overdue + c.overdue)
  {
    assert (loans + [loan])[..|loans|] == loans;
  }

  /** Loans marked paid contribute nothing: the totals over the unpaid loans alone are the same. */
  lemma {:induction false} PaidLoansContributeNothing(loans: seq<Loan>, payments: seq<Payment>, now: int)
    ensures LoanTotals(Filter(loans, IsUnpaid), payments, now) == LoanTotals(loans, payments, now)
  {
    if loans != [] {
      var init, last := loans[..|loans| - 1], loans[|loans| - 1];
      assert loans == init + [last];
      PaidLoansContributeNothing(init, payments, now);
      FilterSnoc(init, last, IsUnpaid);
      LoanTotalsSnoc(init, last, payments, now);
      if IsUnpaid(last) {
        LoanTotalsSnoc(Filter(init, IsUnpaid), last, payments, now);
      }
    }
  }

  /** A payment adds its amount to the monthly income exactly when it is dated in the month of `now`. */
  lemma MonthlyIncomeAppend(payments: seq<Payment>, payment: Payment, now: int)
    ensures MonthlyIncome(payments + [payment], now)
         == MonthlyIncome(payments, now) + (if YearMonthOf(payment.date) == YearMonthOf(now) then payment.amount else 0.0)
  {
    FilterSnoc(payments, payment, (p: Payment) => YearMonthOf(p.date) == YearMonthOf(now));
    SumSnoc(PaymentsInMonth(payments, now), payment, AmountOf);
  }

  // ----- The store -----

  class LoanStore {
    var borrowers: seq<Borrower>
    var loans: seq<Loan>
    var payments: seq<Payment>

    /** Ids are unique within each collection. */
    ghost predicate Valid()
      reads this
    {
      UniqueKeys(borrowers, BorrowerKey) && UniqueKeys(loans, LoanKey) && UniqueKeys(payments, PaymentKey)
    }

    /** Every loan names a stored borrower, and every payment names a stored loan. */
    ghost predicate RefsIntact()
      reads this
    {
      (forall l :: l in loans ==> BorrowerStored(borrowers, l.borrowerId))
      && (forall p :: p in payments ==> LoanStored(loans, p.loanId))
    }

    /**
     * The recorded status of every loan with id `loanId` is the one the engine
     * derives from the current payments (for loans whose payments are non-negative).
     */
    ghost predicate StatusCurrent(loanId: string, now: int)
      reads this
    {
      forall i :: 0 <= i < |loans| && loans[i].id == loanId && OwnPaymentsNonNegative(loans[i], payments) ==>
        loans[i].status == DetermineNewLoanStatus(loans[i], payments, now)
    }

    /** A store seeded with initial records. */
    constructor(initialBorrowers: seq<Borrower>, initialLoans: seq<Loan>, initialPayments: seq<Payment>)
      requires UniqueKeys(initialBorrowers, BorrowerKey)
      requires UniqueKeys(initialLoans, LoanKey)
      requires UniqueKeys(initialPayments, PaymentKey)
      ensures Valid()
      ensures borrowers == initialBorrowers && loans == initialLoans && payments == initialPayments
    {
      borrowers := initialBorrowers;
      loans := initialLoans;
      payments := initialPayments;
    }

    // ----- Borrowers -----

    /** Appends a copy of `data` under a fresh id and returns it. */
    method AddBorrower(data: Borrower) returns (borrower: Borrower)
      requires Valid()
      modifies this`borrowers
      ensures Valid()
      ensures old(RefsIntact()) ==> RefsIntact()
      ensures borrower == data.(id := borrower.id)
      ensures forall b :: b in old(borrowers) ==> b.id != borrower.id
      ensures borrowers == old(borrowers) + [borrower]
    {
      borrower := data.(id := FreshKey(borrowers, BorrowerKey));
      borrowers := borrowers + [borrower];
    }

    /** Replaces the borrower with the same id and copies the new name into that borrower's loans. */
    method UpdateBorrower(updated: Borrower)
      requires Valid()
      modifies this`borrowers, this`loans
      ensures Valid()
      ensures old(RefsIntact()) ==> RefsIntact()
      ensures borrowers == ReplaceByKey(old(borrowers), BorrowerKey, updated)
      ensures loans == RenameBorrower(old(loans), updated.id, updated.name)
    {
      ReplaceKeepsKeysUnique(borrowers, BorrowerKey, updated);
      borrowers := ReplaceByKey(borrowers, BorrowerKey, updated);
      var renamed := RenameBorrower(loans, updated.id, updated.name);
      assert forall i :: 0 <= i < |loans| ==> renamed[i].id == loans[i].id;
      loans := renamed;
    }

    /** Removes the borrower `id`, unless some loan still refers to it. */
    method DeleteBorrower(id: string) returns (deleted: bool)
      requires Valid()
      modifies this`borrowers
      ensures Valid()
      ensures old(RefsIntact()) ==> RefsIntact()
      ensures deleted <==> forall i :: 0 <= i < |loans| ==> loans[i].borrowerId != id
      ensures deleted ==> borrowers == WithoutBorrower(old(borrowers), id)
      ensures !deleted ==> borrowers == old(borrowers)
    {
      if HasLoans(loans, id) {
        return false;
      }
      FilterKeepsKeysUnique(borrowers, BorrowerKey, (b: Borrower) => b.id != id);
      borrowers := WithoutBorrower(borrowers, id);
      deleted := true;
    }

    // ----- Loans -----

    /** Appends a copy of `data` under a fresh id, keeping the status it was given. */
    method AddLoan(data: Loan) returns (loan: Loan)
      requires Valid()
      modifies this`loans
      ensures Valid()
      ensures old(RefsIntact()) && BorrowerStored(old(borrowers), data.borrowerId) ==> RefsIntact()
      ensures loan == data.(id := loan.id)
      ensures forall l :: l in old(loans) ==> l.id != loan.id
      ensures loans == old(loans) + [loan]
    {
      loan := data.(id := FreshKey(loans, LoanKey));
      loans := loans + [loan];
    }

    /** Replaces the loan with the same id as `updated`; its status is taken as given. */
    method UpdateLoan(updated: Loan)
      requires Valid()
      modifies this`loans
      ensures Valid()
      ensures old(RefsIntact()) && BorrowerStored(old(borrowers), updated.borrowerId) ==> RefsIntact()
      ensures loans == ReplaceByKey(old(loans), LoanKey, updated)
    {
      ReplaceKeepsKeysUnique(loans, LoanKey, updated);
      loans := ReplaceByKey(loans, LoanKey, updated);
    }

    /**
     * Removes the loan `id`. When payments refer to it, the removal needs
     * `confirmed` and then takes those payments with it.
     */
    method DeleteLoan(id: string, confirmed: bool) returns (deleted: bool)
      requires Valid()
      modifies this`loans, this`payments
      ensures Valid()
      ensures old(RefsIntact()) ==> RefsIntact()
      ensures deleted <==> confirmed || forall i :: 0 <= i < |old(payments)| ==> old(payments)[i].loanId != id
      ensures deleted ==> loans == WithoutLoan(old(loans), id)
      ensures deleted ==> payments == WithoutPaymentsOf(old(payments), id)
      ensures !deleted ==> loans == old(loans) && payments == old(payments)
      ensures SplitsAddUp(old(payments)) ==> SplitsAddUp(payments)
    {
      if HasPayments(payments, id) {
        if !confirmed {
          return false;
        }
        FilterKeepsKeysUnique(payments, PaymentKey, (p: Payment) => p.loanId != id);
        payments := WithoutPaymentsOf(payments, id);
      } else {
        FilterAll(payments, (p: Payment) => p.loanId != id);
      }
      FilterKeepsKeysUnique(loans, LoanKey, (l: Loan) => l.id != id);
      loans := WithoutLoan(loans, id);
      deleted := true;
    }

    // ----- Payments -----

    /**
     * The follow-up of every payment command: find the loan `loanId` and, if
     * the engine now derives another status for it, store the loan with that status.
     */
    method RefreshLoanStatus(loanId: string, now: int)
      requires Valid()
      modifies this`loans
      ensures Valid()
      ensures old(RefsIntact()) ==> RefsIntact()
      ensures |loans| == |old(loans)|
      ensures forall i :: 0 <= i < |loans| ==>
                loans[i] == if old(loans[i]).id == loanId then Refreshed(old(loans[i]), payments, now) else old(loans[i])
      ensures StatusCurrent(loanId, now)
    {
      var found := FindIndex(loans, (l: Loan) => l.id == loanId);
      if found.Some? {
        var k := found.value;
        var loan := loans[k];
        var newStatus := DetermineNewLoanStatus(loan, payments, now);
        if newStatus != loan.status {
          UpdateLoan(loan.(status := newStatus));
        }
        forall i | 0 <= i < |loans| && loans[i].id == loanId && OwnPaymentsNonNegative(loans[i], payments)
          ensures loans[i].status == DetermineNewLoanStatus(loans[i], payments, now)
        {
          assert i == k;
          StatusFixpoint(loan, payments, now);
        }
      }
    }

    /** Appends a copy of `data` under a fresh id, then refreshes the status of its loan. */
    method AddPayment(data: Payment, now: int) returns (payment: Payment)
      requires Valid()
      modifies this`payments, this`loans
      ensures Valid()
      ensures old(RefsIntact()) && LoanStored(old(loans), data.loanId) ==> RefsIntact()
      ensures payment == data.(id := payment.id)
      ensures forall p :: p in old(payments) ==> p.id != payment.id
      ensures payments == old(payments) + [payment]
      ensures forall l: Loan {:trigger TotalPaid(l, payments)} ::
                TotalPaid(l, payments) == TotalPaid(l, old(payments)) + (if l.id == data.loanId then data.amount else 0.0)
      ensures |loans| == |old(loans)|
      ensures forall i :: 0 <= i < |loans| ==>
                loans[i] == if old(loans[i]).id == data.loanId then Refreshed(old(loans[i]), payments, now) else old(loans[i])
      ensures StatusCurrent(data.loanId, now)
      ensures SplitsAddUp(old(payments)) && data.principal + data.interest == data.amount ==> SplitsAddUp(payments)
    {
      payment := data.(id := FreshKey(payments, PaymentKey));
      forall l: Loan {:trigger TotalPaid(l, payments + [payment])}
        ensures TotalPaid(l, payments + [payment])
             == TotalPaid(l, payments) + (if l.id == data.loanId then data.amount else 0.0)
      {
        TotalPaidAppend(l, payments, payment);
      }
      payments := payments + [payment];
      RefreshLoanStatus(data.loanId, now);
    }

    /** Replaces the payment with the same id, then refreshes the status of the loan `updated` names. */
    method UpdatePayment(updated: Payment, now: int)
      requires Valid()
      modifies this`payments, this`loans
      ensures Valid()
      ensures old(RefsIntact()) && LoanStored(old(loans), updated.loanId) ==> RefsIntact()
      ensures payments == ReplaceByKey(old(payments), PaymentKey, updated)
      ensures |loans| == |old(loans)|
      ensures forall i :: 0 <= i < |loans| ==>
                loans[i] == if old(loans[i]).id == updated.loanId then Refreshed(old(loans[i]), payments, now) else old(loans[i])
      ensures StatusCurrent(updated.loanId, now)
      ensures SplitsAddUp(old(payments)) && updated.principal + updated.interest == updated.amount ==> SplitsAddUp(payments)
    {
      ReplaceKeepsKeysUnique(payments, PaymentKey, updated);
      payments := ReplaceByKey(payments, PaymentKey, updated);
      RefreshLoanStatus(updated.loanId, now);
    }

    /** Removes the payment `id`, if there is one, then refreshes the status of the loan it belonged to. */
    method DeletePayment(id: string, now: int)
      requires Valid()
      modifies this`payments, this`loans
      ensures Valid()
      ensures old(RefsIntact()) ==> RefsIntact()
      ensures PaymentById(old(payments), id).None? ==> payments == old(payments) && loans == old(loans)
      ensures PaymentById(old(payments), id).Some? ==>
                var loanId := PaymentById(old(payments), id).value.loanId;
                payments == WithoutPayment(old(payments), id)
                && |loans| == |old(loans)|
                && (forall i :: 0 <= i < |loans| ==>
                      loans[i] == if old(loans[i]).id == loanId then Refreshed(old(loans[i]), payments, now) else old(loans[i]))
                && StatusCurrent(loanId, now)
      ensures SplitsAddUp(old(payments)) ==> SplitsAddUp(payments)
    {
      var payment := PaymentById(payments, id);
      if payment.None? {
        return;
      }
      FilterKeepsKeysUnique(payments, PaymentKey, (p: Payment) => p.id != id);
      payments := WithoutPayment(payments, id);
      RefreshLoanStatus(payment.value.loanId, now);
    }

    // ----- Queries -----

    function GetBorrowerById(id: string): (r: Option<Borrower>)
      reads this
      ensures r.None? <==> forall i :: 0 <= i < |borrowers| ==> borrowers[i].id != id
      ensures r.Some? ==> r.value in borrowers && r.value.id == id
      ensures r.Some? ==> exists k :: 0 <= k < |borrowers| && borrowers[k] == r.value
                                      && forall j :: 0 <= j < k ==> borrowers[j].id != id
    {
      Find(borrowers, (b: Borrower) => b.id == id)
    }

    function GetLoanById(id: string): (r: Option<Loan>)
      reads this
      ensures r.None? <==> forall i :: 0 <= i < |loans| ==> loans[i].id != id
      ensures r.Some? ==> r.value in loans && r.value.id == id
      ensures r.Some? ==> exists k :: 0 <= k < |loans| && loans[k] == r.value
                                      && forall j :: 0 <= j < k ==> loans[j].id != id
    {
      Find(loans, (l: Loan) => l.id == id)
    }

    function GetLoansByBorrowerId(borrowerId: string): (r: seq<Loan>)
      reads this
      ensures forall l :: l in r <==> l in loans && l.borrowerId == borrowerId
      ensures forall l :: multiset(r)[l] == if l.borrowerId == borrowerId then multiset(loans)[l] else 0
    {
      FilterCounts(loans, (l: Loan) => l.borrowerId == borrowerId);
      Filter(loans, (l: Loan) => l.borrowerId == borrowerId)
    }

    function GetPaymentsByLoanId(loanId: string): (r: seq<Payment>)
      reads this
      ensures forall p :: p in r <==> p in payments && p.loanId == loanId
      ensures forall p :: multiset(r)[p] == if p.loanId == loanId then multiset(payments)[p] else 0
    {
      FilterCounts(payments, (p: Payment) => p.loanId == loanId);
      PaymentsOf(payments, loanId)
    }

    /** The loans recorded as overdue or defaulted; the recorded status is not re-derived. */
    function GetOverdueLoans(): (r: seq<Loan>)
      reads this
      ensures forall l :: l in r <==> l in loans && (l.status == Overdue || l.status == Defaulted)
      ensures forall l :: multiset(r)[l] ==
                if l.status == Overdue || l.status == Defaulted then multiset(loans)[l] else 0
    {
      FilterCounts(loans, (l: Loan) => l.status == Overdue || l.status == Defaulted);
      Filter(loans, (l: Loan) => l.status == Overdue || l.status == Defaulted)
    }

    /** The unpaid loans due between `now` and `days` days later, both ends included. */
    function GetUpcomingDueLoans(days: int, now: int): (r: seq<Loan>)
      reads this
      ensures forall l :: l in r <==> l in loans && l.status != Paid && now <= l.dueDate <= now + days
      ensures forall l :: multiset(r)[l] ==
                if l.status != Paid && now <= l.dueDate <= now + days then multiset(loans)[l] else 0
    {
      FilterCounts(loans, (l: Loan) => l.status != Paid && now <= l.dueDate && l.dueDate <= now + days);
      Filter(loans, (l: Loan) => l.status != Paid && now <= l.dueDate && l.dueDate <= now + days)
    }

    /** The dashboard figures as of `now`. */
    method CalculateLoanMetrics(now: int) returns (m: DashboardMetrics)
      ensures m.totalPrincipalOutstanding == LoanTotals(loans, payments, now).outstanding
      ensures m.totalInterestAccrued == LoanTotals(loans, payments, now).interestPaid
      ensures m.totalOverdue == LoanTotals(loans, payments, now).overdue
      ensures m.monthlyIncome == MonthlyIncome(payments, now)
      ensures 0.0 <= m.totalOverdue <= m.totalPrincipalOutstanding
    {
      var totalPrincipalOutstanding, totalInterestAccrued, totalOverdue := 0.0, 0.0, 0.0;
      var i := 0;
      while i < |loans|
        invariant 0 <= i <= |loans|
        invariant totalPrincipalOutstanding == LoanTotals(loans[..i], payments, now).outstanding
        invariant totalInterestAccrued == LoanTotals(loans[..i], payments, now).interestPaid
        invariant totalOverdue == LoanTotals(loans[..i], payments, now).overdue
      {
        var loan := loans[i];
        if loan.status != Paid {
          var loanPayments := GetPaymentsByLoanId(loan.id);
          var remainingBalance := CalculateRemainingBalance(loan, loanPayments, now);
          totalPrincipalOutstanding := totalPrincipalOutstanding + remainingBalance;
          var interestPaid := Sum(loanPayments, InterestOf);
          totalInterestAccrued := totalInterestAccrued + interestPaid;
          if loan.status == Overdue || loan.status == Defaulted {
            totalOverdue := totalOverdue + remainingBalance;
          }
        }
        assert loans[..i + 1][..i] == loans[..i];
        i := i + 1;
      }
      assert loans[..i] == loans;
      OverdueWithinOutstanding(loans, payments, now);
      m := DashboardMetrics(totalPrincipalOutstanding, totalInterestAccrued, totalOverdue,
                            MonthlyIncome(payments, now));
    }
  }
}
