/** The debt ceiling: the most a loan can be owed within its term, and that no run passes it. */
module Ceilings {
  import opened Outcomes
  import opened Numbers
  import opened Loans
  import opened Settlement

  /** The ceiling in plain arithmetic: the debt at the due date, or now once that has passed. */
  function CeilingOf(l: LoanState, now: int): int {
    DebtNow(l, Max(l.dueAt, now))
  }

  lemma CeilingIsDebtAtDue(l: LoanState, now: i64)
    requires l.WellFormed(Max(l.dueAt, now)) && l.DebtCeiling(now).Ok?
    ensures l.DebtCeiling(now).value == CeilingOf(l, now) >= l.outstanding
  {
    var until := Max(l.dueAt, now);
    UnbookedGrows(l, l.lastAccrualAt, until);
    DivAtLeast(l.Unbooked(until), ACCRUAL_DENOMINATOR, 0);
    AccrualLosesNothing(l, until);
    DivUnique(l.Unbooked(until), ACCRUAL_DENOMINATOR, l.Accrue(until).value.1);
  }

  /** Debt later on, seen from a loan brought up to `now`, is what it was seen from before. */
  lemma AccrualKeepsDebtAt(l: LoanState, now: i64, later: int)
    requires l.WellFormed(now) && now <= later && l.Accrue(now).Ok?
    ensures DebtNow(l.Accrue(now).value.0, later) == DebtNow(l, later)
  {
    var (m, interest) := l.Accrue(now).value;
    AccrualLosesNothing(l, now);
    DivShift(l.Unbooked(later), ACCRUAL_DENOMINATOR, -(interest as int));
    SplitElapsed(l.Rate(), l.lastAccrualAt, now, later);
    assert m.Unbooked(later) == l.Unbooked(later) + ACCRUAL_DENOMINATOR * -(interest as int);
  }

  lemma SplitElapsed(rate: int, from: int, mid: int, to: int)
    ensures rate * (to - from) == rate * (mid - from) + rate * (to - mid)
  {
  }

  /** Accruing alone leaves the ceiling where it was. */
  lemma AccrualKeepsCeiling(l: LoanState, now: i64)
    requires l.WellFormed(now) && l.Accrue(now).Ok?
    ensures CeilingOf(l.Accrue(now).value.0, now) == CeilingOf(l, now)
  {
    AccrualLosesNothing(l, now);
    AccrualKeepsDebtAt(l, now, Max(l.dueAt, now));
  }

  /** A repayment lowers every later debt by at least what it took. */
  lemma RepaymentLowersDebtAt(l: LoanState, now: i64, maxAmount: u64, later: int)
    requires l.WellFormed(now) && l.lastAccrualAt == now <= later && l.ApplyRepayment(maxAmount).Ok?
    ensures var (m, r) := l.ApplyRepayment(maxAmount).value;
            DebtNow(m, later) + r.Total() <= DebtNow(l, later)
  {
    var (m, r) := l.ApplyRepayment(maxAmount).value;
    RepaymentKeepsLoan(l, maxAmount, now);
    MulMonotone(m.outstanding, l.outstanding, l.aprBps);
    MulMonotone(m.Rate(), l.Rate(), later - now);
    DivMonotone(m.Unbooked(later), l.Unbooked(later), ACCRUAL_DENOMINATOR);
  }

  // ----- Over a run -------------------------------------------------------------------------

  /** A touch of the loan at `at`, and what it pays at most: nothing for an accrual alone. */
  datatype Touch = Touch(at: i64, maxAmount: u64)

  /** The loan after a touch, and what the touch took. A closed loan is left alone. */
  function Touched(l: LoanState, t: Touch): Result<(LoanState, nat)> {
    if !l.IsOpen() then Ok((l, 0)) else
    var (accrued, _) :- l.Accrue(t.at);
    if t.maxAmount == 0 then Ok((accrued, 0)) else
    var (paid, r) :- accrued.ApplyRepayment(t.maxAmount);
    Ok((paid, r.Total()))
  }

  /** The loan after all the touches, and everything they took. */
  function AfterAll(l: LoanState, touches: seq<Touch>): Result<(LoanState, nat)> {
    if touches == [] then Ok((l, 0)) else
    var (before, paid) :- AfterAll(l, touches[..|touches| - 1]);
    var (after, more) :- Touched(before, touches[|touches| - 1]);
    Ok((after, paid + more))
  }

  /** The touches come in order, none before `since` and none after `until`. */
  predicate InTime(since: int, touches: seq<Touch>, until: int) {
    && since <= until
    && (forall i :: 0 <= i < |touches| ==> since <= touches[i].at <= until)
    && (forall i, j :: 0 <= i < j < |touches| ==> touches[i].at <= touches[j].at)
  }

  /** When the loan was last looked at. */
  function LastAt(since: int, touches: seq<Touch>): int {
    if touches == [] then since else touches[|touches| - 1].at
  }

  lemma TouchLowersDebtAt(l: LoanState, t: Touch, later: int)
    requires l.WellFormed(t.at) && t.at <= later && Touched(l, t).Ok?
    ensures var (m, paid) := Touched(l, t).value;
            && m.WellFormed(t.at) && m.dueAt == l.dueAt
            && DebtNow(m, later) + paid <= DebtNow(l, later)
  {
    if l.IsOpen() {
      var accrued := l.Accrue(t.at).value.0;
      AccrualLosesNothing(l, t.at);
      AccrualKeepsLoan(l, t.at, t.at);
      AccrualKeepsDebtAt(l, t.at, later);
      if t.maxAmount > 0 {
        RepaymentKeepsLoan(accrued, t.maxAmount, t.at);
        RepaymentLowersDebtAt(accrued, t.at, t.maxAmount, later);
      }
    }
  }

  lemma OlderLoan(l: LoanState, now: int, later: int)
    requires l.WellFormed(now) && now <= later
    ensures l.WellFormed(later)
  {
  }

  lemma {:induction false} RunLowersDebtAt(l: LoanState, since: int, touches: seq<Touch>, later: int)
    requires l.WellFormed(since) && InTime(since, touches, later) && AfterAll(l, touches).Ok?
    ensures var (m, paid) := AfterAll(l, touches).value;
            && m.WellFormed(LastAt(since, touches)) && m.dueAt == l.dueAt && LastAt(since, touches) <= later
            && DebtNow(m, later) + paid <= DebtNow(l, later)
  {
    if touches == [] {
    } else {
      var n := |touches| - 1;
      RunLowersDebtAt(l, since, touches[..n], later);
      var before := AfterAll(l, touches[..n]).value.0;
      OlderLoan(before, LastAt(since, touches[..n]), touches[n].at);
      TouchLowersDebtAt(before, touches[n], later);
    }
  }

  lemma DebtGrows(l: LoanState, from: int, to: int)
    requires l.WellFormed(from) && from <= to
    ensures DebtNow(l, from) <= DebtNow(l, to)
  {
    MulMonotone(from - l.lastAccrualAt, to - l.lastAccrualAt, l.Rate());
    DivMonotone(l.Unbooked(from), l.Unbooked(to), ACCRUAL_DENOMINATOR);
  }

  /** However a loan is accrued and repaid within its term, everything paid and what is still owed
      at any moment of it never exceed the ceiling taken at the start. */
  lemma {:induction false} CeilingBoundsTheTerm(l: LoanState, since: i64, touches: seq<Touch>, now: i64)
    requires l.WellFormed(since) && InTime(since, touches, now) && now <= l.dueAt
    requires l.DebtCeiling(since).Ok? && AfterAll(l, touches).Ok?
    ensures var (m, paid) := AfterAll(l, touches).value;
            paid + DebtNow(m, now) <= l.DebtCeiling(since).value
  {
    var m := AfterAll(l, touches).value.0;
    OlderLoan(l, since, l.dueAt);
    CeilingIsDebtAtDue(l, since);
    RunLowersDebtAt(l, since, touches, l.dueAt);
    OlderLoan(m, LastAt(since, touches), now);
    DebtGrows(m, now, l.dueAt);
  }
}
