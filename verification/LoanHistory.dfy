/** A loan's whole life against exact interest by the second: accrual rounds nothing away, however
    often and whenever it runs. */
module LoanHistory {
  import opened Outcomes
  import opened Numbers
  import opened Loans

  /** A second passes, the loan is accrued, or it is accrued and repaid. */
  datatype Act = Second | Touch | Pay(maxAmount: u64)

  /** `earned` is what an onlooker counts: every second, what is outstanding times the rate. */
  datatype Life = Life(now: i64, loan: LoanState, interestPaid: nat, earned: nat)

  function Live(life: Life, act: Act): Result<Life> {
    match act
    case Second =>
      var later :- I64(life.now + 1);
      Ok(life.(now := later, earned := life.earned + life.loan.outstanding * life.loan.aprBps))
    case Touch =>
      :- Require(life.loan.IsOpen(), LoanNotOpen);
      var (accrued, _) :- life.loan.Accrue(life.now);
      Ok(life.(loan := accrued))
    case Pay(maxAmount) =>
      var (accrued, _) :- life.loan.Accrue(life.now);
      var (paid, r) :- accrued.ApplyRepayment(maxAmount);
      Ok(life.(loan := paid, interestPaid := life.interestPaid + r.interest))
  }

  function LifeOf(start: Life, acts: seq<Act>): Result<Life> {
    if acts == [] then Ok(start) else
    var before :- LifeOf(start, acts[..|acts| - 1]);
    Live(before, acts[|acts| - 1])
  }

  /** A loan the moment it is opened. */
  predicate Opened(life: Life) {
    var l := life.loan;
    && l.WellFormed(life.now) && l.IsOpen() && l.lastAccrualAt == life.now
    && l.accruedInterest == 0 && l.interestRemainder == 0
    && life.interestPaid == 0 && life.earned == 0
  }

  // ----- Nothing is lost --------------------------------------------------------------------

  /** Interest paid and accrued, in whole units, and what is not booked yet are exactly what was
      earned. */
  predicate Accounted(life: Life) {
    var l := life.loan;
    && l.WellFormed(life.now)
    && ACCRUAL_DENOMINATOR * (life.interestPaid + l.accruedInterest) + l.Unbooked(life.now) == life.earned
  }

  lemma SecondAccounts(life: Life)
    requires Accounted(life) && Live(life, Second).Ok?
    ensures Accounted(Live(life, Second).value)
  {
    OneSecondMore(life.loan.Rate(), life.loan.lastAccrualAt, life.now);
  }

  lemma OneSecondMore(rate: int, from: int, now: int)
    ensures rate * (now + 1 - from) == rate * (now - from) + rate
  {
  }

  /** Up to date, all that is not booked is the fraction. */
  lemma UpToDate(l: LoanState, now: int)
    requires l.lastAccrualAt == now
    ensures l.Unbooked(now) == l.interestRemainder
  {
  }

  lemma AccrualAccounts(l: LoanState, now: i64)
    requires l.WellFormed(now) && l.IsOpen() && l.Accrue(now).Ok?
    ensures var m := l.Accrue(now).value.0;
            && m.WellFormed(now) && m.IsOpen() && m.lastAccrualAt == now
            && ACCRUAL_DENOMINATOR * m.accruedInterest + m.Unbooked(now)
               == ACCRUAL_DENOMINATOR * l.accruedInterest + l.Unbooked(now)
  {
    AccrualLosesNothing(l, now);
    AccrualKeepsLoan(l, now, now);
    UpToDate(l.Accrue(now).value.0, now);
  }

  lemma RepaymentAccounts(l: LoanState, now: i64, maxAmount: u64)
    requires l.WellFormed(now) && l.lastAccrualAt == now && l.ApplyRepayment(maxAmount).Ok?
    ensures var (m, r) := l.ApplyRepayment(maxAmount).value;
            && m.WellFormed(now)
            && m.accruedInterest + r.interest == l.accruedInterest && m.Unbooked(now) == l.Unbooked(now)
  {
    RepaymentKeepsLoan(l, maxAmount, now);
    UpToDate(l, now);
    UpToDate(l.ApplyRepayment(maxAmount).value.0, now);
  }

  /** Interest moved from accrued to paid keeps the account. */
  lemma MovedToPaid(before: Life, after: Life, interest: nat, booked: int, unbooked: int)
    requires Accounted(before) && after.earned == before.earned && after.now == before.now
    requires after.loan.WellFormed(after.now)
    requires ACCRUAL_DENOMINATOR * booked + unbooked
          == ACCRUAL_DENOMINATOR * before.loan.accruedInterest + before.loan.Unbooked(before.now)
    requires after.loan.accruedInterest + interest == booked && after.loan.Unbooked(after.now) == unbooked
    requires after.interestPaid == before.interestPaid + interest
    ensures Accounted(after)
  {
  }

  lemma PayAccounts(life: Life, maxAmount: u64)
    requires Accounted(life) && Live(life, Pay(maxAmount)).Ok?
    ensures Accounted(Live(life, Pay(maxAmount)).value)
  {
    var accrued := life.loan.Accrue(life.now).value.0;
    var r := accrued.ApplyRepayment(maxAmount).value.1;
    assert life.loan.IsOpen();
    AccrualAccounts(life.loan, life.now);
    RepaymentAccounts(accrued, life.now, maxAmount);
    MovedToPaid(life, Live(life, Pay(maxAmount)).value, r.interest, accrued.accruedInterest,
                accrued.Unbooked(life.now));
  }

  lemma LiveAccounts(life: Life, act: Act)
    requires Accounted(life) && Live(life, act).Ok?
    ensures Accounted(Live(life, act).value)
  {
    match act
    case Second => SecondAccounts(life);
    case Touch =>
      AccrualAccounts(life.loan, life.now);
      var accrued := life.loan.Accrue(life.now).value.0;
      MovedToPaid(life, Live(life, act).value, 0, accrued.accruedInterest, accrued.Unbooked(life.now));
    case Pay(maxAmount) => PayAccounts(life, maxAmount);
  }

  /** From opening, after any mix of accruals and repayments at any times: the accrual denominator
      times the interest paid and accrued, with the fraction carried and the seconds not yet
      booked, is exactly the sum over the seconds of what was outstanding times the rate. */
  lemma {:induction false} NothingEarnedIsLost(start: Life, acts: seq<Act>)
    requires Opened(start) && LifeOf(start, acts).Ok?
    ensures Accounted(LifeOf(start, acts).value)
  {
    if acts == [] {
      assert start.loan.Rate() * (start.now - start.loan.lastAccrualAt) == 0;
    } else {
      NothingEarnedIsLost(start, acts[..|acts| - 1]);
      LiveAccounts(LifeOf(start, acts[..|acts| - 1]).value, acts[|acts| - 1]);
    }
  }

  // ----- When accrual runs does not show ----------------------------------------------------

  function WithoutTouches(acts: seq<Act>): seq<Act> {
    if acts == [] then [] else
    var before := WithoutTouches(acts[..|acts| - 1]);
    if acts[|acts| - 1].Touch? then before else before + [acts[|acts| - 1]]
  }

  /** `y` is `x` not accrued so far: accruing it to the same second gives the same loan. */
  predicate Behind(y: LoanState, x: LoanState) {
    && y.lastAccrualAt <= x.lastAccrualAt
    && y.Accrue(x.lastAccrualAt).Ok? && y.Accrue(x.lastAccrualAt).value.0 == x
  }

  predicate SameLife(y: Life, x: Life) {
    y == x.(loan := y.loan) && Behind(y.loan, x.loan)
  }

  lemma CatchesUp(y: LoanState, x: LoanState, now: i64)
    requires Behind(y, x) && x.lastAccrualAt <= now && x.Accrue(now).Ok?
    ensures y.Accrue(now).Ok? && y.Accrue(now).value.0 == x.Accrue(now).value.0
  {
    AccrualIsPathIndependent(y, x.lastAccrualAt, now);
    AccrualLosesNothing(y, x.lastAccrualAt);
    AccrualLosesNothing(x, now);
  }

  lemma BehindItself(x: LoanState)
    ensures Behind(x, x)
  {
  }

  lemma LiveAlike(y: Life, x: Life, act: Act)
    requires SameLife(y, x) && x.loan.WellFormed(x.now) && Live(x, act).Ok?
    ensures if act.Touch? then SameLife(y, Live(x, act).value)
            else Live(y, act).Ok? && SameLife(Live(y, act).value, Live(x, act).value)
  {
    AccrualLosesNothing(y.loan, x.loan.lastAccrualAt);
    if !act.Second? {
      CatchesUp(y.loan, x.loan, x.now);
      AccrualLosesNothing(x.loan, x.now);
      if act.Pay? {
        BehindItself(Live(x, act).value.loan);
      }
    }
  }

  /** Leaving out every accrual that is not part of a repayment changes nothing: the same interest
      is paid, and the loan accrues to the same loan. */
  lemma {:induction false} AccrualTimesDoNotShow(start: Life, acts: seq<Act>)
    requires Opened(start) && LifeOf(start, acts).Ok?
    ensures LifeOf(start, WithoutTouches(acts)).Ok?
    ensures SameLife(LifeOf(start, WithoutTouches(acts)).value, LifeOf(start, acts).value)
  {
    if acts == [] {
      BehindItself(start.loan);
    } else {
      var n := |acts| - 1;
      AccrualTimesDoNotShow(start, acts[..n]);
      NothingEarnedIsLost(start, acts[..n]);
      var y := LifeOf(start, WithoutTouches(acts[..n])).value;
      LiveAlike(y, LifeOf(start, acts[..n]).value, acts[n]);
      if !acts[n].Touch? {
        assert WithoutTouches(acts)[..|WithoutTouches(acts)| - 1] == WithoutTouches(acts[..n]);
      }
    }
  }
}
