/** The price of a share: what moves the pool's value, by how much, and in whose favour. */
module SharePrice {
  import opened Numbers
  import opened Loans
  import opened Pools
  import opened Operators
  import opened Settlement

  /** The pool's value at `now` before its one rounding, over ACCRUAL_DENOMINATOR. */
  function Scaled(pool: PoolBook, now: int): int {
    ACCRUAL_DENOMINATOR * (pool.totalDeposits + pool.accruedInterest) + Earned(pool, now)
  }

  /** Interest the open loans earned and did not book, over ACCRUAL_DENOMINATOR. */
  function Earned(pool: PoolBook, now: int): int {
    pool.accrualRate * now + pool.accrualRemainders - pool.accrualRateTime
  }

  lemma WorthIsScaledFloor(pool: PoolBook, now: int)
    requires Earned(pool, now) >= 0
    ensures pool.WorthAt(now) == Scaled(pool, now) / ACCRUAL_DENOMINATOR
  {
    DivShift(Earned(pool, now), ACCRUAL_DENOMINATOR, pool.totalDeposits + pool.accruedInterest);
  }

  /** The scaled value after closing `closed` loans: only the closed loans' fractions may be gone. */
  predicate ValueKept(p: PoolBook, q: PoolBook, now: int, closed: int) {
    Scaled(p, now) - (ACCRUAL_DENOMINATOR - 1) * closed <= Scaled(q, now) <= Scaled(p, now)
  }

  /** A loan's own part of what is earned and not booked. */
  function EarnedBy(l: LoanState, now: int): int {
    if l.IsOpen() then l.Unbooked(now) else 0
  }

  lemma EarnedMoves(p: PoolBook, q: PoolBook, l: LoanState, m: LoanState, now: int)
    requires q.accrualRate == p.accrualRate + RateOf(m) - RateOf(l)
    requires q.accrualRateTime == p.accrualRateTime + RateTimeOf(m) - RateTimeOf(l)
    requires q.accrualRemainders == p.accrualRemainders + RemainderOf(m) - RemainderOf(l)
    ensures Earned(q, now) - Earned(p, now) == EarnedBy(m, now) - EarnedBy(l, now)
  {
    EarnedByTerms(l, now);
    EarnedByTerms(m, now);
    assert q.accrualRate * now == p.accrualRate * now + RateOf(m) * now - RateOf(l) * now by {
      Distribute3(p.accrualRate, RateOf(m), RateOf(l), now);
    }
  }

  lemma Distribute3(a: int, b: int, c: int, d: int)
    ensures (a + b - c) * d == a * d + b * d - c * d
  {
  }

  lemma EarnedByTerms(l: LoanState, now: int)
    ensures EarnedBy(l, now) == RateOf(l) * now - RateTimeOf(l) + RemainderOf(l)
  {
    if l.IsOpen() {
      Distribute3(0, now, l.lastAccrualAt, l.Rate());
      assert l.Rate() * (now - l.lastAccrualAt) == l.Rate() * now - l.Rate() * l.lastAccrualAt;
    }
  }

  lemma PaidLosesFraction(l: LoanState, m: LoanState, paid: int, now: int)
    requires l.IsOpen() && LoanPaid(l, m, paid, now)
    ensures var lost := EarnedBy(l, now) - EarnedBy(m, now) - ACCRUAL_DENOMINATOR * (m.Debt() + paid - l.Debt());
            0 <= lost <= (ACCRUAL_DENOMINATOR - 1) * (OpenCount(l) - OpenCount(m))
  {
    assert m.Rate() * (now - m.lastAccrualAt) == 0;
  }

  /** A settlement moves nothing but the fraction of a unit a closed loan had not booked. */
  lemma SettlementKeepsValue(p: PoolBook, q: PoolBook, l: LoanState, m: LoanState, paid: int, now: int)
    requires l.IsOpen() && PoolFollows(p, q, l, m, paid) && LoanPaid(l, m, paid, now)
    ensures ValueKept(p, q, now, OpenCount(l) - OpenCount(m))
  {
    EarnedMoves(p, q, l, m, now);
    PaidLosesFraction(l, m, paid, now);
    assert q.totalDeposits + q.accruedInterest == p.totalDeposits + p.accruedInterest + (m.Debt() + paid - l.Debt());
  }

  /** Settling a loan, at any amount, costs the pool nothing unless it closes the loan, and then
      less than one unit. */
  lemma SettleKeepsValue(pool: PoolBook, account: OperatorState, loan: LoanState, now: i64, maxAmount: u64)
    requires loan.WellFormed(now) && Settle(pool, account, loan, now, maxAmount).Ok?
    ensures var s := Settle(pool, account, loan, now, maxAmount).value;
            ValueKept(pool, s.pool, now, OpenCount(loan) - OpenCount(s.loan))
  {
    var s := Settle(pool, account, loan, now, maxAmount).value;
    SettleMoves(pool, account, loan, now, maxAmount);
    SettlementKeepsValue(pool, s.pool, loan, s.loan, s.paid, now);
  }

  lemma ValueKeptHere(p: PoolBook, now: int)
    ensures ValueKept(p, p, now, 0)
  {
  }

  lemma ValueKeptTwice(p: PoolBook, q: PoolBook, r: PoolBook, now: int, closed: int, more: int)
    requires ValueKept(p, q, now, closed) && ValueKept(q, r, now, more)
    ensures ValueKept(p, r, now, closed + more)
  {
  }

  /** In whole units: nothing moves if no loan closed, and at most one unit per closed loan. */
  lemma WorthDropsByClosed(p: PoolBook, q: PoolBook, now: int, closed: nat)
    requires ValueKept(p, q, now, closed) && Earned(p, now) >= 0 && Earned(q, now) >= 0
    ensures p.WorthAt(now) - closed <= q.WorthAt(now) <= p.WorthAt(now)
  {
    WorthIsScaledFloor(p, now);
    WorthIsScaledFloor(q, now);
    DivShift(Scaled(p, now), ACCRUAL_DENOMINATOR, -(closed as int));
    DivMonotone(Scaled(p, now) - ACCRUAL_DENOMINATOR * closed, Scaled(q, now), ACCRUAL_DENOMINATOR);
    DivMonotone(Scaled(q, now), Scaled(p, now), ACCRUAL_DENOMINATOR);
  }

  /** Time alone never lowers the value. */
  lemma TimeRaisesWorth(pool: PoolBook, now: int, later: int)
    requires now <= later
    ensures pool.WorthAt(now) <= pool.WorthAt(later)
  {
    MulMonotone(now, later, pool.accrualRate);
    DivMonotone(Max(Earned(pool, now), 0), Max(Earned(pool, later), 0), ACCRUAL_DENOMINATOR);
  }
}
