/** The one place a loan, its operator and its pool move together, and what that keeps. */
module Settlement {
  import opened Outcomes
  import opened Numbers
  import opened Sums
  import opened Loans
  import opened Pools
  import opened Operators

  datatype Settled = Settled(pool: PoolBook, account: OperatorState, loan: LoanState, paid: u64)

  /** The operator's part of a settlement. */
  function BookOnAccount(account: OperatorState, interest: u64, repayment: Repayment,
                         closed: bool): Result<OperatorState> {
    var grown :- U64(account.totalDebt + interest);
    var debt :- U64(grown - repayment.Total());
    var open :- if closed then U32(account.openLoans - 1) else Ok(account.openLoans);
    Ok(account.(totalDebt := debt, openLoans := open))
  }

  /** The pool's part: paid-in interest turns from a receivable into cash it can lend again. */
  function BookOnPool(pool: PoolBook, interest: u64, repayment: Repayment): Result<PoolBook> {
    var borrowed :- U64(pool.totalBorrowed - repayment.principal);
    var receivable :- U64(pool.accruedInterest + interest);
    var left :- U64(receivable - repayment.interest);
    var deposits :- U64(pool.totalDeposits + repayment.interest);
    Ok(pool.(totalBorrowed := borrowed, accruedInterest := left, totalDeposits := deposits))
  }

  /** `settle`: at most `maxAmount` booked on all three; the caller moves `paid` into the vault. */
  function Settle(pool: PoolBook, account: OperatorState, loan: LoanState, now: i64, maxAmount: u64): Result<Settled> {
    var untracked :- pool.Untrack(loan);
    var (accrued, interest) :- loan.Accrue(now);
    var (settled, repayment) :- accrued.ApplyRepayment(maxAmount);
    var tracked :- untracked.Track(settled);
    var paid :- U64(repayment.Total());
    var booked :- BookOnAccount(account, interest, repayment, settled.status == Repaid);
    var after :- BookOnPool(tracked, interest, repayment);
    Ok(Settled(after, booked, settled, paid))
  }

  method BookAccount(account: OperatorAccount, interest: u64, repayment: Repayment,
                     closed: bool) returns (r: Result<()>)
    requires account.Valid()
    modifies account`totalDebt, account`openLoans
    ensures match BookOnAccount(old(account.State()), interest, repayment, closed)
            case Ok(state) => r == Ok(()) && account.State() == state
            case Err(e) => r == Err(e)
  {
    var grown :- U64(account.totalDebt + interest);
    account.totalDebt :- U64(grown - repayment.Total());
    if closed {
      account.openLoans :- U32(account.openLoans as int - 1);
    }
    return Ok(());
  }

  method BookPool(pool: Pool, interest: u64, repayment: Repayment) returns (r: Result<()>)
    modifies pool
    ensures match BookOnPool(old(pool.Book()), interest, repayment)
            case Ok(book) => r == Ok(()) && pool.Book() == book
            case Err(e) => r == Err(e)
  {
    pool.totalBorrowed :- U64(pool.totalBorrowed as int - repayment.principal);
    var receivable :- U64(pool.accruedInterest + interest);
    pool.accruedInterest :- U64(receivable as int - repayment.interest);
    pool.totalDeposits :- U64(pool.totalDeposits + repayment.interest);
    return Ok(());
  }

  method SettleLoan(pool: Pool, account: OperatorAccount, loan: Loan, now: i64, maxAmount: u64)
    returns (r: Result<u64>)
    requires account.Valid()
    modifies pool, account`totalDebt, account`openLoans, loan
    ensures match Settle(old(pool.Book()), old(account.State()), old(loan.State()), now, maxAmount)
            case Ok(s) =>
              r == Ok(s.paid) && pool.Book() == s.pool && account.State() == s.account && loan.State() == s.loan
            case Err(e) => r == Err(e)
  {
    var _ :- pool.Untrack(loan.State());
    var interest :- loan.Accrue(now);
    var repayment :- loan.ApplyRepayment(maxAmount);
    var _ :- pool.Track(loan.State());
    var paid :- U64(repayment.Total());
    var _ :- BookAccount(account, interest, repayment, loan.status == Repaid);
    var _ :- BookPool(pool, interest, repayment);
    return Ok(paid);
  }

  // ----- What the running sums are sums of --------------------------------------------------

  function Outstanding(l: LoanState): int { l.outstanding }
  function Accrued(l: LoanState): int { l.accruedInterest }
  function Debt(l: LoanState): int { l.Debt() }
  function OpenCount(l: LoanState): int { if l.IsOpen() then 1 else 0 }
  function RateOf(l: LoanState): int { if l.IsOpen() then l.Rate() else 0 }
  function RateTimeOf(l: LoanState): int { if l.IsOpen() then l.Rate() * l.lastAccrualAt else 0 }
  function RemainderOf(l: LoanState): int { if l.IsOpen() then l.interestRemainder else 0 }

  /** What never changes about a loan. */
  predicate SameLoan(l: LoanState, m: LoanState) {
    && m.operator == l.operator && m.rewardMint == l.rewardMint && m.nonce == l.nonce
    && m.principal == l.principal && m.openedAt == l.openedAt && m.dueAt == l.dueAt
    && m.aprBps == l.aprBps && m.sweepBps == l.sweepBps
  }

  /** The debt of a loan once its interest is brought up to `now`. */
  function DebtNow(loan: LoanState, now: int): int {
    loan.outstanding + loan.accruedInterest + loan.Unbooked(now) / ACCRUAL_DENOMINATOR
  }

  /** The loan's accrual sums moved by the loan's own change, and nothing else did. */
  predicate SumsFollow(p: PoolBook, q: PoolBook, l: LoanState, m: LoanState) {
    && q == p.(accrualRate := q.accrualRate, accrualRateTime := q.accrualRateTime,
               accrualRemainders := q.accrualRemainders)
    && q.accrualRate == p.accrualRate + RateOf(m) - RateOf(l)
    && q.accrualRateTime == p.accrualRateTime + RateTimeOf(m) - RateTimeOf(l)
    && q.accrualRemainders == p.accrualRemainders + RemainderOf(m) - RemainderOf(l)
  }

  lemma RetrackFollows(pool: PoolBook, l: LoanState, m: LoanState)
    requires pool.Untrack(l).Ok? && pool.Untrack(l).value.Track(m).Ok?
    ensures SumsFollow(pool, pool.Untrack(l).value.Track(m).value, l, m)
  {
  }

  /** A pool that followed one loan from `l` to `m`, `paid` coming in as cash. */
  predicate PoolFollows(p: PoolBook, q: PoolBook, l: LoanState, m: LoanState, paid: int) {
    && q.totalShares == p.totalShares
    && q.baseAprBps == p.baseAprBps && q.slopeAprBps == p.slopeAprBps
    && q.totalBorrowed == p.totalBorrowed + m.outstanding - l.outstanding
    && q.accruedInterest == p.accruedInterest + m.accruedInterest - l.accruedInterest
    && q.accrualRate == p.accrualRate + RateOf(m) - RateOf(l)
    && q.accrualRateTime == p.accrualRateTime + RateTimeOf(m) - RateTimeOf(l)
    && q.accrualRemainders == p.accrualRemainders + RemainderOf(m) - RemainderOf(l)
    && q.totalDeposits - q.totalBorrowed == p.totalDeposits - p.totalBorrowed + paid
    && p.totalDeposits <= q.totalDeposits
  }

  predicate AccountFollows(a: OperatorState, c: OperatorState, l: LoanState, m: LoanState) {
    && c == a.(totalDebt := c.totalDebt, openLoans := c.openLoans)
    && c.totalDebt == a.totalDebt + m.Debt() - l.Debt()
    && c.openLoans == a.openLoans + OpenCount(m) - OpenCount(l)
  }

  /** The loan paid `paid` out of its debt at `now`: closed exactly when that was all of it. */
  predicate LoanPaid(l: LoanState, m: LoanState, paid: int, now: int) {
    && m.WellFormed(now) && SameLoan(l, m)
    && m.lastAccrualAt == now
    && m.Debt() == DebtNow(l, now) - paid
    && (m.IsOpen() <==> paid < DebtNow(l, now))
    && (m.IsOpen() ==> m.rewardDue == l.rewardDue && m.manualRepayment == l.manualRepayment && m.status == l.status
                       && ACCRUAL_DENOMINATOR * (m.Debt() + paid - l.Debt()) + m.interestRemainder == l.Unbooked(now))
    && (!m.IsOpen() ==> 0 <= l.Unbooked(now) - ACCRUAL_DENOMINATOR * (paid - l.Debt()) < ACCRUAL_DENOMINATOR)
  }

  lemma AccrueAndPay(loan: LoanState, now: i64, maxAmount: u64)
    requires loan.WellFormed(now) && loan.Accrue(now).Ok?
    requires loan.Accrue(now).value.0.ApplyRepayment(maxAmount).Ok?
    ensures var (accrued, interest) := loan.Accrue(now).value;
            var (m, r) := accrued.ApplyRepayment(maxAmount).value;
            && loan.IsOpen()
            && LoanPaid(loan, m, r.Total(), now)
            && r.Total() == Min(maxAmount, DebtNow(loan, now))
            && m.outstanding == loan.outstanding - r.principal
            && m.accruedInterest == loan.accruedInterest + interest - r.interest
  {
    var (accrued, interest) := loan.Accrue(now).value;
    AccrualLosesNothing(loan, now);
    AccrualKeepsLoan(loan, now, now);
    DivUnique(loan.Unbooked(now), ACCRUAL_DENOMINATOR, interest);
    RepaymentKeepsLoan(accrued, maxAmount, now);
  }

  /** One settlement: the loan pays what it was asked for, up to its debt at this second, and the
      pool and the operator follow it field by field. */
  lemma SettleMoves(pool: PoolBook, account: OperatorState, loan: LoanState, now: i64, maxAmount: u64)
    requires loan.WellFormed(now)
    requires Settle(pool, account, loan, now, maxAmount).Ok?
    ensures var s := Settle(pool, account, loan, now, maxAmount).value;
            && loan.IsOpen()
            && s.paid == Min(maxAmount, DebtNow(loan, now))
            && LoanPaid(loan, s.loan, s.paid, now)
            && PoolFollows(pool, s.pool, loan, s.loan, s.paid)
            && AccountFollows(account, s.account, loan, s.loan)
  {
    var accrued := loan.Accrue(now).value.0;
    var settled := accrued.ApplyRepayment(maxAmount).value.0;
    AccrueAndPay(loan, now, maxAmount);
    RetrackFollows(pool, loan, settled);
  }

  // ----- Several loans of one operator ------------------------------------------------------

  /** A pool, one operator's account, and loans of that operator. */
  datatype Books = Books(pool: PoolBook, account: OperatorState, loans: seq<LoanState>)

  /** Every sum moved by exactly what the loans moved by, `paid` coming in as cash. */
  predicate BooksFollow(b: Books, c: Books, paid: int) {
    var p, q, ls, ms := b.pool, c.pool, b.loans, c.loans;
    && q.totalShares == p.totalShares
    && q.baseAprBps == p.baseAprBps && q.slopeAprBps == p.slopeAprBps
    && q.totalBorrowed - p.totalBorrowed == Sum(ms, Outstanding) - Sum(ls, Outstanding)
    && q.accruedInterest - p.accruedInterest == Sum(ms, Accrued) - Sum(ls, Accrued)
    && q.accrualRate - p.accrualRate == Sum(ms, RateOf) - Sum(ls, RateOf)
    && q.accrualRateTime - p.accrualRateTime == Sum(ms, RateTimeOf) - Sum(ls, RateTimeOf)
    && q.accrualRemainders - p.accrualRemainders == Sum(ms, RemainderOf) - Sum(ls, RemainderOf)
    && q.totalDeposits - q.totalBorrowed == p.totalDeposits - p.totalBorrowed + paid
    && p.totalDeposits <= q.totalDeposits
    && c.account.overdue == b.account.overdue && c.account.window == b.account.window
    && c.account.totalDebt - b.account.totalDebt == Sum(ms, Debt) - Sum(ls, Debt)
    && c.account.openLoans - b.account.openLoans == Sum(ms, OpenCount) - Sum(ls, OpenCount)
  }

  /** Changing one loan and letting the pool and the operator follow keeps the books in step. */
  lemma FollowOne(b: Books, c: Books, i: nat, before: int, paid: int, d: Books)
    requires BooksFollow(b, c, before) && i < |c.loans|
    requires |d.loans| == |c.loans| && d.loans == c.loans[i := d.loans[i]]
    requires PoolFollows(c.pool, d.pool, c.loans[i], d.loans[i], paid)
    requires AccountFollows(c.account, d.account, c.loans[i], d.loans[i])
    ensures BooksFollow(b, d, before + paid)
  {
    var m := d.loans[i];
    SumUpdate(c.loans, i, m, Outstanding);
    SumUpdate(c.loans, i, m, Accrued);
    SumUpdate(c.loans, i, m, RateOf);
    SumUpdate(c.loans, i, m, RateTimeOf);
    SumUpdate(c.loans, i, m, RemainderOf);
    SumUpdate(c.loans, i, m, Debt);
    SumUpdate(c.loans, i, m, OpenCount);
  }

  /** The same loan as far as any sum can see. */
  predicate SameMoney(l: LoanState, m: LoanState) {
    m == l.(rewardDue := m.rewardDue, manualRepayment := m.manualRepayment)
  }

  predicate AllSameMoney(ls: seq<LoanState>, ms: seq<LoanState>) {
    |ms| == |ls| && forall i :: 0 <= i < |ls| ==> SameMoney(ls[i], ms[i])
  }

  lemma {:induction false} SameMoneySameSums(ls: seq<LoanState>, ms: seq<LoanState>)
    requires AllSameMoney(ls, ms)
    ensures Sum(ls, Outstanding) == Sum(ms, Outstanding) && Sum(ls, Accrued) == Sum(ms, Accrued)
    ensures Sum(ls, Debt) == Sum(ms, Debt) && Sum(ls, OpenCount) == Sum(ms, OpenCount)
    ensures Sum(ls, RateOf) == Sum(ms, RateOf) && Sum(ls, RateTimeOf) == Sum(ms, RateTimeOf)
    ensures Sum(ls, RemainderOf) == Sum(ms, RemainderOf)
  {
    SumSame(ls, ms, Outstanding);
    SumSame(ls, ms, Accrued);
    SumSame(ls, ms, Debt);
    SumSame(ls, ms, OpenCount);
    SumSame(ls, ms, RateOf);
    SumSame(ls, ms, RateTimeOf);
    SumSame(ls, ms, RemainderOf);
  }
}
