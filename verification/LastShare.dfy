/** The last share: when a withdrawal burns it, and what it can leave behind. */
module LastShare {
  import opened Outcomes
  import opened Numbers
  import opened Loans
  import opened Pools
  import opened Operators
  import opened Settlement
  import opened Protocol
  import Bits
  import Borrowing
  import Conversions
  import Lenders

  // ----- When a withdrawal burns everything -------------------------------------------------

  /** What a withdrawal can pay out of the cash there is. */
  function Payable(pool: PoolBook, maxAmount: int): int {
    Min(maxAmount, pool.totalDeposits - pool.totalBorrowed)
  }

  /** Even a withdrawal of less than the shares are worth burns all of them, exactly when it costs
      more than one share fewer would pay for. */
  lemma PartialWithdrawalBurnsAllExactly(pool: PoolBook, shares: u64, maxAmount: u64, now: i64)
    requires pool.Withdraw(shares, maxAmount, now).Ok?
    ensures var paid := Min(Payable(pool, maxAmount), Lenders.WorthOf(pool, shares, now));
            pool.Withdraw(shares, maxAmount, now).value.shares == shares <==>
            || paid == Lenders.WorthOf(pool, shares, now)
            || pool.WorthAt(now) * (shares - 1) < paid * pool.totalShares
  {
    Lenders.WithdrawalAtPrice(pool, shares, maxAmount, now);
    var w := pool.Withdraw(shares, maxAmount, now).value;
    if w.shares < shares {
      FewerSharesCover(pool.WorthAt(now), w.shares, shares, w.paid * pool.totalShares);
    }
  }

  lemma FewerSharesCover(value: int, burned: int, shares: int, cost: int)
    requires burned < shares && cost <= value * burned && value >= 0
    ensures cost <= value * (shares - 1)
  {
    MulMonotone(burned, shares - 1, value);
  }

  /** A withdrawal leaves a pool without shares, and value in it, exactly when it is by the one
      lender there is, cannot pay all the pool is worth, and leaves less than the price of a share. */
  lemma LastShareLeavesValueExactly(pool: PoolBook, shares: u64, maxAmount: u64, now: i64)
    requires Lenders.Withdraw(pool, shares, maxAmount, now).Ok?
    ensures var after := Lenders.Withdraw(pool, shares, maxAmount, now).value.0;
            var value, payable := pool.WorthAt(now), Payable(pool, maxAmount);
            after.totalShares == 0 && after.WorthAt(now) > 0 <==>
            shares == pool.totalShares && payable < value && (value - payable) * shares < value
  {
    Lenders.WithdrawalMoves(pool, shares, maxAmount, now);
    Lenders.WithdrawalAtPrice(pool, shares, maxAmount, now);
    PartialWithdrawalBurnsAllExactly(pool, shares, maxAmount, now);
    if shares == pool.totalShares {
      Lenders.WholePoolIsWorthAll(pool, now);
      LeftUnderOneShare(pool.WorthAt(now), shares, Payable(pool, maxAmount));
    }
  }

  lemma LeftUnderOneShare(value: int, shares: int, paid: int)
    ensures value * (shares - 1) < paid * shares <==> (value - paid) * shares < value
  {
  }

  /** Of the withdrawals that leave no shares, those that leave value are the ones not paid in full. */
  lemma NoSharesLeavesValueExactly(pool: PoolBook, shares: u64, maxAmount: u64, now: i64)
    requires Lenders.Withdraw(pool, shares, maxAmount, now).Ok?
    requires Lenders.Withdraw(pool, shares, maxAmount, now).value.0.totalShares == 0
    ensures Lenders.Withdraw(pool, shares, maxAmount, now).value.0.WorthAt(now) > 0 <==>
            Payable(pool, maxAmount) < Lenders.WorthOf(pool, shares, now)
  {
    Lenders.WithdrawalMoves(pool, shares, maxAmount, now);
    Lenders.WithdrawalAtPrice(pool, shares, maxAmount, now);
    Lenders.WholePoolIsWorthAll(pool, now);
  }

  // ----- A run that leaves a loan behind ----------------------------------------------------

  const FOUR_YEARS: int := 4 * SECONDS_PER_YEAR

  const START: World := NewWorld(1000, 10_000, 0)

  function Lend(operator: nat, amount: u64, periods: u8): Action {
    Borrow(TermsFor(operator, amount, periods), [])
  }

  /** A hundred lent and repaid with four years' interest; all but one share withdrawn; two of the
      five units that share is worth lent again; and the three that are free withdrawn. */
  const ACTIONS: seq<Action> := [
    Deposit(0, 100), Lend(0, 100, 6), Tick(FOUR_YEARS), Repay(0, U32_MAX), Withdraw(0, 495), Lend(1, 2, 1),
    Withdraw(0, 3)]

  lemma RunNext(actions: seq<Action>, n: nat, before: World, after: World)
    requires n < |actions| && Run(START, actions[..n]) == before && Step(before, actions[n]) == Ok(after)
    ensures Run(START, actions[..n + 1]) == after
  {
    assert actions[..n + 1][..n] == actions[..n];
  }

  /** What an operator new to the pool signs for. */
  function TermsFor(operator: nat, amount: u64, periods: u8): Borrowing.Terms {
    Borrowing.Terms(operator, 0, 0, amount, periods, 1, 10_000, 200, Conversions.RATE_UNIT)
  }

  lemma NewcomerEnters(pool: PoolBook, t: Borrowing.Terms, now: i64) returns (account: OperatorState)
    requires t.nonce == 0 && t.amount <= t.limit
    ensures Borrowing.Enter(Books(pool, FRESH_ACCOUNT, []), [], t, now)
            == Ok((account, Borrowing.Accruing(pool, [], 0, 0)))
    ensures account.totalDebt == t.amount && account.openLoans == 1
  {
    Bits.BitOfZero(0);
    var window := FRESH_WINDOW.Consume(0);
    assert window.Ok?;
    assert Borrowing.AccrueOpenLoans(pool, [], [], t.operator, 0, t.rewardMint, now)
        == Ok(Borrowing.Accruing(pool, [], 0, 0));
    account := OperatorState(t.amount, 1, false, window.value);
  }

  lemma FlatRate(pool: PoolBook, t: Borrowing.Terms)
    requires 0 < t.amount <= pool.totalDeposits && pool.totalBorrowed == 0
    requires pool.slopeAprBps == 0 && pool.baseAprBps <= t.maxAprBps
    ensures Borrowing.Lend(pool, t, 0) == Ok((pool.(totalBorrowed := t.amount), pool.baseAprBps))
  {
    DivUnique(pool.totalDeposits - 1, pool.totalDeposits, 0);
  }

  /** The pool's sums with one loan out, at a hundred percent. */
  predicate TracksOnly(lent: PoolBook, tracked: PoolBook, amount: int, now: int) {
    && lent.accrualRate == lent.accrualRateTime == lent.accrualRemainders == 0
    && tracked == lent.(accrualRate := tracked.accrualRate, accrualRateTime := tracked.accrualRateTime)
    && tracked.accrualRate == amount * 10_000 && tracked.accrualRateTime == amount * 10_000 * now
  }

  lemma TrackOnly(lent: PoolBook, tracked: PoolBook, l: LoanState)
    requires TracksOnly(lent, tracked, l.outstanding, l.lastAccrualAt) && l.lastAccrualAt >= 0
    requires l.aprBps == 10_000 && l.interestRemainder == 0 && l.IsOpen()
    ensures lent.Track(l) == Ok(tracked)
  {
  }

  lemma CeilingIs(l: LoanState, now: i64, interest: int)
    requires l.lastAccrualAt == now < l.dueAt && l.accruedInterest == 0
    requires l.Unbooked(l.dueAt) / ACCRUAL_DENOMINATOR == interest && l.outstanding + interest <= U64_MAX
    ensures l.DebtCeiling(now) == Ok(l.outstanding + interest)
  {
    AccrualFitsExactly(l, l.dueAt);
    DivAtLeast(l.Unbooked(l.dueAt), ACCRUAL_DENOMINATOR, 0);
  }

  lemma LoanIssued(lent: PoolBook, tracked: PoolBook, t: Borrowing.Terms, now: i64, dueAt: i64, ceiling: u64)
    requires dueAt == now + t.termPeriods * REPAYMENT_PERIOD && t.rate == Conversions.RATE_UNIT && ceiling > 0
    requires lent.Track(Borrowing.NewLoan(t, 10_000, now, dueAt)) == Ok(tracked)
    requires Borrowing.NewLoan(t, 10_000, now, dueAt).DebtCeiling(now) == Ok(ceiling)
    ensures Borrowing.Issue(lent, t, 10_000, 0, now)
            == Ok(Borrowing.Issuing(tracked, Borrowing.NewLoan(t, 10_000, now, dueAt), ceiling))
  {
    DivUnique(ceiling * Conversions.RATE_UNIT, Conversions.RATE_UNIT, ceiling);
  }

  /** A hundred for six periods, or two for one, borrowed by an operator new to the pool. */
  predicate IsSmall(t: Borrowing.Terms) {
    (t.amount == 100 && t.termPeriods == 6) || (t.amount == 2 && t.termPeriods == 1)
  }

  lemma SmallCeiling(t: Borrowing.Terms, now: i64, dueAt: i64) returns (ceiling: u64)
    requires IsSmall(t) && dueAt == now + t.termPeriods * REPAYMENT_PERIOD
    ensures ceiling > 0 && Borrowing.NewLoan(t, 10_000, now, dueAt).DebtCeiling(now) == Ok(ceiling)
  {
    var l := Borrowing.NewLoan(t, 10_000, now, dueAt);
    var interest := if t.amount == 100 then 49 else 0;
    assert l.Unbooked(dueAt) == t.amount * 10_000 * (dueAt - now);
    assert l.Unbooked(dueAt) / ACCRUAL_DENOMINATOR == interest;
    CeilingIs(l, now, interest);
    ceiling := t.amount + interest;
  }

  lemma SmallBorrow(pool: PoolBook, tracked: PoolBook, t: Borrowing.Terms, watch: Option<u64>, balance: u64, now: i64,
                    dueAt: i64) returns (r: Borrowing.Borrowed)
    requires IsSmall(t) && t == TermsFor(t.operator, t.amount, t.termPeriods) && now >= 0
    requires dueAt == now + t.termPeriods * REPAYMENT_PERIOD
    requires t.amount <= pool.totalDeposits && pool.totalBorrowed == 0
    requires pool.baseAprBps == 10_000 && pool.slopeAprBps == 0
    requires TracksOnly(pool.(totalBorrowed := t.amount), tracked, t.amount, now)
    ensures Borrowing.Borrow(Books(pool, FRESH_ACCOUNT, []), [], t, watch, balance, now) == Ok(r)
    ensures r.books.pool == tracked && r.books.loans == [] && r.loan == Borrowing.NewLoan(t, 10_000, now, dueAt)
    ensures r.books.account.totalDebt == t.amount && r.books.account.openLoans == 1
  {
    var account := NewcomerEnters(pool, t, now);
    FlatRate(pool, t);
    var ceiling := SmallCeiling(t, now, dueAt);
    TrackOnly(pool.(totalBorrowed := t.amount), tracked, Borrowing.NewLoan(t, 10_000, now, dueAt));
    LoanIssued(pool.(totalBorrowed := t.amount), tracked, t, now, dueAt, ceiling);
    var taken := Borrowing.TakeOut(Books(pool, FRESH_ACCOUNT, []), [], t, now);
    assert taken == Ok(Borrowing.TakenOut(Books(tracked, account, []), Borrowing.NewLoan(t, 10_000, now, dueAt), 0,
                                          ceiling));
    r := Borrowing.Borrow(Books(pool, FRESH_ACCOUNT, []), [], t, watch, balance, now).value;
  }

  // ----- The run, step by step --------------------------------------------------------------

  const OPENED: int := 1000
  const LATER: int := OPENED + FOUR_YEARS

  function PoolWith(shares: u64, deposits: u64, borrowed: u64, rate: u128, rateTime: u128): PoolBook {
    PoolBook(shares, deposits, borrowed, 0, rate, rateTime, 0, 10_000, 0)
  }

  const FIRST: LoanState := Borrowing.NewLoan(TermsFor(0, 100, 6), 10_000, OPENED, OPENED + 6 * REPAYMENT_PERIOD)
  const FIRST_REPAID: LoanState := FIRST.(outstanding := 0, lastAccrualAt := LATER, status := Repaid)
  const SECOND: LoanState := Borrowing.NewLoan(TermsFor(1, 2, 1), 10_000, LATER, LATER + REPAYMENT_PERIOD)

  /** Where the run stands: the clock, the pool and its cash, the one lender's shares, the loans, what
      the first operator owes, and that the second is new. */
  predicate Stands(w: World, clock: int, pool: PoolBook, loans: seq<LoanState>, debt: int) {
    && w.clock == clock && w.pool == pool && w.vault == pool.totalDeposits - pool.totalBorrowed
    && w.lenders == [pool.totalShares] && w.loans == loans
    && w.Account(0).totalDebt == debt && w.Account(0).openLoans == (if debt > 0 then 1 else 0)
    && 1 !in w.operators
  }

  lemma Deposited() returns (w: World)
    ensures Step(START, Deposit(0, 100)) == Ok(w) && 0 !in w.operators
    ensures Stands(w, OPENED, PoolWith(100, 100, 0, 0, 0), [], 0)
  {
    w := Step(START, Deposit(0, 100)).value;
  }

  lemma BorrowStep(w: World, tracked: PoolBook, operator: nat, amount: u64, periods: u8, dueAt: i64)
    returns (v: World)
    requires IsSmall(TermsFor(operator, amount, periods)) && w.clock >= 0
    requires dueAt == w.clock + periods * REPAYMENT_PERIOD && operator !in w.operators
    requires amount <= w.pool.totalDeposits == w.vault && w.pool.totalBorrowed == 0
    requires w.pool.baseAprBps == 10_000 && w.pool.slopeAprBps == 0
    requires TracksOnly(w.pool.(totalBorrowed := amount), tracked, amount, w.clock)
    ensures Step(w, Lend(operator, amount, periods)) == Ok(v)
    ensures v.clock == w.clock && v.pool == tracked && v.vault == w.vault - amount && v.lenders == w.lenders
    ensures v.loans == w.loans + [Borrowing.NewLoan(TermsFor(operator, amount, periods), 10_000, w.clock, dueAt)]
    ensures v.operators.Keys == w.operators.Keys + {operator}
    ensures v.Account(operator).totalDebt == amount && v.Account(operator).openLoans == 1
  {
    var t, lane := TermsFor(operator, amount, periods), (operator, 0 as nat);
    var r := SmallBorrow(w.pool, tracked, t, w.Watch(lane), w.Rewards(lane).amount, w.clock, dueAt);
    assert Gather(w.loans, []) == [];
    v := DoBorrow(w, t, []).value;
  }

  lemma FirstLent(w: World) returns (v: World)
    requires 0 !in w.operators && Stands(w, OPENED, PoolWith(100, 100, 0, 0, 0), [], 0)
    ensures Step(w, Lend(0, 100, 6)) == Ok(v)
    ensures Stands(v, OPENED, PoolWith(100, 100, 100, 1_000_000, 1_000_000_000), [FIRST], 100)
  {
    v := BorrowStep(w, PoolWith(100, 100, 100, 1_000_000, 1_000_000_000), 0, 100, 6, OPENED + 6 * REPAYMENT_PERIOD);
  }

  lemma TimePassed(w: World, pool: PoolBook, loans: seq<LoanState>, debt: int) returns (v: World)
    requires Stands(w, OPENED, pool, loans, debt)
    ensures Step(w, Tick(FOUR_YEARS)) == Ok(v) && Stands(v, LATER, pool, loans, debt)
  {
    v := w.(clock := LATER);
  }

  /** The hundred and, at a hundred percent a year, four hundred of interest. */
  lemma FirstSettles(account: OperatorState)
    requires account.totalDebt == 100 && account.openLoans == 1
    ensures Settle(PoolWith(100, 100, 100, 1_000_000, 1_000_000_000), account, FIRST, LATER, U32_MAX)
            == Ok(Settled(PoolWith(100, 500, 0, 0, 0), account.(totalDebt := 0, openLoans := 0), FIRST_REPAID, 500))
  {
    AccrualFitsExactly(FIRST, LATER);
    assert FIRST.Unbooked(LATER) == 400 * ACCRUAL_DENOMINATOR;
    assert Brought(FIRST, LATER).ApplyRepayment(U32_MAX) == Ok((FIRST_REPAID, Repayment(400, 100)));
    assert PoolWith(100, 100, 100, 1_000_000, 1_000_000_000).Untrack(FIRST) == Ok(PoolWith(100, 100, 100, 0, 0));
  }

  lemma FirstRepaid(w: World) returns (v: World)
    requires Stands(w, LATER, PoolWith(100, 100, 100, 1_000_000, 1_000_000_000), [FIRST], 100)
    ensures Step(w, Repay(0, U32_MAX)) == Ok(v)
    ensures Stands(v, LATER, PoolWith(100, 500, 0, 0, 0), [FIRST_REPAID], 0)
  {
    FirstSettles(w.Account(0));
    v := Step(w, Repay(0, U32_MAX)).value;
  }

  lemma NearlyAllWithdrawn(w: World, loans: seq<LoanState>) returns (v: World)
    requires Stands(w, LATER, PoolWith(100, 500, 0, 0, 0), loans, 0)
    ensures Step(w, Withdraw(0, 495)) == Ok(v) && Stands(v, LATER, PoolWith(1, 5, 0, 0, 0), loans, 0)
  {
    assert w.pool.Value(LATER) == Ok(500);
    assert w.pool.Withdraw(100, 495, LATER) == Ok(Withdrawal(495, 99, None));
    v := Step(w, Withdraw(0, 495)).value;
  }

  lemma SecondLent(w: World) returns (v: World)
    requires Stands(w, LATER, PoolWith(1, 5, 0, 0, 0), [FIRST_REPAID], 0)
    ensures Step(w, Lend(1, 2, 1)) == Ok(v)
    ensures v.clock == LATER && v.pool == PoolWith(1, 5, 2, 20_000, 20_000 * LATER) && v.vault == 3
    ensures v.lenders == [1] && v.loans == [FIRST_REPAID, SECOND]
  {
    v := BorrowStep(w, PoolWith(1, 5, 2, 20_000, 20_000 * LATER), 1, 2, 1, LATER + REPAYMENT_PERIOD);
  }

  /** Three of the five units the share is worth are free, and cost all of it. */
  lemma LastWithdrawn(w: World) returns (v: World)
    requires w.clock == LATER && w.pool == PoolWith(1, 5, 2, 20_000, 20_000 * LATER) && w.vault == 3
    requires w.lenders == [1]
    ensures Step(w, Withdraw(0, 3)) == Ok(v) && v == w.(pool := v.pool, vault := 0, lenders := [0])
    ensures v.pool == PoolWith(0, 2, 2, 20_000, 20_000 * LATER)
    ensures w.pool.Withdraw(1, 3, LATER) == Ok(Withdrawal(3, 1, None)) && w.pool.ValueOfShares(1, LATER) == Ok(5)
  {
    assert w.pool.Value(LATER) == Ok(5);
    assert w.pool.Withdraw(1, 3, LATER) == Ok(Withdrawal(3, 1, None));
    v := Step(w, Withdraw(0, 3)).value;
  }

  lemma Actions()
    ensures ACTIONS[..0] == [] && ACTIONS[..7] == ACTIONS && |ACTIONS| == 7
    ensures ACTIONS[0] == Deposit(0, 100) && ACTIONS[1] == Lend(0, 100, 6) && ACTIONS[2] == Tick(FOUR_YEARS)
    ensures ACTIONS[3] == Repay(0, U32_MAX) && ACTIONS[4] == Withdraw(0, 495) && ACTIONS[5] == Lend(1, 2, 1)
    ensures ACTIONS[6] == Withdraw(0, 3)
  {
  }

  lemma UpToRepaid() returns (w: World)
    ensures Run(START, ACTIONS[..4]) == w
    ensures Stands(w, LATER, PoolWith(100, 500, 0, 0, 0), [FIRST_REPAID], 0)
  {
    Actions();
    var w1 := Deposited();
    RunNext(ACTIONS, 0, START, w1);
    var w2 := FirstLent(w1);
    RunNext(ACTIONS, 1, w1, w2);
    var w3 := TimePassed(w2, w2.pool, [FIRST], 100);
    RunNext(ACTIONS, 2, w2, w3);
    w := FirstRepaid(w3);
    RunNext(ACTIONS, 3, w3, w);
  }

  /** A run from an empty pool whose last withdrawal is paid three of the five units its share is
      worth, burns the share, and leaves an open loan in a pool without shares. */
  lemma LastShareCanLeaveALoanBehind()
    ensures var before := Run(START, ACTIONS[..6]);
            && before.lenders == [1] && before.pool.ValueOfShares(1, before.clock) == Ok(5)
            && before.pool.Withdraw(1, 3, before.clock) == Ok(Withdrawal(3, 1, None))
    ensures var after := Run(START, ACTIONS);
            && after.pool.totalShares == 0 && after.pool.totalDeposits == after.pool.totalBorrowed == 2
            && after.pool.accrualRate == 20_000
            && |after.loans| == 2 && after.loans[1].IsOpen()
  {
    Actions();
    var repaid := UpToRepaid();
    var nearlyAll := NearlyAllWithdrawn(repaid, [FIRST_REPAID]);
    RunNext(ACTIONS, 4, repaid, nearlyAll);
    var lent := SecondLent(nearlyAll);
    RunNext(ACTIONS, 5, nearlyAll, lent);
    var after := LastWithdrawn(lent);
    RunNext(ACTIONS, 6, lent, after);
  }
}
