/** When a borrow is refused: every reason there is, and no other, in plain amounts. */
module BorrowRefusals {
  import opened Outcomes
  import opened Numbers
  import opened Sums
  import opened Loans
  import opened Pools
  import opened Operators
  import opened Settlement
  import opened Ceilings
  import opened Protocol
  import opened Ledger
  import opened Solvency
  import Borrowing
  import FastForm
  import SweepRefusals

  // ----- What the open loans add up to at this second ---------------------------------------

  /** What bringing an open loan up to `now` adds to the pool's rate-time and fraction sums. */
  function RateTimeGrows(now: int): LoanState -> int {
    (l: LoanState) => if l.IsOpen() then l.Rate() * (now - l.lastAccrualAt) else 0
  }

  function RemainderMoves(now: int): LoanState -> int {
    (l: LoanState) => if l.IsOpen() then l.Unbooked(now) % ACCRUAL_DENOMINATOR - l.interestRemainder else 0
  }

  function InterestOn(loans: seq<LoanState>, now: int): int {
    Sum(loans, FastForm.BookedAt(now))
  }

  function DebtAt(now: int): LoanState -> int {
    (l: LoanState) => if l.IsOpen() then DebtNow(l, now) else 0
  }

  /** The running totals after the first `k` loans handed over. */
  predicate AccruedAs(pool: PoolBook, loans: seq<LoanState>, mint: nat, now: int, k: nat, a: Borrowing.Accruing)
    requires k <= |loans|
  {
    && a.accrued == InterestOn(loans[..k], now)
    && a.ceiling == Borrowing.CeilingOver(loans[..k], mint, now)
    && a.pool == pool.(accrualRate := a.pool.accrualRate, accrualRateTime := a.pool.accrualRateTime,
                       accrualRemainders := a.pool.accrualRemainders)
    && a.pool.accrualRate == pool.accrualRate
    && a.pool.accrualRateTime == pool.accrualRateTime + Sum(loans[..k], RateTimeGrows(now))
    && a.pool.accrualRemainders == pool.accrualRemainders + Sum(loans[..k], RemainderMoves(now))
  }

  /** Loan `k` brought up to `now` after the loans before it: every total still fits. */
  predicate StepFits(pool: PoolBook, loans: seq<LoanState>, mint: nat, now: int, k: nat)
    requires k < |loans|
  {
    var l, through := loans[k], loans[..k + 1];
    && l.accruedInterest + Booked(l, now) <= U64_MAX
    && InterestOn(through, now) <= U64_MAX
    && pool.accrualRateTime + Sum(through, RateTimeGrows(now)) <= U128_MAX
    && pool.accrualRemainders + Sum(through, RemainderMoves(now)) <= U128_MAX
    && (l.rewardMint == mint ==> Borrowing.CeilingOver(through, mint, now) <= U64_MAX)
  }

  lemma {:induction false} StepSums(loans: seq<LoanState>, mint: nat, now: int, k: nat)
    requires k < |loans| && loans[k].IsOpen()
    ensures var l := loans[k];
            && InterestOn(loans[..k + 1], now) == InterestOn(loans[..k], now) + Booked(l, now)
            && Sum(loans[..k + 1], RateTimeGrows(now))
               == Sum(loans[..k], RateTimeGrows(now)) + l.outstanding * l.aprBps * now - RateTimeOf(l)
            && Sum(loans[..k + 1], RemainderMoves(now))
               == Sum(loans[..k], RemainderMoves(now)) + l.Unbooked(now) % ACCRUAL_DENOMINATOR - RemainderOf(l)
            && Borrowing.CeilingOver(loans[..k + 1], mint, now)
               == Borrowing.CeilingOver(loans[..k], mint, now) + Borrowing.CeilingFor(l, mint, now)
  {
    var l := loans[k];
    SumStep(loans, k, FastForm.BookedAt(now));
    SumStep(loans, k, RateTimeGrows(now));
    SumStep(loans, k, RemainderMoves(now));
    Borrowing.CeilingOverStep(loans, k, mint, now);
    assert l.Rate() * (now - l.lastAccrualAt) == l.outstanding * l.aprBps * now - l.Rate() * l.lastAccrualAt;
  }

  lemma FitsIsStepFits(pool: PoolBook, loans: seq<LoanState>, mint: nat, now: int, k: nat, a: Borrowing.Accruing)
    requires k < |loans| && loans[k].IsOpen() && AccruedAs(pool, loans, mint, now, k, a)
    ensures AccrualFits(a, loans[k], mint, now) <==>
            loans[k].manualRepayment == None && StepFits(pool, loans, mint, now, k)
  {
    StepSums(loans, mint, now, k);
  }

  lemma StepAccruesAs(pool: PoolBook, loans: seq<LoanState>, mint: nat, now: i64, k: nat, a: Borrowing.Accruing)
    requires k < |loans| == |a.loans| && a.loans[k] == loans[k] && loans[k].IsOpen() && loans[k].WellFormed(now)
    requires AccruedAs(pool, loans, mint, now, k, a) && Borrowing.AccrueOne(a, k, mint, now).Ok?
    ensures AccruedAs(pool, loans, mint, now, k + 1, Borrowing.AccrueOne(a, k, mint, now).value)
  {
    var c := Borrowing.AccrueOne(a, k, mint, now).value;
    StepSums(loans, mint, now, k);
    Borrowing.AccrueOneMoves(a, k, mint, now);
    Borrowing.AccrueOneCeiling(a, k, mint, now);
    AccrueFitsExactly(loans[k], now);
    AccrualKeepsCeiling(loans[k], now);
  }

  /** The first `k` of the loans handed over are brought up to date exactly if each is another open loan
      of the operator, unflagged, and every total fits; and then the totals are the sums. */
  predicate AccruesAs(w: World, operator: nat, mint: nat, passed: seq<nat>, k: nat)
    requires Present(w.loans, passed) && k <= |passed|
  {
    var loans := Gather(w.loans, passed);
    var a := Borrowing.AccrueFirst(w.pool, passed, loans, operator, mint, w.clock, k);
    && (a.Ok? <==> forall i :: 0 <= i < k ==> EntersAs(w, operator, mint, passed, i))
    && (a.Ok? ==> |a.value.loans| == |loans| && AccruedAs(w.pool, loans, mint, w.clock, k, a.value))
  }

  predicate EntersAs(w: World, operator: nat, mint: nat, passed: seq<nat>, i: nat)
    requires Present(w.loans, passed) && i < |passed|
  {
    var loans := Gather(w.loans, passed);
    && Borrowing.ListedOnce(passed, loans, operator, i) && loans[i].manualRepayment == None
    && StepFits(w.pool, loans, mint, w.clock, i)
  }

  lemma NoneAccrues(w: World, operator: nat, mint: nat, passed: seq<nat>)
    requires Present(w.loans, passed)
    ensures AccruesAs(w, operator, mint, passed, 0)
  {
    assert Gather(w.loans, passed)[..0] == [];
  }

  lemma NextEnters(w: World, operator: nat, mint: nat, passed: seq<nat>, k: nat, a: Borrowing.Accruing)
    requires Sound(w) && Present(w.loans, passed) && k < |passed|
    requires Borrowing.AccrueFirst(w.pool, passed, Gather(w.loans, passed), operator, mint, w.clock, k) == Ok(a)
    requires AccruedAs(w.pool, Gather(w.loans, passed), mint, w.clock, k, a)
    ensures Borrowing.AccrueFirst(w.pool, passed, Gather(w.loans, passed), operator, mint, w.clock, k + 1).Ok? <==>
            EntersAs(w, operator, mint, passed, k)
  {
    BorrowAccruesUnlessAdditionFails(w, operator, mint, passed, k, a);
    if Borrowing.ListedOnce(passed, Gather(w.loans, passed), operator, k) {
      FitsIsStepFits(w.pool, Gather(w.loans, passed), mint, w.clock, k, a);
    }
  }

  lemma NextAccruesAs(w: World, operator: nat, mint: nat, passed: seq<nat>, k: nat, a: Borrowing.Accruing,
                      c: Borrowing.Accruing)
    requires Sound(w) && Present(w.loans, passed) && k < |passed|
    requires Borrowing.AccrueFirst(w.pool, passed, Gather(w.loans, passed), operator, mint, w.clock, k) == Ok(a)
    requires Borrowing.AccrueFirst(w.pool, passed, Gather(w.loans, passed), operator, mint, w.clock, k + 1) == Ok(c)
    requires AccruedAs(w.pool, Gather(w.loans, passed), mint, w.clock, k, a)
    ensures |c.loans| == |passed| && AccruedAs(w.pool, Gather(w.loans, passed), mint, w.clock, k + 1, c)
  {
    var loans := Gather(w.loans, passed);
    Borrowing.AccrueFirstLeavesRest(w.pool, passed, loans, operator, mint, w.clock, k);
    assert a.loans[k] == a.loans[k..][0] == loans[k];
    assert Borrowing.ListedOnce(passed, loans, operator, k) && Borrowing.AccrueOne(a, k, mint, w.clock) == Ok(c);
    StepAccruesAs(w.pool, loans, mint, w.clock, k, a);
  }

  lemma RefusedStays(w: World, operator: nat, mint: nat, passed: seq<nat>, k: nat)
    requires Present(w.loans, passed) && k < |passed|
    requires Borrowing.AccrueFirst(w.pool, passed, Gather(w.loans, passed), operator, mint, w.clock, k).Err?
    ensures Borrowing.AccrueFirst(w.pool, passed, Gather(w.loans, passed), operator, mint, w.clock, k + 1).Err?
  {
  }

  lemma OneMoreAccrues(w: World, operator: nat, mint: nat, passed: seq<nat>, n: nat)
    requires Sound(w) && Present(w.loans, passed) && 0 < n <= |passed|
    requires AccruesAs(w, operator, mint, passed, n - 1)
    ensures AccruesAs(w, operator, mint, passed, n)
  {
    var loans := Gather(w.loans, passed);
    var r := Borrowing.AccrueFirst(w.pool, passed, loans, operator, mint, w.clock, n - 1);
    var s := Borrowing.AccrueFirst(w.pool, passed, loans, operator, mint, w.clock, n);
    if r.Ok? {
      NextEnters(w, operator, mint, passed, n - 1, r.value);
      if s.Ok? {
        NextAccruesAs(w, operator, mint, passed, n - 1, r.value, s.value);
      }
    } else {
      RefusedStays(w, operator, mint, passed, n - 1);
    }
  }

  lemma {:induction false} AccruesExactly(w: World, operator: nat, mint: nat, passed: seq<nat>, k: nat)
    requires Sound(w) && Present(w.loans, passed) && k <= |passed|
    ensures AccruesAs(w, operator, mint, passed, k)
  {
    if k == 0 {
      NoneAccrues(w, operator, mint, passed);
    } else {
      AccruesExactly(w, operator, mint, passed, k - 1);
      OneMoreAccrues(w, operator, mint, passed, k);
    }
  }

  lemma {:induction false} PrefixAtMost(loans: seq<LoanState>, k: nat, f: LoanState -> int)
    requires k <= |loans| && forall i :: 0 <= i < |loans| ==> f(loans[i]) >= 0
    ensures 0 <= Sum(loans[..k], f) <= Sum(loans, f)
    decreases |loans| - k
  {
    if k == |loans| {
      assert loans[..k] == loans;
      SumAtMost(loans, (l: LoanState) => 0, f);
      SumZero(loans, (l: LoanState) => 0);
    } else {
      SumStep(loans, k, f);
      PrefixAtMost(loans, k + 1, f);
      SumAtMost(loans[..k], (l: LoanState) => 0, f);
      SumZero(loans[..k], (l: LoanState) => 0);
    }
  }

  lemma {:induction false} CeilingsGrow(loans: seq<LoanState>, mint: nat, now: int, k: nat)
    requires k <= |loans| && forall i :: 0 <= i < |loans| ==> CeilingOf(loans[i], now) >= 0
    ensures 0 <= Borrowing.CeilingOver(loans[..k], mint, now) <= Borrowing.CeilingOver(loans, mint, now)
    decreases |loans|
  {
    if loans == [] {
    } else {
      var n := |loans| - 1;
      if k == |loans| {
        assert loans[..k] == loans;
        CeilingsGrow(loans[..n], mint, now, n);
        assert loans[..n][..n] == loans[..n];
      } else {
        CeilingsGrow(loans[..n], mint, now, k);
        assert loans[..n][..k] == loans[..k];
      }
    }
  }

  /** The pool's fractions after the first `k` loans handed over. */
  predicate FractionsFit(pool: PoolBook, loans: seq<LoanState>, now: int, k: nat)
    requires k <= |loans|
  {
    pool.accrualRemainders + Sum(loans[..k], RemainderMoves(now)) <= U128_MAX
  }

  /** Every loan handed over fits once the totals over all of them do. */
  predicate AccrualsFit(pool: PoolBook, loans: seq<LoanState>, mint: nat, now: int) {
    && pool.accruedInterest + InterestOn(loans, now) <= U64_MAX
    && pool.accrualRateTime + Sum(loans, RateTimeGrows(now)) <= U128_MAX
    && (forall k :: 1 <= k <= |loans| ==> FractionsFit(pool, loans, now, k))
    && Borrowing.CeilingOver(loans, mint, now) <= U64_MAX
  }

  lemma LoanGrows(l: LoanState, now: i64)
    requires l.WellFormed(now)
    ensures FastForm.BookedAt(now)(l) >= 0 && RateTimeGrows(now)(l) >= 0 && CeilingOf(l, now) >= 0
  {
    UnbookedGrows(l, l.lastAccrualAt, now);
    UnbookedGrows(l, now, Max(l.dueAt, now));
    MulMonotone(0, now - l.lastAccrualAt, l.Rate());
    DivAtLeast(l.Unbooked(now), ACCRUAL_DENOMINATOR, 0);
    DivAtLeast(l.Unbooked(Max(l.dueAt, now)), ACCRUAL_DENOMINATOR, 0);
  }

  lemma TotalsCoverSteps(pool: PoolBook, loans: seq<LoanState>, mint: nat, now: i64, k: nat)
    requires k < |loans| && AccrualsFit(pool, loans, mint, now) && loans[k].IsOpen()
    requires forall i :: 0 <= i < |loans| ==> loans[i].WellFormed(now)
    requires loans[k].accruedInterest <= pool.accruedInterest
    ensures StepFits(pool, loans, mint, now, k)
  {
    forall i | 0 <= i < |loans|
      ensures FastForm.BookedAt(now)(loans[i]) >= 0 && RateTimeGrows(now)(loans[i]) >= 0
      ensures CeilingOf(loans[i], now) >= 0
    {
      LoanGrows(loans[i], now);
    }
    SumBoundsTerm(loans, k, FastForm.BookedAt(now));
    PrefixAtMost(loans, k + 1, FastForm.BookedAt(now));
    PrefixAtMost(loans, k + 1, RateTimeGrows(now));
    CeilingsGrow(loans, mint, now, k + 1);
    assert FractionsFit(pool, loans, now, k + 1);
  }

  // ----- What the operator owes -------------------------------------------------------------

  lemma {:induction false} SumOfBoth(loans: seq<LoanState>, f: LoanState -> int, g: LoanState -> int,
                                     h: LoanState -> int)
    requires forall i :: 0 <= i < |loans| ==> f(loans[i]) + g(loans[i]) == h(loans[i])
    ensures Sum(loans, f) + Sum(loans, g) == Sum(loans, h)
  {
    if loans == [] {
    } else {
      SumOfBoth(loans[..|loans| - 1], f, g, h);
    }
  }

  /** What is handed over is all the operator owes. */
  lemma AllDebtHandedOver(w: World, operator: nat, passed: seq<nat>)
    requires Sound(w) && AllOpenLoansOf(w, operator, passed) && |passed| == w.Account(operator).openLoans
    ensures w.Account(operator).totalDebt == Sum(Gather(w.loans, passed), DebtOwedBy(operator))
  {
    var f := DebtOwedBy(operator);
    var none := seq(|passed|, i requires 0 <= i < |passed| => NO_LOAN);
    var rest := Scatter(w.loans, passed, none);
    ScatterSum(w.loans, passed, none, f);
    SumZero(none, f);
    forall p | 0 <= p < |rest| ensures f(rest[p]) == 0 {
      var i := ScatterCovers(w.loans, passed, none, p);
      if i < 0 && w.loans[p].operator == operator && w.loans[p].IsOpen() {
        PassedIsEveryOpenLoan(w, operator, passed, p);
      }
    }
    SumZero(rest, f);
  }

  /** The operator's debt and the interest of this second are the debts of its open loans now. */
  lemma DebtAtThisSecond(w: World, operator: nat, passed: seq<nat>)
    requires Sound(w) && AllOpenLoansOf(w, operator, passed) && |passed| == w.Account(operator).openLoans
    ensures var loans := Gather(w.loans, passed);
            w.Account(operator).totalDebt + InterestOn(loans, w.clock) == Sum(loans, DebtAt(w.clock))
  {
    var loans := Gather(w.loans, passed);
    AllDebtHandedOver(w, operator, passed);
    forall i | 0 <= i < |loans|
      ensures DebtOwedBy(operator)(loans[i]) + FastForm.BookedAt(w.clock)(loans[i]) == DebtAt(w.clock)(loans[i])
    {
      assert loans[i] == w.loans[passed[i]];
    }
    SumOfBoth(loans, DebtOwedBy(operator), FastForm.BookedAt(w.clock), DebtAt(w.clock));
  }

  // ----- The pool's side and the loan -------------------------------------------------------

  /** The rate the pool asks for: its base, and its slope at the utilisation after the loan, up to a
      whole basis point. */
  function RateAsked(pool: PoolBook, amount: nat): int {
    if pool.totalDeposits == 0 then 0
    else pool.baseAprBps + DivCeil(pool.slopeAprBps * (pool.totalBorrowed + amount), pool.totalDeposits)
  }

  predicate Lendable(pool: PoolBook, t: Borrowing.Terms) {
    t.amount <= pool.totalDeposits - pool.totalBorrowed && RateAsked(pool, t.amount) <= t.maxAprBps
  }

  lemma LendsExactly(pool: PoolBook, t: Borrowing.Terms, accrued: u64)
    requires t.amount > 0 && pool.totalBorrowed <= pool.totalDeposits && pool.baseAprBps + pool.slopeAprBps <= U16_MAX
    ensures Borrowing.Lend(pool, t, accrued).Ok? <==>
            pool.accruedInterest + accrued <= U64_MAX && Lendable(pool, t)
    ensures Borrowing.Lend(pool, t, accrued).Ok? ==>
            Borrowing.Lend(pool, t, accrued).value
            == (pool.(accruedInterest := pool.accruedInterest + accrued,
                      totalBorrowed := pool.totalBorrowed + t.amount),
                RateAsked(pool, t.amount))
  {
    if t.amount <= pool.totalDeposits - pool.totalBorrowed {
      var borrowed := pool.totalBorrowed + t.amount;
      MulMonotone(borrowed, pool.totalDeposits, pool.slopeAprBps);
      MulMonotone(0, borrowed, pool.slopeAprBps);
      DivCeilAtMost(pool.slopeAprBps * borrowed, pool.totalDeposits, pool.slopeAprBps);
      DivCeilAtMost(pool.slopeAprBps * borrowed, pool.totalDeposits, -1);
    }
  }

  /** The most the new loan can be owed in its term: its principal, and its interest for as many
      thirty-day periods over ten thousand basis points of a 365-day year. */
  function NewCeiling(t: Borrowing.Terms, aprBps: int): int {
    t.amount + t.amount * aprBps * (t.termPeriods * 2_592_000) / 315_360_000_000
  }

  predicate LoanFits(lent: PoolBook, t: Borrowing.Terms, aprBps: int, ceiling: int, now: int)
    requires t.rate > 0
  {
    && now + t.termPeriods * 2_592_000 <= I64_MAX
    && lent.accrualRate + t.amount * aprBps <= U128_MAX
    && lent.accrualRateTime + t.amount * aprBps * now <= U128_MAX
    && ceiling + NewCeiling(t, aprBps) <= U64_MAX
    && 0 < (ceiling + NewCeiling(t, aprBps)) * 1_000_000_000_000 / t.rate <= U64_MAX
  }

  lemma TrackNewExactly(lent: PoolBook, l: LoanState)
    requires l.IsOpen() && l.lastAccrualAt >= 0 && l.interestRemainder == 0
    ensures lent.Track(l).Ok? <==>
            && lent.accrualRate + l.outstanding * l.aprBps <= U128_MAX
            && lent.accrualRateTime + l.outstanding * l.aprBps * l.lastAccrualAt <= U128_MAX
  {
    MulMonotone(0, l.lastAccrualAt, l.Rate());
    MulMonotone(l.outstanding, U64_MAX, l.aprBps);
  }

  lemma NewCeilingExactly(t: Borrowing.Terms, aprBps: u16, now: i64, dueAt: i64)
    requires t.termPeriods > 0 && dueAt == now + t.termPeriods * REPAYMENT_PERIOD
    ensures Borrowing.NewLoan(t, aprBps, now, dueAt).DebtCeiling(now) == U64(NewCeiling(t, aprBps))
  {
    var l := Borrowing.NewLoan(t, aprBps, now, dueAt);
    AccrualFitsExactly(l, dueAt);
    assert l.Unbooked(dueAt) == t.amount * aprBps * (t.termPeriods * 2_592_000);
    DivAtLeast(l.Unbooked(dueAt), ACCRUAL_DENOMINATOR, 0);
  }

  lemma AllowsExactly(ceiling: u64, rate: u64)
    requires rate > 0
    ensures Borrowing.AllowanceFor(ceiling, rate).Ok? <==> 0 < ceiling * 1_000_000_000_000 / rate <= U64_MAX
  {
    DivAtLeast(ceiling * 1_000_000_000_000, rate, 0);
  }

  lemma IssueRefuses(lent: PoolBook, t: Borrowing.Terms, aprBps: u16, ceiling: u64, now: i64, dueAt: i64)
    requires t.rate > 0 && dueAt == now + t.termPeriods * REPAYMENT_PERIOD
    ensures var loan := Borrowing.NewLoan(t, aprBps, now, dueAt);
            Borrowing.Issue(lent, t, aprBps, ceiling, now).Ok? <==>
            && lent.Track(loan).Ok? && loan.DebtCeiling(now).Ok? && ceiling + loan.DebtCeiling(now).value <= U64_MAX
            && Borrowing.AllowanceFor(ceiling + loan.DebtCeiling(now).value, t.rate).Ok?
  {
  }

  lemma IssuesExactly(lent: PoolBook, t: Borrowing.Terms, aprBps: u16, ceiling: u64, now: i64)
    requires t.rate > 0 && t.termPeriods > 0 && now >= 0
    ensures Borrowing.Issue(lent, t, aprBps, ceiling, now).Ok? <==> LoanFits(lent, t, aprBps, ceiling, now)
  {
    if now + t.termPeriods * REPAYMENT_PERIOD <= I64_MAX {
      var dueAt := now + t.termPeriods * REPAYMENT_PERIOD;
      IssueRefuses(lent, t, aprBps, ceiling, now, dueAt);
      TrackNewExactly(lent, Borrowing.NewLoan(t, aprBps, now, dueAt));
      NewCeilingExactly(t, aprBps, now, dueAt);
      NewCeilingGrows(t, aprBps);
      if ceiling + NewCeiling(t, aprBps) <= U64_MAX {
        AllowsExactly(ceiling + NewCeiling(t, aprBps), t.rate);
      }
    }
  }

  lemma NewCeilingGrows(t: Borrowing.Terms, aprBps: u16)
    ensures NewCeiling(t, aprBps) >= t.amount
  {
    MulMonotone(0, t.termPeriods * 2_592_000, t.amount * aprBps);
    DivAtLeast(t.amount * aprBps * (t.termPeriods * 2_592_000), 315_360_000_000, 0);
  }

  // ----- The whole borrow -------------------------------------------------------------------

  predicate TermsInRange(t: Borrowing.Terms) {
    t.rate > 0 && t.amount > 0 && 1 <= t.termPeriods <= 6 && 1 <= t.sweepBps <= 10_000
  }

  /** The nonce is not below the window and not marked in its 256 places. */
  predicate NonceFree(window: NonceWindow, nonce: u64) {
    window.floor <= nonce && (nonce < window.floor + 256 ==> !Marked(window.words, nonce - window.floor))
  }

  /** The operator may borrow: its nonce unused, not overdue, fewer than four loans open, and every one of
      them handed over once, none flagged. */
  predicate MayBorrow(w: World, t: Borrowing.Terms, passed: seq<nat>) {
    var account := w.Account(t.operator);
    && NonceFree(account.window, t.nonce) && !account.overdue && account.openLoans < 4
    && AllOpenLoansOf(w, t.operator, passed) && |passed| == account.openLoans
    && forall i :: 0 <= i < |passed| ==> w.loans[passed[i]].manualRepayment == None
  }

  /** What the operator's open loans owe at this second, and the new loan, are within the limit. */
  predicate WithinLimit(loans: seq<LoanState>, t: Borrowing.Terms, now: int) {
    Sum(loans, DebtAt(now)) + t.amount <= t.limit
  }

  /** Every sum the borrow adds to still fits. */
  predicate SumsFit(pool: PoolBook, loans: seq<LoanState>, t: Borrowing.Terms, now: int)
    requires t.rate > 0
  {
    && AccrualsFit(pool, loans, t.rewardMint, now)
    && now + t.termPeriods * 2_592_000 <= I64_MAX
    && pool.accrualRate + t.amount * RateAsked(pool, t.amount) <= U128_MAX
    && pool.accrualRateTime + Sum(loans, RateTimeGrows(now)) + t.amount * RateAsked(pool, t.amount) * now <= U128_MAX
    && var ceiling := Borrowing.CeilingOver(loans, t.rewardMint, now) + NewCeiling(t, RateAsked(pool, t.amount));
       ceiling <= U64_MAX && 0 < ceiling * 1_000_000_000_000 / t.rate <= U64_MAX
  }

  /** The operator is let in: as `MayBorrow`, each loan handed over fitting as it is brought up to date. */
  predicate LetIn(w: World, t: Borrowing.Terms, passed: seq<nat>)
    requires Present(w.loans, passed)
  {
    var account := w.Account(t.operator);
    && NonceFree(account.window, t.nonce) && !account.overdue && account.openLoans < 4
    && |passed| == account.openLoans
    && (forall i :: 0 <= i < |passed| ==> EntersAs(w, t.operator, t.rewardMint, passed, i))
    && account.totalDebt + InterestOn(Gather(w.loans, passed), w.clock) + t.amount <= t.limit
  }

  /** The open loans accrued, the operator's side: exactly when. */
  lemma EntersExactly(w: World, t: Borrowing.Terms, passed: seq<nat>)
    requires Sound(w) && Present(w.loans, passed)
    ensures var b := BooksAt(w, t.operator, passed);
            var r := Borrowing.Enter(b, passed, t, w.clock);
            && (r.Ok? <==> LetIn(w, t, passed))
            && (r.Ok? ==> AccruedAs(w.pool, b.loans, t.rewardMint, w.clock, |passed|, r.value.1))
  {
    var b := BooksAt(w, t.operator, passed);
    ConsumesExactly(b.account.window, t.nonce);
    AccruesExactly(w, t.operator, t.rewardMint, passed, |passed|);
    assert b.loans[..|passed|] == b.loans;
  }

  /** What follows once the operator is let in. */
  predicate Funded(pool: PoolBook, loans: seq<LoanState>, t: Borrowing.Terms, now: int)
    requires t.rate > 0
  {
    var apr := RateAsked(pool, t.amount);
    var ceiling := Borrowing.CeilingOver(loans, t.rewardMint, now) + NewCeiling(t, apr);
    && Lendable(pool, t)
    && pool.accruedInterest + InterestOn(loans, now) <= U64_MAX
    && now + t.termPeriods * 2_592_000 <= I64_MAX
    && pool.accrualRate + t.amount * apr <= U128_MAX
    && pool.accrualRateTime + Sum(loans, RateTimeGrows(now)) + t.amount * apr * now <= U128_MAX
    && ceiling <= U64_MAX && 0 < ceiling * 1_000_000_000_000 / t.rate <= U64_MAX
  }

  lemma FundsExactly(pool: PoolBook, loans: seq<LoanState>, t: Borrowing.Terms, now: i64, a: Borrowing.Accruing)
    requires t.rate > 0 && t.amount > 0 && t.termPeriods > 0 && now >= 0
    requires pool.totalBorrowed <= pool.totalDeposits && pool.baseAprBps + pool.slopeAprBps <= U16_MAX
    requires AccruedAs(pool, loans, t.rewardMint, now, |loans|, a)
    ensures var lent := Borrowing.Lend(a.pool, t, a.accrued);
            (lent.Ok? && Borrowing.Issue(lent.value.0, t, lent.value.1, a.ceiling, now).Ok?) <==>
            Funded(pool, loans, t, now)
  {
    assert loans[..|loans|] == loans;
    LendsExactly(a.pool, t, a.accrued);
    var lent := Borrowing.Lend(a.pool, t, a.accrued);
    assert RateAsked(a.pool, t.amount) == RateAsked(pool, t.amount);
    if lent.Ok? {
      IssuesExactly(lent.value.0, t, lent.value.1, a.ceiling, now);
    }
  }

  lemma BorrowsExactly(b: Books, keys: seq<nat>, t: Borrowing.Terms, watch: Option<u64>, balance: u64, now: i64)
    requires |keys| == |b.loans| && t.rate > 0
    ensures var entered := Borrowing.Enter(b, keys, t, now);
            Borrowing.Borrow(b, keys, t, watch, balance, now).Ok? <==>
            && TermsInRange(t) && entered.Ok?
            && var a := entered.value.1;
               var lent := Borrowing.Lend(a.pool, t, a.accrued);
               lent.Ok? && Borrowing.Issue(lent.value.0, t, lent.value.1, a.ceiling, now).Ok?
  {
  }

  lemma EntersEachExactly(w: World, t: Borrowing.Terms, passed: seq<nat>)
    requires Sound(w) && Present(w.loans, passed)
    requires forall i :: 0 <= i < |passed| ==> EntersAs(w, t.operator, t.rewardMint, passed, i)
    ensures AllOpenLoansOf(w, t.operator, passed)
    ensures forall i :: 0 <= i < |passed| ==> w.loans[passed[i]].manualRepayment == None
    ensures forall k :: 1 <= k <= |passed| ==> FractionsFit(w.pool, Gather(w.loans, passed), w.clock, k)
  {
    var loans := Gather(w.loans, passed);
    forall i | 0 <= i < |passed|
      ensures passed[i] !in passed[..i] && w.loans[passed[i]].operator == t.operator && w.loans[passed[i]].IsOpen()
      ensures w.loans[passed[i]].manualRepayment == None && FractionsFit(w.pool, loans, w.clock, i + 1)
    {
      assert EntersAs(w, t.operator, t.rewardMint, passed, i) && loans[i] == w.loans[passed[i]];
    }
    forall k | 1 <= k <= |passed| ensures FractionsFit(w.pool, loans, w.clock, k) {
      assert FractionsFit(w.pool, loans, w.clock, (k - 1) + 1);
    }
    SweepRefusals.DistinctBefore(passed);
  }

  lemma EachEnters(w: World, t: Borrowing.Terms, passed: seq<nat>, i: nat)
    requires Sound(w) && AllOpenLoansOf(w, t.operator, passed) && i < |passed|
    requires w.loans[passed[i]].manualRepayment == None
    requires AccrualsFit(w.pool, Gather(w.loans, passed), t.rewardMint, w.clock)
    ensures EntersAs(w, t.operator, t.rewardMint, passed, i)
  {
    var loans := Gather(w.loans, passed);
    assert loans[i] == w.loans[passed[i]];
    SumBoundsTerm(w.loans, passed[i], Accrued);
    TotalsCoverSteps(w.pool, loans, t.rewardMint, w.clock, i);
    forall j | 0 <= j < i ensures passed[j] != passed[i] {}
  }

  lemma BooksBorrowExactly(w: World, t: Borrowing.Terms, passed: seq<nat>)
    requires Sound(w) && t.rate > 0 && Present(w.loans, passed)
    ensures var b, lane := BooksAt(w, t.operator, passed), (t.operator, t.rewardMint);
            Borrowing.Borrow(b, passed, t, w.Watch(lane), w.Rewards(lane).amount, w.clock).Ok? <==>
            TermsInRange(t) && LetIn(w, t, passed) && Funded(w.pool, b.loans, t, w.clock)
  {
    var b, lane := BooksAt(w, t.operator, passed), (t.operator, t.rewardMint);
    BorrowsExactly(b, passed, t, w.Watch(lane), w.Rewards(lane).amount, w.clock);
    EntersExactly(w, t, passed);
    var entered := Borrowing.Enter(b, passed, t, w.clock);
    if TermsInRange(t) && entered.Ok? {
      FundsExactly(w.pool, b.loans, t, w.clock, entered.value.1);
    }
  }

  /** Asked loan by loan or of all of them together, it is the same. */
  lemma ConditionsAgree(w: World, t: Borrowing.Terms, passed: seq<nat>)
    requires Sound(w) && TermsInRange(t) && Present(w.loans, passed)
    ensures LetIn(w, t, passed) && Funded(w.pool, Gather(w.loans, passed), t, w.clock) <==>
            && MayBorrow(w, t, passed) && WithinLimit(Gather(w.loans, passed), t, w.clock)
            && t.amount <= w.vault && RateAsked(w.pool, t.amount) <= t.maxAprBps
            && SumsFit(w.pool, Gather(w.loans, passed), t, w.clock)
  {
    if LetIn(w, t, passed) && Funded(w.pool, Gather(w.loans, passed), t, w.clock) {
      LetInMayBorrow(w, t, passed);
    }
    if MayBorrow(w, t, passed) && SumsFit(w.pool, Gather(w.loans, passed), t, w.clock) {
      MayBorrowIsLetIn(w, t, passed);
    }
  }

  lemma LetInMayBorrow(w: World, t: Borrowing.Terms, passed: seq<nat>)
    requires Sound(w) && TermsInRange(t) && Present(w.loans, passed)
    requires LetIn(w, t, passed) && Funded(w.pool, Gather(w.loans, passed), t, w.clock)
    ensures MayBorrow(w, t, passed) && WithinLimit(Gather(w.loans, passed), t, w.clock)
    ensures SumsFit(w.pool, Gather(w.loans, passed), t, w.clock)
  {
    var loans := Gather(w.loans, passed);
    EntersEachExactly(w, t, passed);
    DebtAtThisSecond(w, t.operator, passed);
    RemainingFits(w.pool, loans, t, w.clock);
  }

  /** The other sums fit if their totals with the new loan do. */
  lemma RemainingFits(pool: PoolBook, loans: seq<LoanState>, t: Borrowing.Terms, now: i64)
    requires TermsInRange(t) && Funded(pool, loans, t, now) && now >= 0
    requires forall k :: 1 <= k <= |loans| ==> FractionsFit(pool, loans, now, k)
    ensures SumsFit(pool, loans, t, now)
  {
    var apr := RateAsked(pool, t.amount);
    if pool.totalDeposits > 0 {
      MulMonotone(0, pool.totalBorrowed + t.amount, pool.slopeAprBps);
      DivCeilAtMost(pool.slopeAprBps * (pool.totalBorrowed + t.amount), pool.totalDeposits, -1);
    }
    MulMonotone(0, apr, t.amount);
    MulMonotone(0, now, t.amount * apr);
    MulMonotone(0, t.termPeriods * 2_592_000, t.amount * apr);
    DivAtLeast(t.amount * apr * (t.termPeriods * 2_592_000), 315_360_000_000, 0);
  }

  lemma MayBorrowIsLetIn(w: World, t: Borrowing.Terms, passed: seq<nat>)
    requires Sound(w) && TermsInRange(t) && MayBorrow(w, t, passed)
    requires SumsFit(w.pool, Gather(w.loans, passed), t, w.clock)
    ensures LetIn(w, t, passed) <==> WithinLimit(Gather(w.loans, passed), t, w.clock)
  {
    DebtAtThisSecond(w, t.operator, passed);
    forall i | 0 <= i < |passed| ensures EntersAs(w, t.operator, t.rewardMint, passed, i) {
      EachEnters(w, t, passed, i);
    }
  }

  /** In every sound world a borrow goes through exactly if its terms are in range, the operator may
      borrow, what it owes at this second and the new loan are within its limit, the pool can lend the
      amount at a rate it agreed to, and every sum still fits. */
  lemma BorrowRefusedExactly(w: World, t: Borrowing.Terms, passed: seq<nat>)
    requires Sound(w)
    ensures DoBorrow(w, t, passed).Ok? <==>
            && TermsInRange(t) && MayBorrow(w, t, passed)
            && WithinLimit(Gather(w.loans, passed), t, w.clock)
            && t.amount <= w.vault && RateAsked(w.pool, t.amount) <= t.maxAprBps
            && SumsFit(w.pool, Gather(w.loans, passed), t, w.clock)
  {
    if t.rate > 0 && Present(w.loans, passed) {
      AllowedBorrowIsPaid(w, t, passed);
      BooksBorrowExactly(w, t, passed);
      if TermsInRange(t) {
        ConditionsAgree(w, t, passed);
      }
    }
  }
}
