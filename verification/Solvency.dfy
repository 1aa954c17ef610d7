/** What sound books rule out: in every reachable state no checked subtraction fails, no vault runs
    dry, and the loans handed to a transaction are all of the operator's open loans. */
module Solvency {
  import opened Outcomes
  import opened Numbers
  import opened Sums
  import opened Loans
  import opened Pools
  import opened Operators
  import opened Settlement
  import opened Protocol
  import opened Ledger
  import opened Ceilings
  import opened Conversions
  import Lenders
  import Borrowing
  import Sweeping
  import SweepFacts

  // ----- Parts of a sum ---------------------------------------------------------------------

  /** A loan no sum sees. */
  const NO_LOAN: LoanState :=
    LoanState(0, 0, 0, 0, 0, 0, 0, 0, 0, 0, 0, 0, Repaid, 0, None)

  /** Loans at different places add up to no more than all of them. */
  lemma {:induction false} GatherWithin(loans: seq<LoanState>, at: seq<nat>, f: LoanState -> int)
    requires Present(loans, at) && DistinctPlaces(at)
    requires f(NO_LOAN) == 0 && forall i :: 0 <= i < |loans| ==> f(loans[i]) >= 0
    ensures Sum(Gather(loans, at), f) <= Sum(loans, f)
  {
    var none := seq(|at|, i requires 0 <= i < |at| => NO_LOAN);
    var rest := Scatter(loans, at, none);
    ScatterSum(loans, at, none, f);
    SumZero(none, f);
    forall p | 0 <= p < |rest| ensures f(rest[p]) >= 0 {
      var i := ScatterCovers(loans, at, none, p);
    }
    SumAtMost(rest, (l: LoanState) => 0, f);
    SumZero(rest, (l: LoanState) => 0);
  }

  lemma {:induction false} SumOfOnes<T>(xs: seq<T>, f: T -> int)
    requires forall i :: 0 <= i < |xs| ==> f(xs[i]) == 1
    ensures Sum(xs, f) == |xs|
  {
    if xs == [] {
    } else {
      SumOfOnes(xs[..|xs| - 1], f);
    }
  }

  predicate AllOpenLoansOf(w: World, operator: nat, at: seq<nat>) {
    && Present(w.loans, at) && DistinctPlaces(at)
    && forall i :: 0 <= i < |at| ==> w.loans[at[i]].operator == operator && w.loans[at[i]].IsOpen()
  }

  lemma AtMostItsOpenLoans(w: World, operator: nat, at: seq<nat>)
    requires Sound(w) && AllOpenLoansOf(w, operator, at)
    ensures |at| <= w.Account(operator).openLoans
  {
    var f := OpenLoansOf(operator);
    GatherWithin(w.loans, at, f);
    SumOfOnes(Gather(w.loans, at), f);
  }

  /** As many different open loans of the operator as it counts are all of them: nobody can leave
      one out of a borrow or a sweep. */
  lemma PassedIsEveryOpenLoan(w: World, operator: nat, at: seq<nat>, p: nat)
    requires Sound(w) && AllOpenLoansOf(w, operator, at) && |at| == w.Account(operator).openLoans
    requires p < |w.loans| && w.loans[p].operator == operator && w.loans[p].IsOpen()
    ensures p in at
  {
    if p !in at {
      AtMostItsOpenLoans(w, operator, at + [p]);
    }
  }

  // ----- A settlement fails only by an addition ---------------------------------------------

  /** Accrual sums that have this loan in them. */
  predicate Tracks(pool: PoolBook, l: LoanState) {
    && pool.accrualRate >= RateOf(l) && pool.accrualRateTime >= RateTimeOf(l) >= 0
    && pool.accrualRemainders >= RemainderOf(l)
  }

  /** Books that have this loan in them. */
  predicate Covers(pool: PoolBook, account: OperatorState, l: LoanState) {
    && pool.totalBorrowed >= l.outstanding && pool.accruedInterest >= l.accruedInterest
    && Tracks(pool, l)
    && account.totalDebt >= l.Debt() && account.openLoans >= OpenCount(l)
  }

  predicate CoversAll(b: Books) {
    var p, ls := b.pool, b.loans;
    && p.totalBorrowed >= Sum(ls, Outstanding) && p.accruedInterest >= Sum(ls, Accrued)
    && p.accrualRate >= Sum(ls, RateOf) && p.accrualRateTime >= Sum(ls, RateTimeOf)
    && p.accrualRemainders >= Sum(ls, RemainderOf)
    && b.account.totalDebt >= Sum(ls, Debt) && b.account.openLoans >= Sum(ls, OpenCount)
  }

  lemma CoversEach(b: Books, i: nat, now: int)
    requires CoversAll(b) && i < |b.loans|
    requires forall j :: 0 <= j < |b.loans| ==> b.loans[j].WellFormed(now)
    ensures Covers(b.pool, b.account, b.loans[i])
  {
    forall j | 0 <= j < |b.loans| ensures RateTimeOf(b.loans[j]) >= 0 {
      assert b.loans[j].WellFormed(now);
      MulMonotone(0, b.loans[j].lastAccrualAt, b.loans[j].Rate());
    }
    SumBoundsTerm(b.loans, i, Outstanding);
    SumBoundsTerm(b.loans, i, Accrued);
    SumBoundsTerm(b.loans, i, RateOf);
    SumBoundsTerm(b.loans, i, RateTimeOf);
    SumBoundsTerm(b.loans, i, RemainderOf);
    SumBoundsTerm(b.loans, i, Debt);
    SumBoundsTerm(b.loans, i, OpenCount);
  }

  /** Interest the loan books at `now`. */
  function Booked(l: LoanState, now: int): int {
    l.Unbooked(now) / ACCRUAL_DENOMINATOR
  }

  /** What of a payment goes to interest, and the principal it leaves. */
  function ToInterest(l: LoanState, now: int, maxAmount: int): int {
    Min(Min(maxAmount, DebtNow(l, now)), l.accruedInterest + Booked(l, now))
  }

  function PrincipalLeft(l: LoanState, now: int, maxAmount: int): int {
    l.outstanding - (Min(maxAmount, DebtNow(l, now)) - ToInterest(l, now, maxAmount))
  }

  /** The additions a settlement makes all fit: the interest into the operator's debt and the
      receivable, the paid interest into the deposits and, if the loan stays open, its new terms
      into the pool's sums. */
  predicate AdditionsFit(pool: PoolBook, account: OperatorState, l: LoanState, now: int, maxAmount: int) {
    && account.totalDebt + Booked(l, now) <= U64_MAX
    && pool.accruedInterest + Booked(l, now) <= U64_MAX
    && pool.totalDeposits + ToInterest(l, now, maxAmount) <= U64_MAX
    && (maxAmount < DebtNow(l, now) ==> TermsFit(pool, l, PrincipalLeft(l, now, maxAmount), now))
  }

  predicate TermsFit(pool: PoolBook, l: LoanState, left: int, now: int) {
    && pool.accrualRateTime - RateTimeOf(l) + left * l.aprBps * now <= U128_MAX
    && pool.accrualRemainders - RemainderOf(l) + l.Unbooked(now) % ACCRUAL_DENOMINATOR <= U128_MAX
  }

  /** The sums without this loan. */
  function Without(pool: PoolBook, l: LoanState): PoolBook
    requires Tracks(pool, l)
  {
    pool.(accrualRate := pool.accrualRate - RateOf(l),
          accrualRateTime := pool.accrualRateTime - RateTimeOf(l),
          accrualRemainders := pool.accrualRemainders - RemainderOf(l))
  }

  /** A tracked loan can always be taken out. */
  lemma UntrackNeverFails(pool: PoolBook, l: LoanState)
    requires 0 <= l.lastAccrualAt && Tracks(pool, l)
    ensures pool.Untrack(l) == Ok(Without(pool, l))
  {
  }

  lemma AccrueFitsExactly(l: LoanState, now: i64)
    requires l.WellFormed(now) && l.IsOpen()
    ensures Booked(l, now) >= 0
    ensures l.Accrue(now).Ok? <==> l.accruedInterest + Booked(l, now) <= U64_MAX
    ensures l.Accrue(now).Ok? ==>
            l.Accrue(now).value == (l.(accruedInterest := l.accruedInterest + Booked(l, now), lastAccrualAt := now,
                                       interestRemainder := l.Unbooked(now) % ACCRUAL_DENOMINATOR), Booked(l, now))
  {
    if now > l.lastAccrualAt {
      AccrualFitsExactly(l, now);
    } else {
      assert l.Unbooked(now) == l.interestRemainder;
    }
  }

  /** The loan after it is settled, when its debt fits. */
  lemma PaidLoan(l: LoanState, now: i64, maxAmount: u64)
    requires l.WellFormed(now) && l.IsOpen() && maxAmount > 0 && Booked(l, now) >= 0
    requires DebtNow(l, now) <= U64_MAX
    ensures l.Accrue(now).Ok?
    ensures var r := l.Accrue(now).value.0.ApplyRepayment(maxAmount);
            && r.Ok?
            && r.value.1 == Repayment(ToInterest(l, now, maxAmount), l.outstanding - PrincipalLeft(l, now, maxAmount))
            && (r.value.0.IsOpen() <==> maxAmount < DebtNow(l, now))
            && r.value.0.outstanding == PrincipalLeft(l, now, maxAmount)
            && r.value.0.accruedInterest == l.accruedInterest + Booked(l, now) - ToInterest(l, now, maxAmount)
            && r.value.0.interestRemainder == l.Unbooked(now) % ACCRUAL_DENOMINATOR
            && r.value.0.lastAccrualAt == now && r.value.0.aprBps == l.aprBps
  {
    AccrueFitsExactly(l, now);
  }

  lemma RetrackFitsExactly(pool: PoolBook, l: LoanState, m: LoanState, now: i64)
    requires 0 <= now && l.IsOpen() && m.aprBps == l.aprBps && m.outstanding <= l.outstanding && m.lastAccrualAt == now
    requires m.interestRemainder == l.Unbooked(now) % ACCRUAL_DENOMINATOR && Tracks(pool, l)
    ensures Without(pool, l).Track(m).Ok? <==> (m.IsOpen() ==> TermsFit(pool, l, m.outstanding, now))
  {
    MulMonotone(m.outstanding, l.outstanding, l.aprBps);
    MulMonotone(0, now, m.Rate());
  }

  /** With the loan in the books, a settlement goes through exactly when every addition fits: none
      of its checked subtractions can fail. */
  lemma SettleFailsOnlyByAddition(pool: PoolBook, account: OperatorState, l: LoanState, now: i64, maxAmount: u64)
    requires l.WellFormed(now) && l.IsOpen() && maxAmount > 0 && Covers(pool, account, l)
    ensures Settle(pool, account, l, now, maxAmount).Ok? <==> AdditionsFit(pool, account, l, now, maxAmount)
  {
    UntrackNeverFails(pool, l);
    AccrueFitsExactly(l, now);
    if DebtNow(l, now) <= U64_MAX {
      PaidLoan(l, now, maxAmount);
      RetrackFitsExactly(pool, l, l.Accrue(now).value.0.ApplyRepayment(maxAmount).value.0, now);
    }
  }

  lemma FollowingStillCovers(b: Books, c: Books, paid: int)
    requires CoversAll(b) && BooksFollow(b, c, paid)
    ensures CoversAll(c)
  {
  }

  // ----- Accruing before a borrow -----------------------------------------------------------

  lemma CeilingFitsExactly(l: LoanState, now: i64)
    requires l.WellFormed(now) && l.IsOpen() && l.lastAccrualAt == now
    ensures l.DebtCeiling(now).Ok? <==> CeilingOf(l, now) <= U64_MAX
    ensures l.DebtCeiling(now).Ok? ==> l.DebtCeiling(now).value == CeilingOf(l, now)
    ensures CeilingOf(l, now) >= 0
  {
    var until := Max(l.dueAt, now);
    if until > now {
      AccrualFitsExactly(l, until);
    } else {
      assert l.Unbooked(now) == l.interestRemainder;
    }
  }

  /** An unflagged loan whose interest at `now` fits it, the running totals and, with its new terms,
      the sums. */
  predicate AccrualFits(a: Borrowing.Accruing, l: LoanState, mint: nat, now: int) {
    && l.manualRepayment == None
    && l.accruedInterest + Booked(l, now) <= U64_MAX
    && a.accrued + Booked(l, now) <= U64_MAX
    && TermsFit(a.pool, l, l.outstanding, now)
    && (l.rewardMint == mint ==> a.ceiling + CeilingOf(l, now) <= U64_MAX)
  }

  /** Bringing a tracked open loan up to `now` fails only if it is flagged, or its interest, the running
      totals or its new terms do not fit: taking it out of the sums never does. */
  lemma AccrueOneFailsOnlyByAddition(a: Borrowing.Accruing, k: nat, mint: nat, now: i64)
    requires k < |a.loans| && a.loans[k].IsOpen() && a.loans[k].WellFormed(now) && Tracks(a.pool, a.loans[k])
    ensures Borrowing.AccrueOne(a, k, mint, now).Ok? <==> AccrualFits(a, a.loans[k], mint, now)
  {
    var l := a.loans[k];
    UntrackNeverFails(a.pool, l);
    AccrueFitsExactly(l, now);
    if l.Accrue(now).Ok? {
      var m := l.Accrue(now).value.0;
      RetrackFitsExactly(a.pool, l, m, now);
      CeilingFitsExactly(m, now);
      AccrualKeepsCeiling(l, now);
    }
  }

  // ----- In every reachable state -----------------------------------------------------------

  lemma BooksCoverGathered(w: World, operator: nat, at: seq<nat>)
    requires Sound(w) && Present(w.loans, at) && DistinctPlaces(at) && AllOf(Gather(w.loans, at), operator)
    ensures CoversAll(Books(w.pool, w.Account(operator), Gather(w.loans, at)))
    ensures forall i :: 0 <= i < |at| ==> Gather(w.loans, at)[i].WellFormed(w.clock)
  {
    forall i | 0 <= i < |w.loans| ensures RateTimeOf(w.loans[i]) >= 0 {
      MulMonotone(0, w.loans[i].lastAccrualAt, w.loans[i].Rate());
    }
    GatherWithin(w.loans, at, Outstanding);
    GatherWithin(w.loans, at, Accrued);
    GatherWithin(w.loans, at, RateOf);
    GatherWithin(w.loans, at, RateTimeOf);
    GatherWithin(w.loans, at, RemainderOf);
    GatherWithin(w.loans, at, DebtOwedBy(operator));
    GatherWithin(w.loans, at, OpenLoansOf(operator));
    OwnSums(Gather(w.loans, at), operator, operator);
  }

  /** A repayment is refused only for a closed loan, for nothing, or for an addition that does not
      fit: the books never come up short. */
  lemma RepayRefusedExactly(w: World, loan: nat, maxAmount: u64)
    requires Sound(w) && loan < |w.loans|
    ensures var l := w.loans[loan];
            DoRepay(w, loan, maxAmount).Ok? <==>
            l.IsOpen() && maxAmount > 0 && AdditionsFit(w.pool, w.Account(l.operator), l, w.clock, maxAmount)
  {
    var l := w.loans[loan];
    if l.IsOpen() && maxAmount > 0 {
      BooksCoverGathered(w, l.operator, [loan]);
      CoversEach(Books(w.pool, w.Account(l.operator), Gather(w.loans, [loan])), 0, w.clock);
      SettleFailsOnlyByAddition(w.pool, w.Account(l.operator), l, w.clock, maxAmount);
    }
  }

  /** The vault holds exactly the free liquidity. */
  lemma FreeLiquidityIsTheVault(w: World)
    requires Sound(w)
    ensures w.pool.FreeLiquidity() == Ok(w.vault)
  {
  }

  /** A lender who is quoted a withdrawal gets it. */
  lemma QuotedWithdrawalIsPaid(w: World, lender: nat, maxAmount: u64)
    requires Sound(w) && lender < |w.lenders|
    ensures DoWithdraw(w, lender, maxAmount).Ok? <==> w.pool.Withdraw(w.lenders[lender], maxAmount, w.clock).Ok?
  {
    FreeLiquidityIsTheVault(w);
    if w.pool.Withdraw(w.lenders[lender], maxAmount, w.clock).Ok? {
      Lenders.WithdrawalBooksAlwaysFit(w.pool, w.lenders[lender], maxAmount, w.clock);
      Lenders.WithdrawalAtPrice(w.pool, w.lenders[lender], maxAmount, w.clock);
    }
  }

  lemma BorrowTakesWhatIsFree(b: Books, keys: seq<nat>, t: Borrowing.Terms, r: Borrowing.Borrowed, now: i64)
    requires |keys| == |b.loans| && Borrowing.BorrowHolds(b, keys, t, r, now)
    ensures t.amount <= b.pool.totalDeposits - b.pool.totalBorrowed
  {
  }

  /** A borrow the books allow is paid out: the vault never runs dry. */
  lemma AllowedBorrowIsPaid(w: World, t: Borrowing.Terms, passed: seq<nat>)
    requires Sound(w) && t.rate > 0 && Present(w.loans, passed)
    ensures var lane := (t.operator, t.rewardMint);
            DoBorrow(w, t, passed).Ok? <==>
            Borrowing.Borrow(Books(w.pool, w.Account(t.operator), Gather(w.loans, passed)), passed, t, w.Watch(lane),
                             w.Rewards(lane).amount, w.clock).Ok?
  {
    var b := Books(w.pool, w.Account(t.operator), Gather(w.loans, passed));
    var lane := (t.operator, t.rewardMint);
    var r := Borrowing.Borrow(b, passed, t, w.Watch(lane), w.Rewards(lane).amount, w.clock);
    if r.Ok? {
      assert t.amount <= w.vault by {
        Borrowing.BorrowKeeps(b, passed, t, w.Watch(lane), w.Rewards(lane).amount, w.clock);
        BorrowTakesWhatIsFree(b, passed, t, r.value, w.clock);
      }
    }
  }

  lemma EasingChangesNoAddition(pool: PoolBook, account: OperatorState, l: LoanState, m: Sweeping.Measurement, k: nat,
                                now: int, paid: int)
    requires m.For(|m.plan|) && k < |m.plan|
    ensures AdditionsFit(pool, account, Sweeping.Eased(l, m, k), now, paid) <==>
            AdditionsFit(pool, account, l, now, paid)
    ensures Covers(pool, account, l) ==> Covers(pool, account, Sweeping.Eased(l, m, k))
  {
  }

  lemma PartFailsOnlyByAddition(c: Books, m: Sweeping.Measurement, now: i64, k: nat)
    requires m.For(|c.loans|) && k < |c.loans| && m.pays[k] > 0
    requires c.loans[k].WellFormed(now) && c.loans[k].IsOpen() && Covers(c.pool, c.account, c.loans[k])
    ensures Sweeping.SettlePart(c, m, now, k).Ok? <==> AdditionsFit(c.pool, c.account, c.loans[k], now, m.pays[k])
  {
    var l, paid := c.loans[k], m.pays[k];
    var eased := Sweeping.Eased(l, m, k);
    EasingChangesNoAddition(c.pool, c.account, l, m, k, now, paid);
    SweepFacts.EasedIsSame(l, m, k, now);
    SettleFailsOnlyByAddition(c.pool, c.account, eased, now, paid);
  }

  /** In books that cover the loans, each settlement fails only by an addition, whatever the loans
      before it paid. */
  lemma {:induction false} CoveredPartsSettle(b: Books, m: Sweeping.Measurement, now: i64, k: nat, c: Books)
    requires m.For(|b.loans|) && k < |b.loans| == |c.loans| && SweepFacts.Sweepable(b.loans, now) && CoversAll(b)
    requires forall i :: 0 <= i < |b.loans| ==> m.pays[i] <= DebtNow(b.loans[i], now)
    requires Sweeping.SettleFirst(b, m, now, k) == Ok(c) && m.pays[k] > 0
    ensures Sweeping.SettlePart(c, m, now, k).Ok? <==> AdditionsFit(c.pool, c.account, b.loans[k], now, m.pays[k])
  {
    assert CoversAll(c) && c.loans[k] == b.loans[k] by {
      SweepFacts.SettleFirstFollows(b, m, now, k);
      FollowingStillCovers(b, c, Total(m.pays[..k]));
    }
    SettledStayWellFormed(b, m, now, k);
    CoversEach(c, k, now);
    PartFailsOnlyByAddition(c, m, now, k);
  }

  lemma {:induction false} SettledStayWellFormed(b: Books, m: Sweeping.Measurement, now: i64, k: nat)
    requires m.For(|b.loans|) && k <= |b.loans| && SweepFacts.Sweepable(b.loans, now)
    requires forall i :: 0 <= i < |b.loans| ==> m.pays[i] <= DebtNow(b.loans[i], now)
    requires Sweeping.SettleFirst(b, m, now, k).Ok?
    ensures var c := Sweeping.SettleFirst(b, m, now, k).value;
            forall i :: 0 <= i < |b.loans| ==> c.loans[i].WellFormed(now)
  {
    SweepFacts.SettleFirstFollows(b, m, now, k);
    var c := Sweeping.SettleFirst(b, m, now, k).value;
    forall i | 0 <= i < |b.loans| ensures c.loans[i].WellFormed(now) {
      assert b.loans[i].WellFormed(now);
      if i < k {
        assert SweepFacts.SettledTo(b.loans[i], c.loans[i], m, i, now);
      }
    }
  }

  function BooksAt(w: World, operator: nat, at: seq<nat>): Books
    requires Present(w.loans, at)
  {
    Books(w.pool, w.Account(operator), Gather(w.loans, at))
  }

  /** Measured parts of loans the books cover, none more than its loan's debt. */
  predicate CoveredParts(b: Books, m: Sweeping.Measurement, now: int) {
    && m.For(|b.loans|) && AllSameMoney(b.loans, m.loans)
    && CoversAll(b.(loans := m.loans)) && SweepFacts.Sweepable(m.loans, now)
    && forall i :: 0 <= i < |b.loans| ==> m.pays[i] <= DebtNow(m.loans[i], now)
  }

  lemma MeasuredPartsCovered(b: Books, reward: Sweeping.RewardAccount, watch: u64, terms: ConversionTerms, rate: u64,
                             now: i64, m: Sweeping.Measurement)
    requires CoversAll(b) && SweepFacts.Sweepable(b.loans, now) && terms.Accepted() && rate > 0
    requires Sweeping.Measure(b.loans, reward, watch, terms, rate, now) == Ok(m)
    ensures CoveredParts(b, m, now)
  {
    SweepFacts.PartsHoldAll(b.loans, reward, watch, terms, rate, now);
    SameMoneySameSums(b.loans, m.loans);
  }

  lemma SweptBooksCover(w: World, operator: nat, mint: nat, passed: seq<nat>)
    requires Sound(w) && Swept(w, operator, mint, passed).Ok?
    ensures var b := BooksAt(w, operator, Swept(w, operator, mint, passed).value);
            CoversAll(b) && SweepFacts.Sweepable(b.loans, w.clock)
  {
    SweptPlaces(w, operator, mint, passed);
    BooksCoverGathered(w, operator, Swept(w, operator, mint, passed).value);
  }

  lemma SameAdditions(pool: PoolBook, account: OperatorState, l: LoanState, m: LoanState, now: int, paid: int)
    requires SameMoney(l, m)
    ensures AdditionsFit(pool, account, m, now, paid) <==> AdditionsFit(pool, account, l, now, paid)
  {
  }

  lemma {:induction false} MeasuredPartsSettle(b: Books, m: Sweeping.Measurement, now: i64, k: nat, c: Books)
    requires CoveredParts(b, m, now) && k < |b.loans| == |c.loans| && m.pays[k] > 0
    requires Sweeping.SettleFirst(b.(loans := m.loans), m, now, k) == Ok(c)
    ensures Sweeping.SettlePart(c, m, now, k).Ok? <==> AdditionsFit(c.pool, c.account, b.loans[k], now, m.pays[k])
  {
    CoveredPartsSettle(b.(loans := m.loans), m, now, k, c);
    SameAdditions(c.pool, c.account, b.loans[k], m.loans[k], now, m.pays[k]);
  }

  /** In every sound world, once a sweep has measured its parts, each loan's settlement fails only by
      an addition that does not fit, whatever the loans before it paid. */
  lemma {:induction false} SweepSettlesUnlessAdditionFails(w: World, operator: nat, mint: nat, rate: u64,
                                                           passed: seq<nat>, m: Sweeping.Measurement, k: nat, c: Books)
    requires Sound(w) && rate > 0 && (operator, mint) in w.watches && mint in w.conversions
    requires Swept(w, operator, mint, passed).Ok?
    requires var b := BooksAt(w, operator, Swept(w, operator, mint, passed).value);
             && Sweeping.Measure(b.loans, w.Rewards((operator, mint)), w.watches[(operator, mint)],
                                 w.conversions[mint].terms, rate, w.clock) == Ok(m)
             && m.For(|b.loans|) && k < |b.loans| == |c.loans| && m.pays[k] > 0
             && Sweeping.SettleFirst(b.(loans := m.loans), m, w.clock, k) == Ok(c)
    ensures var at := Swept(w, operator, mint, passed).value;
            Sweeping.SettlePart(c, m, w.clock, k).Ok? <==>
            AdditionsFit(c.pool, c.account, w.loans[at[k]], w.clock, m.pays[k])
  {
    var b := BooksAt(w, operator, Swept(w, operator, mint, passed).value);
    SweptBooksCover(w, operator, mint, passed);
    assert CoveredParts(b, m, w.clock) by {
      MeasuredPartsCovered(b, w.Rewards((operator, mint)), w.watches[(operator, mint)], w.conversions[mint].terms, rate,
                           w.clock, m);
    }
    MeasuredPartsSettle(b, m, w.clock, k, c);
  }

  // ----- Every loan handed over to a borrow -------------------------------------------------

  lemma {:induction false} PrefixWithin(loans: seq<LoanState>, passed: seq<nat>, moved: seq<LoanState>, k: nat,
                                        f: LoanState -> int)
    requires Present(loans, passed) && k < |passed| == |moved| && DistinctPlaces(passed[..k + 1])
    requires moved[k..] == Gather(loans, passed)[k..]
    requires f(NO_LOAN) == 0 && forall i :: 0 <= i < |loans| ==> f(loans[i]) >= 0
    requires forall i :: 0 <= i <= k ==> f(moved[i]) >= 0
    ensures f(moved[k]) <= Sum(loans, f) + Sum(moved, f) - Sum(Gather(loans, passed), f)
  {
    var all := Gather(loans, passed);
    var first, rest := moved[..k + 1], moved[k + 1..];
    assert all == Gather(loans, passed[..k + 1]) + rest && moved == first + rest by {
      assert moved[k..][1..] == rest && all[k..][1..] == all[k + 1..];
      assert all == all[..k + 1] + all[k + 1..];
    }
    SumConcat(Gather(loans, passed[..k + 1]), rest, f);
    SumConcat(first, rest, f);
    GatherWithin(loans, passed[..k + 1], f);
    SumBoundsTerm(first, k, f);
  }

  lemma ListedAreDistinct(passed: seq<nat>, loans: seq<LoanState>, operator: nat, k: nat)
    requires k < |passed| == |loans| && forall i :: 0 <= i <= k ==> Borrowing.ListedOnce(passed, loans, operator, i)
    ensures DistinctPlaces(passed[..k + 1])
  {
    var first := passed[..k + 1];
    forall i, j | 0 <= i < j < |first| ensures first[i] != first[j] {
      assert Borrowing.ListedOnce(passed, loans, operator, j);
      assert passed[i] in passed[..j];
    }
  }

  /** However many of the loans handed over were brought up before it, the sums still have the next. */
  lemma {:induction false} NextStillTracked(w: World, operator: nat, mint: nat, passed: seq<nat>, k: nat,
                                            a: Borrowing.Accruing)
    requires Sound(w) && Present(w.loans, passed) && k < |passed|
    requires Borrowing.AccrueFirst(w.pool, passed, Gather(w.loans, passed), operator, mint, w.clock, k) == Ok(a)
    requires Borrowing.ListedOnce(passed, Gather(w.loans, passed), operator, k)
    ensures |a.loans| == |passed| && a.loans[k] == w.loans[passed[k]] && Tracks(a.pool, a.loans[k])
  {
    var loans := Gather(w.loans, passed);
    Borrowing.AccrueFirstFollows(w.pool, passed, loans, operator, mint, w.clock, k);
    Borrowing.AccrueFirstLeavesRest(w.pool, passed, loans, operator, mint, w.clock, k);
    forall i | 0 <= i <= k ensures Borrowing.ListedOnce(passed, loans, operator, i) && RateTimeOf(a.loans[i]) >= 0 {
      assert i < k ==> Borrowing.BroughtUp(passed, loans, operator, i, a.loans[i], w.clock);
      MulMonotone(0, a.loans[i].lastAccrualAt, a.loans[i].Rate());
    }
    forall i | 0 <= i < |w.loans| ensures RateTimeOf(w.loans[i]) >= 0 {
      MulMonotone(0, w.loans[i].lastAccrualAt, w.loans[i].Rate());
    }
    ListedAreDistinct(passed, loans, operator, k);
    PrefixWithin(w.loans, passed, a.loans, k, RateOf);
    PrefixWithin(w.loans, passed, a.loans, k, RateTimeOf);
    PrefixWithin(w.loans, passed, a.loans, k, RemainderOf);
  }

  /** In every sound world, each loan handed over to a borrow is refused exactly if it is not a new
      open loan of the operator, is flagged, or its interest, the running totals or its terms do not
      fit: the sums never come up short. */
  lemma BorrowAccruesUnlessAdditionFails(w: World, operator: nat, mint: nat, passed: seq<nat>, k: nat,
                                         a: Borrowing.Accruing)
    requires Sound(w) && Present(w.loans, passed) && k < |passed|
    requires Borrowing.AccrueFirst(w.pool, passed, Gather(w.loans, passed), operator, mint, w.clock, k) == Ok(a)
    ensures var l := w.loans[passed[k]];
            Borrowing.AccrueFirst(w.pool, passed, Gather(w.loans, passed), operator, mint, w.clock, k + 1).Ok? <==>
            && Borrowing.ListedOnce(passed, Gather(w.loans, passed), operator, k)
            && AccrualFits(a, l, mint, w.clock)
  {
    var loans := Gather(w.loans, passed);
    if Borrowing.ListedOnce(passed, loans, operator, k) {
      NextStillTracked(w, operator, mint, passed, k, a);
      AccrueOneFailsOnlyByAddition(a, k, mint, w.clock);
    }
  }
}
