/** Issuing a loan: the limit checked against every open loan's debt, the rate, the watch on the
    reward account and the allowance the loan is repaid from. */
module Borrowing {
  import opened Outcomes
  import opened Numbers
  import opened Sums
  import opened Loans
  import opened Pools
  import opened Operators
  import opened Settlement
  import opened SharePrice
  import opened Conversions
  import opened Ceilings

  /** What the operator signs for, with the limit and the rate the attestor vouched for. */
  datatype Terms = Terms(
    operator: nat, rewardMint: nat, nonce: u64, amount: u64, termPeriods: u8, sweepBps: u16, maxAprBps: u16,
    limit: u64, rate: u64)

  datatype Accruing = Accruing(pool: PoolBook, loans: seq<LoanState>, accrued: u64, ceiling: u64)

  predicate ListedOnce(keys: seq<nat>, loans: seq<LoanState>, operator: nat, k: nat)
    requires k < |keys| == |loans|
  {
    keys[k] !in keys[..k] && loans[k].operator == operator && loans[k].IsOpen()
  }

  /** One open loan brought up to `now`, with the pool's sums and the running totals. */
  datatype AccruedLoan = AccruedLoan(pool: PoolBook, loan: LoanState, accrued: u64, ceiling: u64)

  function AccrueLoan(pool: PoolBook, l: LoanState, accrued: u64, ceiling: u64, mint: nat,
                      now: i64): Result<AccruedLoan> {
    if l.manualRepayment != None then Err(ManualRepaymentPending) else
    var untracked :- pool.Untrack(l);
    var (loan, interest) :- l.Accrue(now);
    var total :- U64(accrued + interest);
    var tracked :- untracked.Track(loan);
    var debt :- if loan.rewardMint == mint then loan.DebtCeiling(now) else Ok(0);
    var most :- U64(ceiling + debt);
    Ok(AccruedLoan(tracked, loan, total, most))
  }

  function AccrueOne(a: Accruing, k: nat, mint: nat, now: i64): (r: Result<Accruing>)
    requires k < |a.loans|
    ensures r.Ok? ==> |r.value.loans| == |a.loans|
  {
    var s :- AccrueLoan(a.pool, a.loans[k], a.accrued, a.ceiling, mint, now);
    Ok(Accruing(s.pool, a.loans[k := s.loan], s.accrued, s.ceiling))
  }

  /** `accrue_open_loans` after its first `n` loans. */
  function AccrueFirst(pool: PoolBook, keys: seq<nat>, loans: seq<LoanState>, operator: nat, mint: nat, now: i64,
                       n: nat): (r: Result<Accruing>)
    requires |keys| == |loans| && n <= |loans|
    ensures r.Ok? ==> |r.value.loans| == |loans|
  {
    if n == 0 then Ok(Accruing(pool, loans, 0, 0)) else
    var a :- AccrueFirst(pool, keys, loans, operator, mint, now, n - 1);
    :- Require(ListedOnce(keys, loans, operator, n - 1), OpenLoansMismatch);
    AccrueOne(a, n - 1, mint, now)
  }

  /** One loan of those handed over: refused, or accrued on its own. */
  function AccrueIfListed(pool: PoolBook, seen: bool, l: LoanState, operator: nat, accrued: u64, ceiling: u64,
                          mint: nat,
                          now: i64): Result<AccruedLoan> {
    if seen || l.operator != operator || !l.IsOpen() then Err(OpenLoansMismatch) else
    AccrueLoan(pool, l, accrued, ceiling, mint, now)
  }

  lemma AccrueNext(pool: PoolBook, keys: seq<nat>, loans: seq<LoanState>, operator: nat, mint: nat, now: i64, n: nat)
    requires |keys| == |loans| && n < |loans| && AccrueFirst(pool, keys, loans, operator, mint, now, n).Ok?
    ensures var a := AccrueFirst(pool, keys, loans, operator, mint, now, n).value;
            && a.loans[n] == loans[n]
            && AccrueFirst(pool, keys, loans, operator, mint, now, n + 1)
               == match AccrueIfListed(a.pool, keys[n] in keys[..n], loans[n], operator, a.accrued, a.ceiling, mint,
                                       now)
                  case Ok(s) => Ok(Accruing(s.pool, a.loans[n := s.loan], s.accrued, s.ceiling))
                  case Err(e) => Err(e)
  {
    AccrueFirstLeavesRest(pool, keys, loans, operator, mint, now, n);
    var a := AccrueFirst(pool, keys, loans, operator, mint, now, n).value;
    assert a.loans[n..][0] == loans[n..][0];
  }

  /** Whatever refuses a loan refuses the whole list. */
  lemma {:induction false} RefusalStays(pool: PoolBook, keys: seq<nat>, loans: seq<LoanState>, operator: nat, mint: nat,
                                        now: i64, k: nat, n: nat)
    requires |keys| == |loans| && k <= n <= |loans| && AccrueFirst(pool, keys, loans, operator, mint, now, k).Err?
    ensures AccrueFirst(pool, keys, loans, operator, mint, now, n)
         == AccrueFirst(pool, keys, loans, operator, mint, now, k)
  {
    if k == n {
    } else {
      RefusalStays(pool, keys, loans, operator, mint, now, k, n - 1);
    }
  }

  function AccrueOpenLoans(pool: PoolBook, keys: seq<nat>, loans: seq<LoanState>, operator: nat, openLoans: u32,
                           mint: nat, now: i64): (r: Result<Accruing>)
    requires |keys| == |loans|
    ensures r.Ok? ==> |r.value.loans| == |loans|
  {
    if |loans| != openLoans then Err(OpenLoansMismatch) else
    AccrueFirst(pool, keys, loans, operator, mint, now, |loans|)
  }

  /** `watch` is where the reward watch now stands, `allowance` what the operator account may take
      from the reward account. */
  datatype Borrowed = Borrowed(books: Books, loan: LoanState, watch: u64, allowance: u64)

  function NewLoan(t: Terms, aprBps: u16, now: i64, dueAt: i64): LoanState {
    LoanState(t.operator, t.rewardMint, t.nonce, t.amount, t.amount, 0, 0, now, dueAt, now,
              aprBps, t.sweepBps, Active, 0, None)
  }

  function CheckTerms(t: Terms): Check {
    if t.amount == 0 then Fail(InvalidAmount)
    else if !(1 <= t.termPeriods <= MAX_TERM_PERIODS) then Fail(InvalidTerm)
    else if !(1 <= t.sweepBps <= 10_000) then Fail(InvalidSweepShare)
    else Pass
  }

  /** The operator's side: the nonce spent, the debt within the limit once every open loan is
      brought up to `now`. */
  function Admit(account: OperatorState, t: Terms, accrued: u64): Result<OperatorState> {
    var grown :- U64(account.totalDebt + accrued);
    var debt :- U64(grown + t.amount);
    :- Require(debt <= t.limit, CreditLimitExceeded);
    var open :- U32(account.openLoans + 1);
    Ok(account.(totalDebt := debt, openLoans := open))
  }

  /** The pool's side: within the free liquidity, and at a rate the operator agreed to. */
  function Lend(pool: PoolBook, t: Terms, accrued: u64): Result<(PoolBook, u16)> {
    var receivable :- U64(pool.accruedInterest + accrued);
    var booked := pool.(accruedInterest := receivable);
    var free :- booked.FreeLiquidity();
    :- Require(t.amount <= free, InsufficientLiquidity);
    var aprBps :- booked.QuoteAprBps(t.amount);
    :- Require(aprBps <= t.maxAprBps, RateAboveMaximum);
    var borrowed :- U64(booked.totalBorrowed + t.amount);
    Ok((booked.(totalBorrowed := borrowed), aprBps))
  }

  /** The debt of every open loan repaid from this token, in reward units, rounded down. */
  function AllowanceFor(ceiling: u64, rate: u64): Result<u64>
    requires rate > 0
  {
    var allowance :- U64(ceiling * RATE_UNIT / rate);
    :- Require(allowance > 0, DelegationTooSmall);
    Ok(allowance)
  }

  /** The new loan in the pool's sums, and the allowance that covers it and `ceiling`, the most the
      token's other loans can be owed. */
  datatype Issuing = Issuing(pool: PoolBook, loan: LoanState, allowance: u64)

  function Issue(pool: PoolBook, t: Terms, aprBps: u16, ceiling: u64, now: i64): Result<Issuing>
    requires t.rate > 0
  {
    var dueAt :- I64(now + t.termPeriods * REPAYMENT_PERIOD);
    var loan := NewLoan(t, aprBps, now, dueAt);
    var tracked :- pool.Track(loan);
    var own :- loan.DebtCeiling(now);
    var most :- U64(ceiling + own);
    var allowance :- AllowanceFor(most, t.rate);
    Ok(Issuing(tracked, loan, allowance))
  }

  /** The operator let in: the nonce spent, every open loan brought up to `now`, the limit kept. */
  function Enter(b: Books, keys: seq<nat>, t: Terms, now: i64): (r: Result<(OperatorState, Accruing)>)
    requires |keys| == |b.loans|
    ensures r.Ok? ==> |r.value.1.loans| == |b.loans|
  {
    var window :- b.account.window.Consume(t.nonce);
    :- Require(!b.account.overdue, OperatorOverdue);
    :- Require(b.account.openLoans < MAX_OPEN_LOANS, TooManyOpenLoans);
    var a :- AccrueOpenLoans(b.pool, keys, b.loans, t.operator, b.account.openLoans, t.rewardMint, now);
    var account :- Admit(b.account.(window := window), t, a.accrued);
    Ok((account, a))
  }

  /** The loan taken out; `ceiling` is the most the token's other open loans can be owed. */
  datatype TakenOut = TakenOut(books: Books, loan: LoanState, ceiling: u64, allowance: u64)

  function TakeOut(b: Books, keys: seq<nat>, t: Terms, now: i64): Result<TakenOut>
    requires |keys| == |b.loans| && t.rate > 0
  {
    var (account, a) :- Enter(b, keys, t, now);
    var (lent, aprBps) :- Lend(a.pool, t, a.accrued);
    var i :- Issue(lent, t, aprBps, a.ceiling, now);
    Ok(TakenOut(Books(i.pool, account, a.loans), i.loan, a.ceiling, i.allowance))
  }

  /** `handle_borrow`. `watch` is None until this operator's first loan on the token. */
  function Borrow(b: Books, keys: seq<nat>, t: Terms, watch: Option<u64>, balance: u64, now: i64): Result<Borrowed>
    requires |keys| == |b.loans| && t.rate > 0
  {
    var terms := CheckTerms(t);
    if terms.Fail? then Err(terms.error) else
    var o :- TakeOut(b, keys, t, now);
    Ok(Borrowed(o.books, o.loan, if o.ceiling == 0 || watch == None then balance else watch.value, o.allowance))
  }

  // ----- What a borrow keeps ----------------------------------------------------------------

  /** The loans' books after accruing some of them: the sums follow the loans, and the interest
      they booked is what the pool's and the operator's books are about to follow. */
  predicate AccrualFollows(pool: PoolBook, loans: seq<LoanState>, a: Accruing) {
    && |a.loans| == |loans|
    && a.pool == pool.(accrualRate := a.pool.accrualRate, accrualRateTime := a.pool.accrualRateTime,
                       accrualRemainders := a.pool.accrualRemainders)
    && Sum(a.loans, Outstanding) == Sum(loans, Outstanding)
    && Sum(a.loans, Accrued) == Sum(loans, Accrued) + a.accrued
    && Sum(a.loans, Debt) == Sum(loans, Debt) + a.accrued
    && Sum(a.loans, OpenCount) == Sum(loans, OpenCount)
    && a.pool.accrualRate - pool.accrualRate == Sum(a.loans, RateOf) - Sum(loans, RateOf)
    && a.pool.accrualRateTime - pool.accrualRateTime == Sum(a.loans, RateTimeOf) - Sum(loans, RateTimeOf)
    && a.pool.accrualRemainders - pool.accrualRemainders == Sum(a.loans, RemainderOf) - Sum(loans, RemainderOf)
  }

  /** What the loans booked is gone from what the pool counts as earned and not booked. */
  predicate EarnedBooked(p: PoolBook, q: PoolBook, booked: int, now: int) {
    Earned(q, now) + ACCRUAL_DENOMINATOR * booked == Earned(p, now)
  }

  /** A loan accrued to `now`: only its interest moved. */
  predicate OnlyAccrued(l: LoanState, m: LoanState, now: i64) {
    && m == l.(accruedInterest := m.accruedInterest, interestRemainder := m.interestRemainder, lastAccrualAt := now)
    && m.WellFormed(now)
    && m.Debt() == DebtNow(l, now)
  }

  lemma AccruedLoanFacts(loan: LoanState, now: i64)
    requires loan.IsOpen() && loan.WellFormed(now) && loan.Accrue(now).Ok?
    ensures var (m, interest) := loan.Accrue(now).value;
            && OnlyAccrued(loan, m, now)
            && m.accruedInterest == loan.accruedInterest + interest
            && EarnedBy(m, now) + ACCRUAL_DENOMINATOR * interest == EarnedBy(loan, now)
  {
    var (m, interest) := loan.Accrue(now).value;
    AccrualLosesNothing(loan, now);
    AccrualKeepsLoan(loan, now, now);
    DivUnique(loan.Unbooked(now), ACCRUAL_DENOMINATOR, interest);
    assert m.Rate() * (now - m.lastAccrualAt) == 0;
  }

  /** What one accrual does to the running totals. */
  predicate AccruedOne(a: Accruing, c: Accruing, k: nat, now: i64)
    requires k < |a.loans| == |c.loans|
  {
    && OnlyAccrued(a.loans[k], c.loans[k], now)
    && c.loans == a.loans[k := c.loans[k]]
    && SumsFollow(a.pool, c.pool, a.loans[k], c.loans[k])
    && c.accrued - a.accrued == c.loans[k].accruedInterest - a.loans[k].accruedInterest
    && EarnedBooked(a.pool, c.pool, c.accrued - a.accrued, now)
  }

  lemma AccrueOneMoves(a: Accruing, k: nat, mint: nat, now: i64)
    requires k < |a.loans| && a.loans[k].IsOpen() && a.loans[k].WellFormed(now)
    requires AccrueOne(a, k, mint, now).Ok?
    ensures AccruedOne(a, AccrueOne(a, k, mint, now).value, k, now)
  {
    var c := AccrueOne(a, k, mint, now).value;
    var l, m := a.loans[k], c.loans[k];
    AccruedLoanFacts(l, now);
    RetrackFollows(a.pool, l, m);
    EarnedMoves(a.pool, c.pool, l, m, now);
  }

  lemma AccruedOneFollows(pool: PoolBook, loans: seq<LoanState>, a: Accruing, c: Accruing, k: nat, now: i64)
    requires k < |loans| == |c.loans| && AccrualFollows(pool, loans, a)
    requires AccruedOne(a, c, k, now)
    ensures AccrualFollows(pool, loans, c)
  {
    var m := c.loans[k];
    SumUpdate(a.loans, k, m, Outstanding);
    SumUpdate(a.loans, k, m, Accrued);
    SumUpdate(a.loans, k, m, RateOf);
    SumUpdate(a.loans, k, m, RateTimeOf);
    SumUpdate(a.loans, k, m, RemainderOf);
    SumUpdate(a.loans, k, m, Debt);
    SumUpdate(a.loans, k, m, OpenCount);
  }

  lemma {:induction false} AccrueFirstLeavesRest(pool: PoolBook, keys: seq<nat>, loans: seq<LoanState>, operator: nat,
                                                 mint: nat, now: i64, n: nat)
    requires |keys| == |loans| && n <= |loans| && AccrueFirst(pool, keys, loans, operator, mint, now, n).Ok?
    ensures AccrueFirst(pool, keys, loans, operator, mint, now, n).value.loans[n..] == loans[n..]
  {
    if n == 0 {
    } else {
      AccrueFirstLeavesRest(pool, keys, loans, operator, mint, now, n - 1);
    }
  }

  /** Each loan is the one its own accrual gives. */
  lemma {:induction false} AccrueFirstAccrues(pool: PoolBook, keys: seq<nat>, loans: seq<LoanState>, operator: nat,
                                              mint: nat, now: i64, n: nat, i: nat)
    requires |keys| == |loans| && i < n <= |loans|
    requires AccrueFirst(pool, keys, loans, operator, mint, now, n).Ok?
    ensures loans[i].Accrue(now).Ok?
    ensures AccrueFirst(pool, keys, loans, operator, mint, now, n).value.loans[i] == loans[i].Accrue(now).value.0
  {
    AccrueNext(pool, keys, loans, operator, mint, now, n - 1);
    if i == n - 1 {
    } else {
      AccrueFirstAccrues(pool, keys, loans, operator, mint, now, n - 1, i);
    }
  }

  lemma EarnedBookedTwice(p: PoolBook, q: PoolBook, r: PoolBook, booked: int, more: int, now: int)
    requires EarnedBooked(p, q, booked, now) && EarnedBooked(q, r, more, now)
    ensures EarnedBooked(p, r, booked + more, now)
  {
  }

  /** Loan `i` was listed once, unflagged, and is now `m`, brought up to `now`. */
  predicate BroughtUp(keys: seq<nat>, loans: seq<LoanState>, operator: nat, i: nat, m: LoanState, now: i64)
    requires i < |keys| == |loans|
  {
    ListedOnce(keys, loans, operator, i) && OnlyAccrued(loans[i], m, now) && loans[i].manualRepayment == None
  }

  lemma {:induction false} AccrueFirstFollows(pool: PoolBook, keys: seq<nat>, loans: seq<LoanState>, operator: nat,
                                              mint: nat, now: i64, n: nat)
    requires |keys| == |loans| && n <= |loans| && AccrueFirst(pool, keys, loans, operator, mint, now, n).Ok?
    requires forall i :: 0 <= i < |loans| ==> loans[i].WellFormed(now)
    ensures var a := AccrueFirst(pool, keys, loans, operator, mint, now, n).value;
            && AccrualFollows(pool, loans, a)
            && (forall i :: 0 <= i < n ==> BroughtUp(keys, loans, operator, i, a.loans[i], now))
            && (forall i :: n <= i < |loans| ==> a.loans[i] == loans[i])
  {
    if n == 0 {
    } else {
      var k := n - 1;
      AccrueFirstFollows(pool, keys, loans, operator, mint, now, k);
      var a := AccrueFirst(pool, keys, loans, operator, mint, now, k).value;
      assert a.loans[k] == loans[k];
      AccrueOneMoves(a, k, mint, now);
      var c := AccrueOne(a, k, mint, now).value;
      AccruedOneFollows(pool, loans, a, c, k, now);
      NextBroughtUp(keys, loans, operator, a, c, mint, k, now);
    }
  }

  lemma NextBroughtUp(keys: seq<nat>, loans: seq<LoanState>, operator: nat, a: Accruing, c: Accruing, mint: nat, k: nat,
                      now: i64)
    requires k < |keys| == |loans| == |a.loans| && a.loans[k] == loans[k] && ListedOnce(keys, loans, operator, k)
    requires AccrueOne(a, k, mint, now) == Ok(c) && AccruedOne(a, c, k, now)
    requires forall i :: 0 <= i < k ==> BroughtUp(keys, loans, operator, i, a.loans[i], now)
    ensures forall i :: 0 <= i <= k ==> BroughtUp(keys, loans, operator, i, c.loans[i], now)
  {
    forall i | 0 <= i <= k ensures BroughtUp(keys, loans, operator, i, c.loans[i], now) {
      if i < k {
        assert BroughtUp(keys, loans, operator, i, a.loans[i], now);
      }
    }
  }

  lemma {:induction false} AccrueFirstKeepsValue(pool: PoolBook, keys: seq<nat>, loans: seq<LoanState>, operator: nat,
                                                 mint: nat, now: i64, n: nat)
    requires |keys| == |loans| && n <= |loans| && AccrueFirst(pool, keys, loans, operator, mint, now, n).Ok?
    requires forall i :: 0 <= i < |loans| ==> loans[i].WellFormed(now)
    ensures var a := AccrueFirst(pool, keys, loans, operator, mint, now, n).value;
            EarnedBooked(pool, a.pool, a.accrued, now)
  {
    if n == 0 {
    } else {
      var k := n - 1;
      var a := AccrueFirst(pool, keys, loans, operator, mint, now, k).value;
      AccrueFirstLeavesRest(pool, keys, loans, operator, mint, now, k);
      assert a.loans[k] == a.loans[k..][0] == loans[k];
      AccrueFirstKeepsValue(pool, keys, loans, operator, mint, now, k);
      AccrueOneMoves(a, k, mint, now);
      var c := AccrueOne(a, k, mint, now).value;
      EarnedBookedTwice(pool, a.pool, c.pool, a.accrued, c.accrued - a.accrued, now);
    }
  }

  function CeilingFor(l: LoanState, mint: nat, now: int): int {
    if l.rewardMint == mint then CeilingOf(l, now) else 0
  }

  /** The ceiling of all the loans repaid from one token. */
  function CeilingOver(loans: seq<LoanState>, mint: nat, now: int): int {
    if loans == [] then 0
    else CeilingOver(loans[..|loans| - 1], mint, now) + CeilingFor(loans[|loans| - 1], mint, now)
  }

  lemma AccrueOneCeiling(a: Accruing, k: nat, mint: nat, now: i64)
    requires k < |a.loans| && a.loans[k].IsOpen() && a.loans[k].WellFormed(now)
    requires AccrueOne(a, k, mint, now).Ok?
    ensures var c := AccrueOne(a, k, mint, now).value;
            && c.ceiling == a.ceiling + CeilingFor(c.loans[k], mint, now)
            && (if a.loans[k].rewardMint == mint then c.ceiling > a.ceiling else c.ceiling == a.ceiling)
  {
    AccruedLoanFacts(a.loans[k], now);
    if a.loans[k].rewardMint == mint {
      CeilingIsDebtAtDue(AccrueOne(a, k, mint, now).value.loans[k], now);
    }
  }

  lemma {:induction false} CeilingOverStep(loans: seq<LoanState>, n: nat, mint: nat, now: int)
    requires n < |loans|
    ensures CeilingOver(loans[..n + 1], mint, now)
         == CeilingOver(loans[..n], mint, now) + CeilingFor(loans[n], mint, now)
  {
    assert loans[..n + 1][..n] == loans[..n];
  }

  lemma {:induction false} AccrueFirstCeiling(pool: PoolBook, keys: seq<nat>, loans: seq<LoanState>, operator: nat,
                                              mint: nat, now: i64, n: nat)
    requires |keys| == |loans| && n <= |loans| && AccrueFirst(pool, keys, loans, operator, mint, now, n).Ok?
    requires forall i :: 0 <= i < |loans| ==> loans[i].WellFormed(now)
    ensures var a := AccrueFirst(pool, keys, loans, operator, mint, now, n).value;
            && a.ceiling == CeilingOver(a.loans[..n], mint, now)
            && (a.ceiling == 0 <==> NoneFrom(loans, mint, n))
  {
    if n == 0 {
    } else {
      var k := n - 1;
      AccrueFirstCeiling(pool, keys, loans, operator, mint, now, k);
      AccrueFirstLeavesRest(pool, keys, loans, operator, mint, now, k);
      var a := AccrueFirst(pool, keys, loans, operator, mint, now, k).value;
      var c := AccrueFirst(pool, keys, loans, operator, mint, now, n).value;
      assert a.loans[k] == a.loans[k..][0] == loans[k];
      NoneFromStep(loans, mint, k);
      CeilingOverStep(c.loans, k, mint, now);
      assert c.loans[..k] == a.loans[..k];
      AccrueOneCeiling(a, k, mint, now);
    }
  }

  /** None of the first `n` loans is repaid from the token. */
  predicate NoneFrom(loans: seq<LoanState>, mint: nat, n: nat)
    requires n <= |loans|
  {
    forall i :: 0 <= i < n ==> loans[i].rewardMint != mint
  }

  lemma NoneFromStep(loans: seq<LoanState>, mint: nat, k: nat)
    requires k < |loans|
    ensures NoneFrom(loans, mint, k + 1) <==> NoneFrom(loans, mint, k) && loans[k].rewardMint != mint
  {
  }

  lemma NewLoanTerms(t: Terms, aprBps: u16, now: i64, dueAt: i64)
    requires now >= 0 && CheckTerms(t) == Pass && dueAt == now + t.termPeriods * REPAYMENT_PERIOD
    ensures var l := NewLoan(t, aprBps, now, dueAt);
            && l.WellFormed(now) && l.IsOpen() && l.Periods() == t.termPeriods
            && EarnedBy(l, now) == 0
  {
    var l := NewLoan(t, aprBps, now, dueAt);
    DivUnique(dueAt - now, REPAYMENT_PERIOD, t.termPeriods);
    assert l.Rate() * (now - l.lastAccrualAt) == 0;
  }

  /** A tracked new loan adds its terms to the sums. */
  lemma TrackAdds(pool: PoolBook, l: LoanState)
    requires l.IsOpen() && pool.Track(l).Ok?
    ensures var q := pool.Track(l).value;
            && q == pool.(accrualRate := q.accrualRate, accrualRateTime := q.accrualRateTime,
                          accrualRemainders := q.accrualRemainders)
            && q.accrualRate == pool.accrualRate + RateOf(l)
            && q.accrualRateTime == pool.accrualRateTime + RateTimeOf(l)
            && q.accrualRemainders == pool.accrualRemainders + RemainderOf(l)
  {
  }

  /** What the pool's book is after lending, and that it lent only what was free. */
  predicate Lent(p: PoolBook, q: PoolBook, t: Terms, accrued: int) {
    && q == p.(accruedInterest := q.accruedInterest, totalBorrowed := q.totalBorrowed)
    && q.accruedInterest == p.accruedInterest + accrued
    && q.totalBorrowed == p.totalBorrowed + t.amount <= p.totalDeposits
  }

  lemma LendMoves(p: PoolBook, t: Terms, accrued: u64)
    requires Lend(p, t, accrued).Ok?
    ensures Lent(p, Lend(p, t, accrued).value.0, t, accrued)
  {
  }

  /** Accrual, lending and tracking put together keep the books in step. */
  lemma IssueFollows(b: Books, a: Accruing, lent: PoolBook, c: Books, l: LoanState, t: Terms)
    requires AccrualFollows(b.pool, b.loans, a) && Lent(a.pool, lent, t, a.accrued)
    requires l.IsOpen() && lent.Track(l) == Ok(c.pool) && c.loans == a.loans + [l]
    requires l.Debt() == l.outstanding == t.amount
    requires c.account == b.account.(totalDebt := c.account.totalDebt, openLoans := c.account.openLoans)
    requires c.account.totalDebt == b.account.totalDebt + a.accrued + t.amount
    requires c.account.openLoans == b.account.openLoans + 1
    ensures BooksFollow(b, c, -(t.amount as int))
  {
    TrackAdds(lent, l);
    SumAppend(a.loans, l, Outstanding);
    SumAppend(a.loans, l, Accrued);
    SumAppend(a.loans, l, RateOf);
    SumAppend(a.loans, l, RateTimeOf);
    SumAppend(a.loans, l, RemainderOf);
    SumAppend(a.loans, l, Debt);
    SumAppend(a.loans, l, OpenCount);
  }

  /** A loan just issued has earned nothing, so issuing it moves no value. */
  lemma IssueKeepsValue(p: PoolBook, a: Accruing, lent: PoolBook, q: PoolBook, l: LoanState, t: Terms, now: int)
    requires EarnedBooked(p, a.pool, a.accrued, now) && Lent(a.pool, lent, t, a.accrued)
    requires a.pool.totalDeposits == p.totalDeposits && a.pool.accruedInterest == p.accruedInterest
    requires l.IsOpen() && lent.Track(l) == Ok(q) && EarnedBy(l, now) == 0
    ensures Scaled(q, now) == Scaled(p, now)
  {
    TrackAdds(lent, l);
    EarnedByTerms(l, now);
    Distribute3(lent.accrualRate, RateOf(l), 0, now);
    assert Earned(q, now) == Earned(lent, now) + EarnedBy(l, now);
    assert Earned(lent, now) == Earned(a.pool, now);
  }

  /** The loan is the one the operator signed for, opened now and owing nothing but its principal. */
  predicate AsAgreed(l: LoanState, t: Terms, now: int) {
    && l.operator == t.operator && l.rewardMint == t.rewardMint && l.nonce == t.nonce
    && l.principal == l.outstanding == t.amount > 0 && l.accruedInterest == l.interestRemainder == 0
    && l.openedAt == l.lastAccrualAt == now && l.dueAt == now + t.termPeriods * 2_592_000
    && l.aprBps <= t.maxAprBps && l.sweepBps == t.sweepBps
    && l.status == Active && l.rewardDue == 0 && l.manualRepayment == None
    && l.Periods() == t.termPeriods && l.WellFormed(now)
  }

  /** A borrow: every loan handed over is a different open loan of the operator, as many as it
      counts and none of them flagged, brought up to `now`; the books follow; the operator's debt is
      within the limit; the pool lends only what is free; and its value does not move. */
  predicate BorrowHolds(b: Books, keys: seq<nat>, t: Terms, r: Borrowed, now: i64)
    requires |keys| == |b.loans|
  {
    && !b.account.overdue && |r.books.loans| == |b.loans| == b.account.openLoans < MAX_OPEN_LOANS
    && (forall i :: 0 <= i < |b.loans| ==> BroughtUp(keys, b.loans, t.operator, i, r.books.loans[i], now))
    && b.account.window.Consume(t.nonce) == Ok(r.books.account.window)
    && BooksFollow(b.(account := b.account.(window := r.books.account.window)),
                   r.books.(loans := r.books.loans + [r.loan]), -(t.amount as int))
    && r.books.account.totalDebt <= t.limit
    && r.books.pool.totalBorrowed <= r.books.pool.totalDeposits
    && AsAgreed(r.loan, t, now)
    && Scaled(r.books.pool, now) == Scaled(b.pool, now)
  }

  /** The steps of a borrow that went through: the open loans accrued to `a`, the pool having `lent`,
      the loan issued and the watch set. */
  predicate Issued(b: Books, keys: seq<nat>, t: Terms, watch: Option<u64>, balance: u64, now: i64, a: Accruing,
                   lent: PoolBook, r: Borrowed)
    requires |keys| == |b.loans| && t.rate > 0
  {
    && CheckTerms(t) == Pass
    && Enter(b, keys, t, now) == Ok((r.books.account, a))
    && r.books.loans == a.loans
    && Lend(a.pool, t, a.accrued) == Ok((lent, r.loan.aprBps))
    && Issue(lent, t, r.loan.aprBps, a.ceiling, now) == Ok(Issuing(r.books.pool, r.loan, r.allowance))
    && r.watch == (if a.ceiling == 0 || watch == None then balance else watch.value)
  }

  lemma BorrowSteps(b: Books, keys: seq<nat>, t: Terms, watch: Option<u64>, balance: u64, now: i64, r: Borrowed)
    returns (a: Accruing, lent: PoolBook)
    requires |keys| == |b.loans| && t.rate > 0
    requires Borrow(b, keys, t, watch, balance, now) == Ok(r)
    ensures Issued(b, keys, t, watch, balance, now, a, lent, r)
  {
    a := Enter(b, keys, t, now).value.1;
    lent := Lend(a.pool, t, a.accrued).value.0;
  }

  lemma {:induction false} EnterSteps(b: Books, keys: seq<nat>, t: Terms, now: i64, account: OperatorState, a: Accruing)
    requires |keys| == |b.loans| && Enter(b, keys, t, now) == Ok((account, a))
    ensures !b.account.overdue && |b.loans| == b.account.openLoans < MAX_OPEN_LOANS
    ensures AccrueFirst(b.pool, keys, b.loans, t.operator, t.rewardMint, now, |b.loans|) == Ok(a)
    ensures b.account.window.Consume(t.nonce) == Ok(account.window)
    ensures Admit(b.account.(window := account.window), t, a.accrued) == Ok(account)
  {
  }

  lemma IssueSteps(lent: PoolBook, t: Terms, aprBps: u16, ceiling: u64, now: i64, i: Issuing)
    requires t.rate > 0 && Issue(lent, t, aprBps, ceiling, now) == Ok(i)
    ensures i.loan == NewLoan(t, aprBps, now, i.loan.dueAt) && i.loan.dueAt == now + t.termPeriods * REPAYMENT_PERIOD
    ensures lent.Track(i.loan) == Ok(i.pool)
    ensures i.loan.DebtCeiling(now).Ok? && ceiling + i.loan.DebtCeiling(now).value <= U64_MAX
    ensures AllowanceFor(ceiling + i.loan.DebtCeiling(now).value, t.rate) == Ok(i.allowance)
  {
  }

  lemma AdmitMoves(account: OperatorState, t: Terms, accrued: u64)
    requires Admit(account, t, accrued).Ok?
    ensures var c := Admit(account, t, accrued).value;
            && c == account.(totalDebt := c.totalDebt, openLoans := c.openLoans)
            && c.totalDebt == account.totalDebt + accrued + t.amount <= t.limit
            && c.openLoans == account.openLoans + 1
  {
  }

  lemma IssuedHolds(b: Books, keys: seq<nat>, t: Terms, watch: Option<u64>, balance: u64, now: i64, a: Accruing,
                    lent: PoolBook, r: Borrowed)
    requires |keys| == |b.loans| && t.rate > 0 && now >= 0
    requires forall i :: 0 <= i < |b.loans| ==> b.loans[i].WellFormed(now)
    requires Issued(b, keys, t, watch, balance, now, a, lent, r)
    ensures BorrowHolds(b, keys, t, r, now)
  {
    var before := b.(account := b.account.(window := r.books.account.window));
    EnterSteps(b, keys, t, now, r.books.account, a);
    IssueSteps(lent, t, r.loan.aprBps, a.ceiling, now, Issuing(r.books.pool, r.loan, r.allowance));
    AccrueFirstFollows(b.pool, keys, b.loans, t.operator, t.rewardMint, now, |b.loans|);
    AccrueFirstKeepsValue(b.pool, keys, b.loans, t.operator, t.rewardMint, now, |b.loans|);
    LendMoves(a.pool, t, a.accrued);
    AdmitMoves(before.account, t, a.accrued);
    NewLoanTerms(t, r.loan.aprBps, now, r.loan.dueAt);
    IssueFollows(before, a, lent, r.books.(loans := r.books.loans + [r.loan]), r.loan, t);
    IssueKeepsValue(b.pool, a, lent, r.books.pool, r.loan, t, now);
    TrackAdds(lent, r.loan);
  }

  lemma BorrowKeeps(b: Books, keys: seq<nat>, t: Terms, watch: Option<u64>, balance: u64, now: i64)
    requires |keys| == |b.loans| && t.rate > 0 && now >= 0
    requires forall i :: 0 <= i < |b.loans| ==> b.loans[i].WellFormed(now)
    requires Borrow(b, keys, t, watch, balance, now).Ok?
    ensures BorrowHolds(b, keys, t, Borrow(b, keys, t, watch, balance, now).value, now)
  {
    var r := Borrow(b, keys, t, watch, balance, now).value;
    var a, lent := BorrowSteps(b, keys, t, watch, balance, now, r);
    IssuedHolds(b, keys, t, watch, balance, now, a, lent, r);
  }

  /** The watch starts over exactly when no open loan is repaid from this token, or none ever
      was; and the allowance is the most reward units worth no more than the debt ceiling of the
      token's loans. */
  predicate WatchAndAllowanceHold(b: Books, t: Terms, watch: Option<u64>, balance: u64, r: Borrowed, now: i64) {
    && r.watch == (if NoneFrom(b.loans, t.rewardMint, |b.loans|) || watch == None then balance else watch.value)
    && 0 < r.allowance
    && r.allowance * t.rate <= CeilingOver(r.books.loans + [r.loan], t.rewardMint, now) * 1_000_000_000_000
                            < (r.allowance + 1) * t.rate
  }

  lemma AllowanceIsFloor(ceiling: u64, rate: u64)
    requires rate > 0 && AllowanceFor(ceiling, rate).Ok?
    ensures var allowance := AllowanceFor(ceiling, rate).value;
            0 < allowance && allowance * rate <= ceiling * RATE_UNIT < (allowance + 1) * rate
  {
    DivBounds(ceiling * RATE_UNIT, rate);
  }

  lemma {:induction false} IssuedCeiling(pool: PoolBook, keys: seq<nat>, loans: seq<LoanState>, operator: nat,
                                         mint: nat, now: i64, a: Accruing, l: LoanState)
    requires |keys| == |loans| && now >= 0
    requires forall i :: 0 <= i < |loans| ==> loans[i].WellFormed(now)
    requires AccrueFirst(pool, keys, loans, operator, mint, now, |loans|) == Ok(a)
    requires l.WellFormed(Max(l.dueAt, now)) && l.rewardMint == mint && l.DebtCeiling(now).Ok?
    ensures a.ceiling + l.DebtCeiling(now).value == CeilingOver(a.loans + [l], mint, now)
    ensures a.ceiling == 0 <==> NoneFrom(loans, mint, |loans|)
  {
    AccrueFirstCeiling(pool, keys, loans, operator, mint, now, |loans|);
    var all := a.loans + [l];
    assert a.loans[..|loans|] == a.loans == all[..|loans|] && all[..|all|] == all;
    CeilingIsDebtAtDue(l, now);
    CeilingOverStep(all, |loans|, mint, now);
  }

  lemma IssuedWatchAndAllowance(b: Books, keys: seq<nat>, t: Terms, watch: Option<u64>, balance: u64, now: i64,
                                a: Accruing, lent: PoolBook, r: Borrowed)
    requires |keys| == |b.loans| && t.rate > 0 && now >= 0
    requires forall i :: 0 <= i < |b.loans| ==> b.loans[i].WellFormed(now)
    requires Issued(b, keys, t, watch, balance, now, a, lent, r)
    ensures WatchAndAllowanceHold(b, t, watch, balance, r, now)
  {
    EnterSteps(b, keys, t, now, r.books.account, a);
    IssueSteps(lent, t, r.loan.aprBps, a.ceiling, now, Issuing(r.books.pool, r.loan, r.allowance));
    NewLoanTerms(t, r.loan.aprBps, now, r.loan.dueAt);
    IssuedCeiling(b.pool, keys, b.loans, t.operator, t.rewardMint, now, a, r.loan);
    AllowanceIsFloor(a.ceiling + r.loan.DebtCeiling(now).value, t.rate);
  }

  lemma BorrowWatchAndAllowance(b: Books, keys: seq<nat>, t: Terms, watch: Option<u64>, balance: u64, now: i64)
    requires |keys| == |b.loans| && t.rate > 0 && now >= 0
    requires forall i :: 0 <= i < |b.loans| ==> b.loans[i].WellFormed(now)
    requires Borrow(b, keys, t, watch, balance, now).Ok?
    ensures WatchAndAllowanceHold(b, t, watch, balance, Borrow(b, keys, t, watch, balance, now).value, now)
  {
    var r := Borrow(b, keys, t, watch, balance, now).value;
    var a, lent := BorrowSteps(b, keys, t, watch, balance, now, r);
    IssuedWatchAndAllowance(b, keys, t, watch, balance, now, a, lent, r);
  }
}
