/** The allowance an operator is asked for: sized off-chain, approved on-chain, one number. */
module Delegation {
  import opened Outcomes
  import opened Numbers
  import opened Sums
  import opened Loans
  import opened Pools
  import opened Operators
  import opened Settlement
  import opened Conversions
  import opened Ceilings
  import opened Positions
  import Borrowing

  /** `newLoanState`: the loan a signature would take out. */
  function NewLoanState(principal: nat, aprBps: nat, termPeriods: nat, now: int): PageLoan {
    PageLoan(principal, principal, 0, 0, now, now + termPeriods * REPAYMENT_PERIOD, now, aprBps)
  }

  function CeilingAt(now: int): PageLoan -> int {
    (l: PageLoan) => l.outstanding + l.AccrueTo(Max(l.dueAt, now)).0
  }

  /** `debtCeiling`. */
  function DebtCeiling(loans: seq<PageLoan>, now: int): int {
    Sum(loans, CeilingAt(now))
  }

  /** `rewardAllowance`, at a positive rate. */
  function RewardAllowance(ceiling: int, rate: int): int
    requires rate > 0
  {
    ceiling * RATE_UNIT / rate
  }

  /** `quoteAprBps`; None for its refusal. */
  function QuoteAprBps(pool: PoolBook, amount: nat): Option<int> {
    var borrowed := pool.totalBorrowed + amount;
    if pool.totalDeposits <= 0 || borrowed > pool.totalDeposits then None
    else Some(pool.baseAprBps + DivCeil(pool.slopeAprBps * borrowed, pool.totalDeposits))
  }

  /** The loans the page takes: those repaid from this token. */
  function FromToken(loans: seq<LoanState>, mint: nat): seq<PageLoan> {
    if loans == [] then [] else
    var before := FromToken(loans[..|loans| - 1], mint);
    if loans[|loans| - 1].rewardMint == mint then before + [Seen(loans[|loans| - 1])] else before
  }

  /** The page quotes the rate the program issues at: where the steepest quote fits u16, as a new
      pool's is checked to, the only refusal is for want of liquidity. */
  lemma QuoteIsTheProgram(pool: PoolBook, amount: u64)
    requires pool.baseAprBps + pool.slopeAprBps <= U16_MAX
    ensures pool.QuoteAprBps(amount) == match QuoteAprBps(pool, amount)
                                        case None => Err(InsufficientLiquidity)
                                        case Some(aprBps) => Ok(aprBps)
  {
    var borrowed := pool.totalBorrowed + amount;
    if pool.totalDeposits > 0 && borrowed <= pool.totalDeposits {
      MulMonotone(borrowed, pool.totalDeposits, pool.slopeAprBps);
      DivCeilAtMost(pool.slopeAprBps * borrowed, pool.totalDeposits, pool.slopeAprBps);
      MulMonotone(0, borrowed, pool.slopeAprBps);
      DivCeilAtMost(pool.slopeAprBps * borrowed, pool.totalDeposits, -1);
    }
  }

  lemma CeilingAtIsCeiling(l: LoanState, now: int)
    requires l.WellFormed(now)
    ensures CeilingAt(now)(Seen(l)) == CeilingOf(l, now)
  {
    if Max(l.dueAt, now) <= l.lastAccrualAt {
      assert l.Unbooked(l.lastAccrualAt) == l.interestRemainder;
    }
  }

  /** The page's ceiling of a token's loans is the program's. */
  lemma {:induction false} CeilingIsTheProgram(loans: seq<LoanState>, mint: nat, now: int)
    requires forall i :: 0 <= i < |loans| ==> loans[i].WellFormed(now)
    ensures DebtCeiling(FromToken(loans, mint), now) == Borrowing.CeilingOver(loans, mint, now)
  {
    if loans == [] {
    } else {
      var n := |loans| - 1;
      CeilingIsTheProgram(loans[..n], mint, now);
      CeilingAtIsCeiling(loans[n], now);
      SumAppend(FromToken(loans[..n], mint), Seen(loans[n]), CeilingAt(now));
    }
  }

  lemma {:induction false} CeilingUnchanged(loans: seq<LoanState>, accrued: seq<LoanState>, mint: nat, now: i64)
    requires |accrued| == |loans|
    requires forall i :: 0 <= i < |loans| ==>
      loans[i].WellFormed(now) && loans[i].Accrue(now).Ok? && accrued[i] == loans[i].Accrue(now).value.0
    ensures Borrowing.CeilingOver(accrued, mint, now) == Borrowing.CeilingOver(loans, mint, now)
  {
    if loans == [] {
    } else {
      var n := |loans| - 1;
      CeilingUnchanged(loans[..n], accrued[..n], mint, now);
      AccrualKeepsCeiling(loans[n], now);
      AccrualLosesNothing(loans[n], now);
    }
  }

  /** The loans a borrow hands over come out with the ceiling they had. */
  lemma {:induction false} EnterKeepsCeilings(b: Books, keys: seq<nat>, t: Borrowing.Terms, now: i64,
                                              account: OperatorState, a: Borrowing.Accruing)
    requires |keys| == |b.loans| && Borrowing.Enter(b, keys, t, now) == Ok((account, a))
    requires forall i :: 0 <= i < |b.loans| ==> b.loans[i].WellFormed(now)
    ensures |a.loans| == |b.loans|
    ensures Borrowing.CeilingOver(a.loans, t.rewardMint, now) == Borrowing.CeilingOver(b.loans, t.rewardMint, now)
  {
    Borrowing.EnterSteps(b, keys, t, now, account, a);
    forall i | 0 <= i < |b.loans| ensures b.loans[i].Accrue(now).Ok? && a.loans[i] == b.loans[i].Accrue(now).value.0 {
      Borrowing.AccrueFirstAccrues(b.pool, keys, b.loans, t.operator, t.rewardMint, now, |b.loans|, i);
    }
    CeilingUnchanged(b.loans, a.loans, t.rewardMint, now);
  }

  lemma {:induction false} CeilingOverOneMore(loans: seq<LoanState>, l: LoanState, now: int)
    ensures Borrowing.CeilingOver(loans + [l], l.rewardMint, now)
         == Borrowing.CeilingOver(loans, l.rewardMint, now) + CeilingOf(l, now)
  {
    assert (loans + [l])[..|loans|] == loans;
  }

  lemma AllowanceFromCeilings(b: Books, keys: seq<nat>, t: Borrowing.Terms, watch: Option<u64>, balance: u64, now: i64,
                              a: Borrowing.Accruing, lent: PoolBook, r: Borrowing.Borrowed)
    requires |keys| == |b.loans| && t.rate > 0 && now >= 0
    requires forall i :: 0 <= i < |b.loans| ==> b.loans[i].WellFormed(now)
    requires Borrowing.Issued(b, keys, t, watch, balance, now, a, lent, r)
    ensures r.allowance == RewardAllowance(DebtCeiling(FromToken(b.loans, t.rewardMint) + [Seen(r.loan)], now), t.rate)
    ensures Seen(r.loan) == NewLoanState(t.amount, r.loan.aprBps, t.termPeriods, now)
  {
    Borrowing.IssueSteps(lent, t, r.loan.aprBps, a.ceiling, now, Borrowing.Issuing(r.books.pool, r.loan, r.allowance));
    Borrowing.NewLoanTerms(t, r.loan.aprBps, now, r.loan.dueAt);
    Borrowing.IssuedWatchAndAllowance(b, keys, t, watch, balance, now, a, lent, r);
    EnterKeepsCeilings(b, keys, t, now, r.books.account, a);
    CeilingOverOneMore(r.books.loans, r.loan, now);
    CeilingIsTheProgram(b.loans, t.rewardMint, now);
    CeilingAtIsCeiling(r.loan, now);
    SumAppend(FromToken(b.loans, t.rewardMint), Seen(r.loan), CeilingAt(now));
    AllowanceIsDivision(r.allowance, DebtCeiling(FromToken(b.loans, t.rewardMint) + [Seen(r.loan)], now), t.rate);
  }

  lemma AllowanceIsDivision(allowance: int, ceiling: int, rate: int)
    requires rate > 0 && allowance * rate <= ceiling * RATE_UNIT < (allowance + 1) * rate
    ensures allowance == RewardAllowance(ceiling, rate)
  {
    assert (allowance + 1) * rate == rate * allowance + rate;
    DivUnique(ceiling * RATE_UNIT, rate, allowance);
  }

  lemma LentAtTheQuote(pool: PoolBook, t: Borrowing.Terms, accrued: u64)
    requires Borrowing.Lend(pool, t, accrued).Ok? && pool.baseAprBps + pool.slopeAprBps <= U16_MAX
    ensures QuoteAprBps(pool, t.amount) == Some(Borrowing.Lend(pool, t, accrued).value.1)
  {
    QuoteIsTheProgram(pool.(accruedInterest := pool.accruedInterest + accrued), t.amount);
  }

  lemma QuotedRateInSteps(b: Books, keys: seq<nat>, t: Borrowing.Terms, watch: Option<u64>, balance: u64, now: i64,
                          a: Borrowing.Accruing, lent: PoolBook, r: Borrowing.Borrowed)
    requires |keys| == |b.loans| && t.rate > 0 && b.pool.baseAprBps + b.pool.slopeAprBps <= U16_MAX
    requires forall i :: 0 <= i < |b.loans| ==> b.loans[i].WellFormed(now)
    requires Borrowing.Issued(b, keys, t, watch, balance, now, a, lent, r)
    ensures QuoteAprBps(b.pool, t.amount) == Some(r.loan.aprBps)
  {
    SameQuoteAfterEnter(b, keys, t, now, r.books.account, a);
    LentAtTheQuote(a.pool, t, a.accrued);
  }

  /** The rate the page quotes from the pool as it stands is the one the loan is issued at. */
  lemma QuotedRateIsIssued(b: Books, keys: seq<nat>, t: Borrowing.Terms, watch: Option<u64>, balance: u64, now: i64)
    requires |keys| == |b.loans| && t.rate > 0 && b.pool.baseAprBps + b.pool.slopeAprBps <= U16_MAX
    requires forall i :: 0 <= i < |b.loans| ==> b.loans[i].WellFormed(now)
    requires Borrowing.Borrow(b, keys, t, watch, balance, now).Ok?
    ensures QuoteAprBps(b.pool, t.amount) == Some(Borrowing.Borrow(b, keys, t, watch, balance, now).value.loan.aprBps)
  {
    var r := Borrowing.Borrow(b, keys, t, watch, balance, now).value;
    var a, lent := Borrowing.BorrowSteps(b, keys, t, watch, balance, now, r);
    QuotedRateInSteps(b, keys, t, watch, balance, now, a, lent, r);
  }

  lemma SameQuoteAfterEnter(b: Books, keys: seq<nat>, t: Borrowing.Terms, now: i64, account: OperatorState,
                            a: Borrowing.Accruing)
    requires |keys| == |b.loans| && Borrowing.Enter(b, keys, t, now) == Ok((account, a))
    requires forall i :: 0 <= i < |b.loans| ==> b.loans[i].WellFormed(now)
    ensures QuoteAprBps(a.pool, t.amount) == QuoteAprBps(b.pool, t.amount)
    ensures a.pool.baseAprBps + a.pool.slopeAprBps == b.pool.baseAprBps + b.pool.slopeAprBps
  {
    SameTotalsAfterEnter(b, keys, t, now, account, a);
  }

  lemma SameTotalsAfterEnter(b: Books, keys: seq<nat>, t: Borrowing.Terms, now: i64, account: OperatorState,
                             a: Borrowing.Accruing)
    requires |keys| == |b.loans| && Borrowing.Enter(b, keys, t, now) == Ok((account, a))
    requires forall i :: 0 <= i < |b.loans| ==> b.loans[i].WellFormed(now)
    ensures a.pool.totalDeposits == b.pool.totalDeposits && a.pool.totalBorrowed == b.pool.totalBorrowed
    ensures a.pool.baseAprBps == b.pool.baseAprBps && a.pool.slopeAprBps == b.pool.slopeAprBps
  {
    Borrowing.EnterSteps(b, keys, t, now, account, a);
    Borrowing.AccrueFirstFollows(b.pool, keys, b.loans, t.operator, t.rewardMint, now, |b.loans|);
  }

  /** Before a loan is signed the page builds it from the amount, the rate quoted on the pool as it
      stands, the term and the time. In every field the page reads that is the loan the program then
      issues, and the allowance shown for it and the token's other loans is the one approved. */
  lemma PageAllowanceIsApproved(b: Books, keys: seq<nat>, t: Borrowing.Terms, watch: Option<u64>, balance: u64,
                                now: i64)
    requires |keys| == |b.loans| && t.rate > 0 && now >= 0 && b.pool.baseAprBps + b.pool.slopeAprBps <= U16_MAX
    requires forall i :: 0 <= i < |b.loans| ==> b.loans[i].WellFormed(now)
    requires Borrowing.Borrow(b, keys, t, watch, balance, now).Ok?
    ensures QuoteAprBps(b.pool, t.amount).Some? && QuoteAprBps(b.pool, t.amount).value >= 0
    ensures var r := Borrowing.Borrow(b, keys, t, watch, balance, now).value;
            var shown := NewLoanState(t.amount, QuoteAprBps(b.pool, t.amount).value, t.termPeriods, now);
            && Seen(r.loan) == shown
            && r.allowance
               == RewardAllowance(DebtCeiling(FromToken(b.loans, t.rewardMint) + [shown], now), t.rate)
  {
    var r := Borrowing.Borrow(b, keys, t, watch, balance, now).value;
    var a, lent := Borrowing.BorrowSteps(b, keys, t, watch, balance, now, r);
    QuotedRateInSteps(b, keys, t, watch, balance, now, a, lent, r);
    AllowanceFromCeilings(b, keys, t, watch, balance, now, a, lent, r);
  }
}
