/** What a lender is shown before withdrawing: the program's answer, wherever its integers hold it. */
module WithdrawalQuotes {
  import opened Outcomes
  import opened Numbers
  import opened Sums
  import opened Loans
  import opened Pools
  import opened Protocol
  import opened Ledger
  import Lenders

  datatype Shown = Shown(paid: int, shares: int, limitedBy: Option<WithdrawalLimit>)

  function UnbookedInterest(pool: PoolBook, now: int): int {
    var earned := pool.accrualRate * now + pool.accrualRemainders;
    if earned > pool.accrualRateTime then (earned - pool.accrualRateTime) / ACCRUAL_DENOMINATOR else 0
  }

  function PoolValue(pool: PoolBook, now: int): int {
    pool.totalDeposits + pool.accruedInterest + UnbookedInterest(pool, now)
  }

  /** `valueOfShares`, for no more shares than were issued. */
  function ValueOf(pool: PoolBook, shares: nat, now: int): int
    requires shares <= pool.totalShares
  {
    if shares == 0 then 0 else shares * PoolValue(pool, now) / pool.totalShares
  }

  lemma PageValueIsWorth(pool: PoolBook, now: int)
    ensures PoolValue(pool, now) == pool.WorthAt(now) >= 0
  {
    DivAtLeast(Max(pool.accrualRate * now + pool.accrualRemainders - pool.accrualRateTime, 0), ACCRUAL_DENOMINATOR, 0);
  }

  lemma WorthNeedsValue(pool: PoolBook, shares: nat, now: int)
    requires shares <= pool.totalShares && ValueOf(pool, shares, now) != 0
    ensures PoolValue(pool, now) > 0
  {
    PageValueIsWorth(pool, now);
    NothingIsWorthNothing(shares, pool.totalShares);
  }

  lemma NothingIsWorthNothing(shares: int, total: int)
    requires total > 0
    ensures shares * 0 / total == 0
  {
  }

  /** `quoteWithdrawal`: None where it throws, an Err for its two refusals. */
  function QuoteWithdrawal(pool: PoolBook, shares: nat, maxAmount: int, now: int): Option<Result<Shown>> {
    if maxAmount <= 0 || shares > pool.totalShares then None else
    var worth := ValueOf(pool, shares, now);
    if worth == 0 then Some(Err(NothingToWithdraw)) else
    var free := pool.totalDeposits - pool.totalBorrowed;
    if free <= 0 then Some(Err(NoFreeLiquidity)) else
    var paid := Min(Min(maxAmount, worth), free);
    var limitedBy := if paid == maxAmount then None
                     else if paid == worth then Some(PositionLimit) else Some(LiquidityLimit);
    if paid == worth then Some(Ok(Shown(paid, shares, limitedBy))) else
    WorthNeedsValue(pool, shares, now);
    Some(Ok(Shown(paid, DivCeil(paid * pool.totalShares, PoolValue(pool, now)), limitedBy)))
  }

  /** The same payment, burned shares and limit, or the same refusal. */
  predicate Agree(program: Result<Withdrawal>, page: Option<Result<Shown>>) {
    && page.Some?
    && (program.Ok? <==> page.value.Ok?)
    && (program.Ok? ==> page.value.value == Shown(program.value.paid, program.value.shares, program.value.limitedBy))
    && (program.Err? ==> page.value.error == program.error)
  }

  /** The program's integers hold the pool's value and what the shares are worth. */
  predicate Holds(pool: PoolBook, shares: u64, now: i64)
    requires shares <= pool.totalShares
  {
    shares == 0 || (pool.Value(now).Ok? && Lenders.WorthOf(pool, shares, now) <= U64_MAX)
  }

  lemma BurnedFits(pool: PoolBook, shares: u64, paid: int, now: i64)
    requires 0 < shares <= pool.totalShares && 0 < paid <= Lenders.WorthOf(pool, shares, now)
    ensures pool.WorthAt(now) > 0 && 0 <= DivCeil(paid * pool.totalShares, pool.WorthAt(now)) <= shares
  {
    PageValueIsWorth(pool, now);
    DivBounds(shares * pool.WorthAt(now), pool.totalShares);
    Lenders.BurnedForPaid(paid, pool.totalShares, pool.WorthAt(now), shares, Lenders.WorthOf(pool, shares, now));
  }

  /** The page quotes exactly what the program does wherever the program's integers hold the value;
      where they do not, the program refuses. */
  lemma PageQuotesTheProgram(pool: PoolBook, shares: u64, maxAmount: u64, now: i64)
    requires shares <= pool.totalShares && pool.totalBorrowed <= pool.totalDeposits && maxAmount > 0
    ensures if Holds(pool, shares, now)
            then Agree(pool.Withdraw(shares, maxAmount, now), QuoteWithdrawal(pool, shares, maxAmount, now))
            else pool.Withdraw(shares, maxAmount, now) == Err(MathOverflow)
  {
    PageValueIsWorth(pool, now);
    ValueIsWorth(pool, now);
    if shares > 0 {
      WorthIsPlainFloor(pool, shares, now);
      var worth, free := Lenders.WorthOf(pool, shares, now), pool.totalDeposits - pool.totalBorrowed;
      DivAtLeast(shares * pool.WorthAt(now), pool.totalShares, 0);
      MulMonotone(0, pool.WorthAt(now), shares);
      if Holds(pool, shares, now) && worth > 0 && free > 0 {
        BurnedFits(pool, shares, Min(Min(maxAmount, worth), free), now);
      }
    }
  }

  lemma {:induction false} OwnShareWithinAll(shares: seq<u64>, i: nat)
    requires i < |shares|
    ensures 0 <= shares[i] <= Total(shares)
  {
    var n := |shares| - 1;
    if n == 0 {
    } else {
      OwnShareWithinAll(shares[..n], if i < n then i else 0);
    }
  }

  /** In every reachable state, for every lender. */
  lemma EveryLenderIsQuotedTheProgram(w: World, lender: nat, maxAmount: u64)
    requires Sound(w) && lender < |w.lenders| && maxAmount > 0
    ensures w.lenders[lender] <= w.pool.totalShares
    ensures if Holds(w.pool, w.lenders[lender], w.clock)
            then Agree(w.pool.Withdraw(w.lenders[lender], maxAmount, w.clock),
                       QuoteWithdrawal(w.pool, w.lenders[lender], maxAmount, w.clock))
            else w.pool.Withdraw(w.lenders[lender], maxAmount, w.clock) == Err(MathOverflow)
  {
    OwnShareWithinAll(w.lenders, lender);
    PageQuotesTheProgram(w.pool, w.lenders[lender], maxAmount, w.clock);
  }
}
