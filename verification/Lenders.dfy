/** Deposits and withdrawals: shares bought and burned at one price. */
module Lenders {
  import opened Outcomes
  import opened Numbers
  import opened Pools

  function Deposit(pool: PoolBook, shares: u64, amount: u64, now: i64): Result<(PoolBook, u64)> {
    var bought :- pool.SharesForDeposit(amount, now);
    var total :- U64(pool.totalShares + bought);
    var deposits :- U64(pool.totalDeposits + amount);
    var own :- U64(shares + bought);
    Ok((pool.(totalShares := total, totalDeposits := deposits), own))
  }

  function Withdraw(pool: PoolBook, shares: u64, maxAmount: u64, now: i64): Result<(PoolBook, u64, Withdrawal)> {
    var w :- pool.Withdraw(shares, maxAmount, now);
    var own :- U64(shares - w.shares);
    var total :- U64(pool.totalShares - w.shares);
    var deposits :- U64(pool.totalDeposits - w.paid);
    Ok((pool.(totalShares := total, totalDeposits := deposits), own, w))
  }

  class LenderShare {
    const owner: nat
    var shares: u64

    constructor (owner: nat)
      ensures this.owner == owner && shares == 0
    {
      this.owner, shares := owner, 0;
    }
  }

  method HandleDeposit(pool: Pool, share: LenderShare, amount: u64, now: i64) returns (r: Result<()>)
    modifies pool, share
    ensures match Deposit(old(pool.Book()), old(share.shares), amount, now)
            case Ok(v) => r == Ok(()) && pool.Book() == v.0 && share.shares == v.1
            case Err(e) => r == Err(e)
  {
    var bought :- pool.Book().SharesForDeposit(amount, now);
    pool.totalShares :- U64(pool.totalShares + bought);
    pool.totalDeposits :- U64(pool.totalDeposits + amount);
    share.shares :- U64(share.shares + bought);
    return Ok(());
  }

  method HandleWithdraw(pool: Pool, share: LenderShare, maxAmount: u64, now: i64) returns (r: Result<Withdrawal>)
    modifies pool, share
    ensures match Withdraw(old(pool.Book()), old(share.shares), maxAmount, now)
            case Ok(v) => r == Ok(v.2) && pool.Book() == v.0 && share.shares == v.1
            case Err(e) => r == Err(e)
  {
    var w :- pool.Book().Withdraw(share.shares, maxAmount, now);
    share.shares :- U64(share.shares as int - w.shares);
    pool.totalShares :- U64(pool.totalShares as int - w.shares);
    pool.totalDeposits :- U64(pool.totalDeposits as int - w.paid);
    return Ok(w);
  }

  // ----- One price for buying and redeeming -------------------------------------------------

  /** The worth of `shares` of the pool, as the page and the program both round it. */
  function WorthOf(pool: PoolBook, shares: nat, now: int): int
    requires pool.totalShares > 0
  {
    shares * pool.WorthAt(now) / pool.totalShares
  }

  lemma BoughtAtPrice(pool: PoolBook, amount: u64, now: i64)
    requires pool.totalShares > 0 && pool.SharesForDeposit(amount, now).Ok?
    ensures var bought := pool.SharesForDeposit(amount, now).value;
            && bought > 0 && pool.WorthAt(now) > 0
            && bought * pool.WorthAt(now) <= amount * pool.totalShares < (bought + 1) * pool.WorthAt(now)
  {
    ValueIsWorth(pool, now);
    var value := pool.WorthAt(now);
    DivBounds(amount * pool.totalShares, value);
  }

  /** A deposit never dilutes: the price per share is no lower after it. */
  lemma DepositKeepsPrice(pool: PoolBook, shares: u64, amount: u64, now: i64)
    requires pool.totalShares > 0 && Deposit(pool, shares, amount, now).Ok?
    ensures var after := Deposit(pool, shares, amount, now).value.0;
            && after.WorthAt(now) == pool.WorthAt(now) + amount
            && after.WorthAt(now) * pool.totalShares >= pool.WorthAt(now) * after.totalShares
  {
    BoughtAtPrice(pool, amount, now);
    var after := Deposit(pool, shares, amount, now).value.0;
    PriceUp(pool.WorthAt(now), pool.totalShares, amount, after.totalShares - pool.totalShares);
  }

  lemma PriceUp(v: int, s: int, a: int, m: int)
    requires m * v <= a * s
    ensures (v + a) * s >= v * (s + m)
  {
  }

  /** Deposited and withdrawn in the same second: never more than was paid, and short of it by at
      most one unit and the price of one share. */
  lemma RoundTripLosesLittle(pool: PoolBook, shares: u64, amount: u64, now: i64)
    requires pool.totalShares > 0 && Deposit(pool, shares, amount, now).Ok?
    ensures var after := Deposit(pool, shares, amount, now).value.0;
            var back := WorthOf(after, after.totalShares - pool.totalShares, now);
            && back <= amount
            && (amount - back - 1) * after.totalShares < after.WorthAt(now)
  {
    BoughtAtPrice(pool, amount, now);
    var after := Deposit(pool, shares, amount, now).value.0;
    RoundTrip(pool.WorthAt(now), pool.totalShares, amount, after.totalShares - pool.totalShares);
  }

  lemma RoundTrip(v: int, s: int, a: int, m: int)
    requires v > 0 && s > 0 && m > 0 && m * v <= a * s < (m + 1) * v && a > 0
    ensures m * (v + a) / (s + m) <= a
    ensures (a - m * (v + a) / (s + m) - 1) * (s + m) < v + a
  {
    var back := m * (v + a) / (s + m);
    DivBounds(m * (v + a), s + m);
    DivAtLeast(m * (v + a), s + m, a + 1);
    Expand(a, s, m, v, back);
  }

  lemma Expand(a: int, s: int, m: int, v: int, back: int)
    ensures m * (v + a) == m * v + m * a
    ensures (s + m) * (a + 1) == a * s + m * a + s + m
    ensures (a - back - 1) * (s + m) == a * s + m * a - (s + m) * back - (s + m)
    ensures (m + 1) * v == m * v + v
  {
  }

  /** With no shares out, a deposit redeems for itself and for whatever the last withdrawal left
      behind: it returns at most what was paid exactly when nothing was. */
  lemma FirstDepositTakesLeftovers(pool: PoolBook, shares: u64, amount: u64, now: i64)
    requires pool.totalShares == 0 && Deposit(pool, shares, amount, now).Ok?
    ensures var after := Deposit(pool, shares, amount, now).value.0;
            && after.totalShares == amount > 0
            && WorthOf(after, amount, now) == amount + pool.WorthAt(now)
  {
    var after := Deposit(pool, shares, amount, now).value.0;
    assert after.WorthAt(now) == amount + pool.WorthAt(now);
    DivUnique(amount * after.WorthAt(now), amount, after.WorthAt(now));
  }

  /** What a withdrawal pays and burns: no more than was asked for, than the shares are worth or
      than is free; never more shares than are held; and at no better than the pool's price. */
  lemma WithdrawalAtPrice(pool: PoolBook, shares: u64, maxAmount: u64, now: i64)
    requires pool.Withdraw(shares, maxAmount, now).Ok?
    ensures var w := pool.Withdraw(shares, maxAmount, now).value;
            && 0 < shares <= pool.totalShares
            && w.paid == Min(Min(maxAmount, WorthOf(pool, shares, now)), pool.totalDeposits - pool.totalBorrowed) > 0
            && w.shares <= shares
            && (w.paid == WorthOf(pool, shares, now) ==> w.shares == shares)
            && w.paid * pool.totalShares <= pool.WorthAt(now) * w.shares
            && (w.paid < WorthOf(pool, shares, now) ==>
                  pool.WorthAt(now) * (w.shares - 1) < w.paid * pool.totalShares)
  {
    var value, total := pool.WorthAt(now), pool.totalShares;
    WorthIsPlainFloor(pool, shares, now);
    ValueIsWorth(pool, now);
    var w := pool.Withdraw(shares, maxAmount, now).value;
    var worth := WorthOf(pool, shares, now);
    DivBounds(shares * value, total);
    BurnedForPaid(w.paid, total, value, shares, worth);
  }

  lemma BurnedForPaid(paid: nat, total: nat, value: int, shares: nat, worth: int)
    requires total > 0 && total * worth <= shares * value && 0 < paid <= worth && value >= 0
    ensures value > 0
    ensures paid * total <= value * shares
    ensures var burned := DivCeil(paid * total, value);
            && 0 <= burned <= shares
            && value * (burned - 1) < paid * total <= value * burned
  {
    MulMonotone(paid, worth, total);
    MulStrict(0, paid, total);
    assert shares * value > 0;
    var burned := DivCeil(paid * total, value);
    DivCeilBounds(paid * total, value);
    DivCeilAtMost(paid * total, value, shares);
    DivCeilAtMost(paid * total, value, -1);
    assert value * (burned - 1) == value * burned - value;
  }

  /** A withdrawal says why it paid less than was asked: all the shares are worth, or all that is
      free. */
  lemma LimitSaysWhy(pool: PoolBook, shares: u64, maxAmount: u64, now: i64)
    requires pool.Withdraw(shares, maxAmount, now).Ok?
    ensures var w := pool.Withdraw(shares, maxAmount, now).value;
            var worth, free := WorthOf(pool, shares, now), pool.totalDeposits - pool.totalBorrowed;
            && (w.limitedBy == None <==> maxAmount <= worth && maxAmount <= free)
            && (w.limitedBy == Some(PositionLimit) <==> worth < maxAmount && worth <= free)
            && (w.limitedBy == Some(LiquidityLimit) <==> free < maxAmount && free < worth)
  {
    WithdrawalAtPrice(pool, shares, maxAmount, now);
    WorthIsPlainFloor(pool, shares, now);
  }

  lemma PriceHolds(v: int, s: int, paid: int, burned: int)
    requires paid * s <= v * burned
    ensures (v - paid) * s >= v * (s - burned)
  {
  }

  lemma WithdrawalMoves(pool: PoolBook, shares: u64, maxAmount: u64, now: i64)
    requires Withdraw(pool, shares, maxAmount, now).Ok?
    ensures var (after, own, w) := Withdraw(pool, shares, maxAmount, now).value;
            && after == pool.(totalShares := after.totalShares, totalDeposits := after.totalDeposits)
            && after.totalShares == pool.totalShares - w.shares
            && after.totalDeposits == pool.totalDeposits - w.paid
            && own == shares - w.shares
            && after.WorthAt(now) == pool.WorthAt(now) - w.paid
            && pool.Withdraw(shares, maxAmount, now) == Ok(w)
  {
  }

  /** A withdrawal never dilutes those who stay. */
  lemma WithdrawalKeepsPrice(pool: PoolBook, shares: u64, maxAmount: u64, now: i64)
    requires Withdraw(pool, shares, maxAmount, now).Ok?
    ensures var after := Withdraw(pool, shares, maxAmount, now).value.0;
            after.WorthAt(now) * pool.totalShares >= pool.WorthAt(now) * after.totalShares
  {
    WithdrawalMoves(pool, shares, maxAmount, now);
    WithdrawalAtPrice(pool, shares, maxAmount, now);
    var w := Withdraw(pool, shares, maxAmount, now).value.2;
    PriceHolds(pool.WorthAt(now), pool.totalShares, w.paid, w.shares);
  }

  lemma LeftByLastShare(v: int, s: int, paid: int)
    requires v * (s - 1) < paid * s
    ensures (v - paid) * s < v
  {
  }

  /** Burning the last share leaves less than that share's price behind. */
  lemma LastShareLeavesLittle(pool: PoolBook, shares: u64, maxAmount: u64, now: i64)
    requires Withdraw(pool, shares, maxAmount, now).Ok?
    requires Withdraw(pool, shares, maxAmount, now).value.0.totalShares == 0
    ensures Withdraw(pool, shares, maxAmount, now).value.0.WorthAt(now) * pool.totalShares < pool.WorthAt(now)
  {
    WithdrawalMoves(pool, shares, maxAmount, now);
    WithdrawalAtPrice(pool, shares, maxAmount, now);
    var w := Withdraw(pool, shares, maxAmount, now).value.2;
    if w.paid == WorthOf(pool, shares, now) {
      WholePoolIsWorthAll(pool, now);
      BurnedForAll(w.paid, pool.totalShares, pool.WorthAt(now));
    }
    LeftByLastShare(pool.WorthAt(now), pool.totalShares, w.paid);
  }

  lemma WholePoolIsWorthAll(pool: PoolBook, now: int)
    requires pool.totalShares > 0
    ensures WorthOf(pool, pool.totalShares, now) == pool.WorthAt(now)
  {
    DivUnique(pool.totalShares * pool.WorthAt(now), pool.totalShares, pool.WorthAt(now));
  }

  lemma BurnedForAll(paid: int, total: int, value: int)
    requires paid == value > 0
    ensures value * (total - 1) < paid * total
  {
  }

  /** Whatever the pool, a quoted withdrawal goes through: no subtraction of the handler fails. */
  lemma WithdrawalBooksAlwaysFit(pool: PoolBook, shares: u64, maxAmount: u64, now: i64)
    requires pool.Withdraw(shares, maxAmount, now).Ok?
    ensures Withdraw(pool, shares, maxAmount, now).Ok?
  {
    WithdrawalAtPrice(pool, shares, maxAmount, now);
  }
}
