/** The pool's book: running sums over the open loans, and the price of a lender's share. */
module Pools {
  import opened Outcomes
  import opened Numbers
  import opened Loans

  datatype WithdrawalLimit = PositionLimit | LiquidityLimit

  datatype Withdrawal = Withdrawal(paid: u64, shares: u64, limitedBy: Option<WithdrawalLimit>)

  datatype PoolBook = PoolBook(
    totalShares: u64,
    totalDeposits: u64,
    totalBorrowed: u64,
    accruedInterest: u64,
    accrualRate: u128,
    accrualRateTime: u128,
    accrualRemainders: u128,
    baseAprBps: u16,
    slopeAprBps: u16)
  {
    function FreeLiquidity(): Result<u64> {
      U64(totalDeposits - totalBorrowed)
    }

    function Track(loan: LoanState): Result<PoolBook> {
      if !loan.IsOpen() then Ok(this) else
      var terms :- loan.Terms();
      var rate :- U128(accrualRate + terms.rate);
      var rateTime :- U128(accrualRateTime + terms.rateTime);
      var remainders :- U128(accrualRemainders + terms.remainder);
      Ok(this.(accrualRate := rate, accrualRateTime := rateTime, accrualRemainders := remainders))
    }

    function Untrack(loan: LoanState): Result<PoolBook> {
      if !loan.IsOpen() then Ok(this) else
      var terms :- loan.Terms();
      var rate :- U128(accrualRate - terms.rate);
      var rateTime :- U128(accrualRateTime - terms.rateTime);
      var remainders :- U128(accrualRemainders - terms.remainder);
      Ok(this.(accrualRate := rate, accrualRateTime := rateTime, accrualRemainders := remainders))
    }

    /** `unbooked_interest`, with the program's refusals. */
    function UnbookedInterest(now: i64): Result<u64> {
      var at :- U128(now);
      var product :- U128(accrualRate * at);
      var earned :- U128(product + accrualRemainders);
      U64(Max(earned - accrualRateTime, 0) / ACCRUAL_DENOMINATOR)
    }

    function Value(now: i64): Result<u128> {
      var unbooked :- UnbookedInterest(now);
      Ok(totalDeposits + accruedInterest + unbooked)
    }

    /** The value without the program's integer widths. */
    function WorthAt(now: int): int {
      totalDeposits + accruedInterest
      + Max(accrualRate * now + accrualRemainders - accrualRateTime, 0) / ACCRUAL_DENOMINATOR
    }

    function SharesForDeposit(amount: u64, now: i64): Result<u64> {
      if amount == 0 then Err(InvalidAmount) else
      if totalShares == 0 then Ok(amount) else
      var value :- Value(now);
      if value == 0 then Err(MathOverflow) else
      var shares :- U64(amount * totalShares / value);
      :- Require(shares > 0, DepositTooSmall);
      Ok(shares)
    }

    function ValueOfShares(shares: u64, now: i64): Result<u64> {
      if shares > totalShares then Err(MathOverflow) else
      if shares == 0 then Ok(0) else
      var value :- Value(now);
      SplitProduct(shares, value, totalShares)
    }

    function Withdraw(shares: u64, maxAmount: u64, now: i64): Result<Withdrawal> {
      if maxAmount == 0 then Err(InvalidAmount) else
      var worth :- ValueOfShares(shares, now);
      :- Require(worth > 0, NothingToWithdraw);
      var free :- FreeLiquidity();
      :- Require(free > 0, NoFreeLiquidity);
      var paid := Min(Min(maxAmount, worth), free);
      var limitedBy := if paid == maxAmount then None
                       else if paid == worth then Some(PositionLimit) else Some(LiquidityLimit);
      if paid == worth then Ok(Withdrawal(paid, shares, limitedBy)) else
      var value :- Value(now);
      if value == 0 then Err(MathOverflow) else
      var burned :- U64(DivCeil(paid * totalShares, value));
      Ok(Withdrawal(paid, burned, limitedBy))
    }

    function QuoteAprBps(amount: u64): Result<u16> {
      var borrowed := totalBorrowed + amount;
      :- Require(totalDeposits > 0 && borrowed <= totalDeposits, InsufficientLiquidity);
      U16(baseAprBps + DivCeil(slopeAprBps * borrowed, totalDeposits))
    }
  }

  /** shares * value / total as the program computes it: the value is split by the shares first,
      so that no product passes u128. */
  function SplitProduct(shares: nat, value: nat, total: nat): Result<u64>
    requires total > 0
  {
    var whole :- U128(shares * (value / total));
    var part :- U128(shares * (value % total));
    var worth :- U128(whole + part / total);
    U64(worth)
  }

  // ----- The program's widths against plain arithmetic --------------------------------------

  lemma ValueIsWorth(pool: PoolBook, now: i64)
    ensures pool.Value(now).Ok? ==> pool.Value(now).value == pool.WorthAt(now)
    ensures pool.Value(now).Ok? <==>
            && 0 <= now
            && pool.accrualRate * now + pool.accrualRemainders <= U128_MAX
            && pool.WorthAt(now) - pool.totalDeposits - pool.accruedInterest <= U64_MAX
  {
    if 0 <= now {
      MulMonotone(0, now, pool.accrualRate);
    }
  }

  lemma Distribute(a: int, b: int, c: int, d: int)
    ensures a * (b * c + d) == a * d + b * (a * c)
  {
  }

  lemma SplitFloor(shares: nat, value: nat, total: nat)
    requires total > 0
    ensures shares * (value / total) + shares * (value % total) / total == shares * value / total
  {
    DivBounds(value, total);
    var q, r := value / total, value % total;
    Distribute(shares, total, q, r);
    DivShift(shares * r, total, shares * q);
  }

  lemma SplitBounds(shares: nat, value: nat, total: nat)
    requires shares <= total && total > 0
    ensures 0 <= shares * (value / total) <= value
    ensures 0 <= shares * (value % total) <= total * total
    ensures 0 <= shares * value / total <= value
  {
    var q, r := value / total, value % total;
    DivBounds(value, total);
    DivAtLeast(value, total, 0);
    MulMonotone(0, shares, q);
    MulMonotone(shares, total, q);
    MulMonotone(0, shares, r);
    MulMonotone(shares, total, r);
    MulMonotone(r, total, total);
    ShareOfWhole(shares, value, total);
  }

  lemma ShareOfWhole(shares: nat, value: nat, total: nat)
    requires shares <= total && total > 0
    ensures 0 <= shares * value / total <= value
  {
    MulMonotone(0, shares, value);
    MulMonotone(shares, total, value);
    DivAtLeast(shares * value, total, 0);
    DivAtLeast(shares * value, total, value + 1);
  }

  lemma SplitProductIsPlainFloor(shares: nat, value: nat, total: u64)
    requires shares <= total && total > 0 && value <= 3 * U64_MAX
    ensures SplitProduct(shares, value, total) == U64(shares * value / total)
  {
    SplitFloor(shares, value, total);
    SplitBounds(shares, value, total);
    MulMonotone(total, U64_MAX, total);
    var whole, part := shares * (value / total), shares * (value % total);
    assert U128(whole) == Ok(whole) && U128(part) == Ok(part);
  }

  /** The split product is the plain floor of shares * value / total, and neither product nor
      their sum can pass u128: the refusal is only ever the value's own, or a worth past u64. */
  lemma WorthIsPlainFloor(pool: PoolBook, shares: u64, now: i64)
    requires 0 < shares <= pool.totalShares
    ensures pool.ValueOfShares(shares, now).Ok? <==>
            pool.Value(now).Ok? && shares * pool.WorthAt(now) / pool.totalShares <= U64_MAX
    ensures pool.ValueOfShares(shares, now).Ok? ==>
            pool.ValueOfShares(shares, now).value == shares * pool.WorthAt(now) / pool.totalShares
    ensures pool.ValueOfShares(shares, now).Err? ==> pool.ValueOfShares(shares, now).error == MathOverflow
  {
    ValueIsWorth(pool, now);
    if pool.Value(now).Ok? {
      SplitProductIsPlainFloor(shares, pool.WorthAt(now), pool.totalShares);
      SplitBounds(shares, pool.WorthAt(now), pool.totalShares);
    }
  }

  /** The quoted rate: the base, and the least premium that is no less than the slope's share of the
      utilisation after the loan. */
  lemma QuoteRoundsUp(pool: PoolBook, amount: u64)
    requires pool.QuoteAprBps(amount).Ok?
    ensures var premium := pool.QuoteAprBps(amount).value - pool.baseAprBps;
            && 0 <= premium <= pool.slopeAprBps
            && (premium - 1) * pool.totalDeposits < pool.slopeAprBps * (pool.totalBorrowed + amount)
                                                 <= premium * pool.totalDeposits
  {
    LeastPremium(pool.slopeAprBps, pool.totalBorrowed + amount, pool.totalDeposits);
  }

  lemma LeastPremium(slope: int, borrowed: int, deposits: int)
    requires 0 <= slope && 0 <= borrowed <= deposits && deposits > 0
    ensures var premium := DivCeil(slope * borrowed, deposits);
            && 0 <= premium <= slope
            && (premium - 1) * deposits < slope * borrowed <= premium * deposits
  {
    var premium := DivCeil(slope * borrowed, deposits);
    MulMonotone(borrowed, deposits, slope);
    MulMonotone(0, borrowed, slope);
    DivCeilAtMost(slope * borrowed, deposits, slope);
    DivCeilAtMost(slope * borrowed, deposits, -1);
    DivCeilBounds(slope * borrowed, deposits);
    assert (premium - 1) * deposits == deposits * premium - deposits;
  }

  // ----- The class the program updates ------------------------------------------------------

  class Pool {
    var totalShares: u64
    var totalDeposits: u64
    var totalBorrowed: u64
    var accruedInterest: u64
    var accrualRate: u128
    var accrualRateTime: u128
    var accrualRemainders: u128
    const baseAprBps: u16
    const slopeAprBps: u16

    /** `initialize_pool`, whose guard keeps the steepest quote within u16. */
    constructor (baseAprBps: u16, slopeAprBps: u16)
      requires baseAprBps + slopeAprBps <= U16_MAX
      ensures Book() == PoolBook(0, 0, 0, 0, 0, 0, 0, baseAprBps, slopeAprBps)
    {
      this.baseAprBps, this.slopeAprBps := baseAprBps, slopeAprBps;
      totalShares, totalDeposits, totalBorrowed, accruedInterest := 0, 0, 0, 0;
      accrualRate, accrualRateTime, accrualRemainders := 0, 0, 0;
    }

    function Book(): PoolBook
      reads this
    {
      PoolBook(totalShares, totalDeposits, totalBorrowed, accruedInterest,
               accrualRate, accrualRateTime, accrualRemainders, baseAprBps, slopeAprBps)
    }

    /** Each sum is written as soon as it is checked, so a refusal part way leaves the earlier
        ones changed: the runtime then drops the whole transaction. */
    method Track(loan: LoanState) returns (r: Result<()>)
      modifies this
      ensures match old(Book()).Track(loan)
              case Ok(book) => r == Ok(()) && Book() == book
              case Err(e) => r == Err(e)
    {
      if !loan.IsOpen() {
        return Ok(());
      }
      var terms :- loan.Terms();
      accrualRate :- U128(accrualRate + terms.rate);
      accrualRateTime :- U128(accrualRateTime + terms.rateTime);
      accrualRemainders :- U128(accrualRemainders + terms.remainder);
      return Ok(());
    }

    method Untrack(loan: LoanState) returns (r: Result<()>)
      modifies this
      ensures match old(Book()).Untrack(loan)
              case Ok(book) => r == Ok(()) && Book() == book
              case Err(e) => r == Err(e)
    {
      if !loan.IsOpen() {
        return Ok(());
      }
      var terms :- loan.Terms();
      accrualRate :- U128(accrualRate - terms.rate);
      accrualRateTime :- U128(accrualRateTime - terms.rateTime);
      accrualRemainders :- U128(accrualRemainders - terms.remainder);
      return Ok(());
    }
  }
}
