/** What a deposit, a withdrawal and a repayment do to everyone's accounts, and exactly when they are
    refused. */
module Effects {
  import opened Outcomes
  import opened Numbers
  import opened Sums
  import opened Loans
  import opened Pools
  import opened Settlement
  import opened Protocol
  import opened Ledger
  import opened Solvency
  import Lenders

  function SharesOf(w: World, lender: nat): nat {
    if lender < |w.lenders| then w.lenders[lender] else 0
  }

  /** Every lender but this one holds what it held. */
  ghost predicate OthersHold(w: World, v: World, lender: nat) {
    forall i: nat {:trigger SharesOf(v, i)} :: i != lender ==> SharesOf(v, i) == SharesOf(w, i)
  }

  lemma {:induction false} ShareWithinTotal(shares: seq<u64>, i: nat)
    requires i < |shares|
    ensures shares[i] <= Total(shares)
  {
    TotalUpdate(shares, i, 0);
    TotalNotNegative(shares[i := 0]);
  }

  lemma {:induction false} TotalNotNegative(xs: seq<u64>)
    ensures Total(xs) >= 0
  {
    if xs == [] {
    } else {
      TotalNotNegative(xs[..|xs| - 1]);
    }
  }

  /** The pool's value and what it is made of fit. */
  predicate ValueFits(pool: PoolBook, now: int) {
    && pool.accrualRate * now + pool.accrualRemainders <= U128_MAX
    && pool.WorthAt(now) - pool.totalDeposits - pool.accruedInterest <= U64_MAX
  }

  // ----- Deposits ---------------------------------------------------------------------------

  /** The shares a deposit buys: one a unit from an empty pool, otherwise as many as it pays for. */
  function Bought(pool: PoolBook, amount: nat, now: int): int {
    if pool.totalShares == 0 then amount
    else if pool.WorthAt(now) == 0 then 0 else amount * pool.totalShares / pool.WorthAt(now)
  }

  /** The depositor's shares grow by what it bought, and the pool's total by as much; the amount is in
      the deposits and in the vault; nothing else moves. */
  lemma DepositMoves(w: World, lender: nat, amount: u64)
    requires DoDeposit(w, lender, amount).Ok?
    ensures var v := DoDeposit(w, lender, amount).value;
            var bought := Bought(w.pool, amount, w.clock);
            && lender <= |w.lenders| && |v.lenders| == Max(|w.lenders|, lender + 1)
            && SharesOf(v, lender) == SharesOf(w, lender) + bought && OthersHold(w, v, lender)
            && v.pool == w.pool.(totalShares := w.pool.totalShares + bought,
                                 totalDeposits := w.pool.totalDeposits + amount)
            && v == w.(pool := v.pool, lenders := v.lenders, vault := w.vault + amount)
  {
    var v := DoDeposit(w, lender, amount).value;
    ValueIsWorth(w.pool, w.clock);
    forall i: nat | i != lender ensures SharesOf(v, i) == SharesOf(w, i) {}
  }

  /** In every sound world a deposit is refused exactly for skipping a place among the lenders, for
      nothing, for less than a share, for a pool whose value is nothing or does not fit, or for a total
      that does not. */
  lemma DepositRefusedExactly(w: World, lender: nat, amount: u64)
    requires Sound(w)
    ensures DoDeposit(w, lender, amount).Ok? <==>
            && lender <= |w.lenders| && amount > 0
            && (w.pool.totalShares > 0 ==> ValueFits(w.pool, w.clock) && w.pool.WorthAt(w.clock) > 0)
            && 0 < Bought(w.pool, amount, w.clock)
            && w.pool.totalShares + Bought(w.pool, amount, w.clock) <= U64_MAX
            && w.pool.totalDeposits + amount <= U64_MAX
  {
    ValueIsWorth(w.pool, w.clock);
    if lender <= |w.lenders| {
      var lenders: seq<u64> := if lender == |w.lenders| then w.lenders + [0] else w.lenders;
      TotalAppend(w.lenders, 0);
      ShareWithinTotal(lenders, lender);
    }
  }

  // ----- Withdrawals ------------------------------------------------------------------------

  /** All the shares for all they are worth, otherwise the fewest that cover what is paid. */
  predicate BurnsFewest(pool: PoolBook, shares: nat, paid: int, burned: int, now: int)
    requires pool.totalShares > 0
  {
    var value, cost := pool.WorthAt(now), paid * pool.totalShares;
    if paid == Lenders.WorthOf(pool, shares, now) then burned == shares
    else 0 < burned <= shares && value * (burned - 1) < cost <= value * burned
  }

  lemma WithdrawalBurns(pool: PoolBook, shares: u64, maxAmount: u64, now: i64)
    requires pool.Withdraw(shares, maxAmount, now).Ok?
    ensures pool.totalShares > 0
    ensures var w := pool.Withdraw(shares, maxAmount, now).value;
            && w.paid
               == Min(Min(maxAmount, Lenders.WorthOf(pool, shares, now)), pool.totalDeposits - pool.totalBorrowed)
            && BurnsFewest(pool, shares, w.paid, w.shares, now)
  {
    Lenders.WithdrawalAtPrice(pool, shares, maxAmount, now);
    var w := pool.Withdraw(shares, maxAmount, now).value;
    if w.shares == 0 {
      MulStrict(0, w.paid, pool.totalShares);
    }
  }

  /** The withdrawer is paid the least of what it asked for, what its shares are worth and what is free,
      out of the deposits and the vault; all its shares are burned if that is all they are worth, and
      otherwise the fewest that cover it, off its own and off the pool's total; nothing else moves. */
  lemma WithdrawalMoves(w: World, lender: nat, maxAmount: u64)
    requires Sound(w) && DoWithdraw(w, lender, maxAmount).Ok?
    ensures lender < |w.lenders| && w.pool.totalShares > 0
    ensures var v := DoWithdraw(w, lender, maxAmount).value;
            var paid := Min(Min(maxAmount, Lenders.WorthOf(w.pool, w.lenders[lender], w.clock)), w.vault);
            var burned := w.lenders[lender] - SharesOf(v, lender);
            && |v.lenders| == |w.lenders| && OthersHold(w, v, lender)
            && BurnsFewest(w.pool, w.lenders[lender], paid, burned, w.clock)
            && v.pool == w.pool.(totalShares := v.pool.totalShares, totalDeposits := v.pool.totalDeposits)
            && v.pool.totalShares == w.pool.totalShares - burned
            && v.pool.totalDeposits == w.pool.totalDeposits - paid && v.vault == w.vault - paid
            && v == w.(pool := v.pool, lenders := v.lenders, vault := v.vault)
  {
    var v := DoWithdraw(w, lender, maxAmount).value;
    Lenders.WithdrawalMoves(w.pool, w.lenders[lender], maxAmount, w.clock);
    WithdrawalBurns(w.pool, w.lenders[lender], maxAmount, w.clock);
    forall i: nat | i != lender ensures SharesOf(v, i) == SharesOf(w, i) {}
  }

  /** In every sound world a withdrawal is refused exactly for a lender there is not, for nothing, for
      shares worth nothing or more than fits, or for an empty vault. */
  lemma WithdrawalRefusedExactly(w: World, lender: nat, maxAmount: u64)
    requires Sound(w)
    ensures DoWithdraw(w, lender, maxAmount).Ok? <==>
            && lender < |w.lenders| && maxAmount > 0 && w.lenders[lender] > 0 && w.vault > 0
            && ValueFits(w.pool, w.clock) && w.pool.totalShares > 0
            && 0 < Lenders.WorthOf(w.pool, w.lenders[lender], w.clock) <= U64_MAX
  {
    if lender < |w.lenders| {
      ShareWithinTotal(w.lenders, lender);
      QuotedWithdrawalIsPaid(w, lender, maxAmount);
      if w.lenders[lender] > 0 && maxAmount > 0 {
        WithdrawsExactly(w, lender, maxAmount);
      }
    }
  }

  lemma WithdrawsExactly(w: World, lender: nat, maxAmount: u64)
    requires Sound(w) && lender < |w.lenders| && maxAmount > 0 && 0 < w.lenders[lender] <= w.pool.totalShares
    ensures w.pool.Withdraw(w.lenders[lender], maxAmount, w.clock).Ok? <==>
            && ValueFits(w.pool, w.clock) && w.vault > 0
            && 0 < Lenders.WorthOf(w.pool, w.lenders[lender], w.clock) <= U64_MAX
  {
    WorthIsPlainFloor(w.pool, w.lenders[lender], w.clock);
    var worth := w.pool.ValueOfShares(w.lenders[lender], w.clock);
    ValueIsWorth(w.pool, w.clock);
    if worth.Ok? && worth.value > 0 && w.vault > 0 {
      BurnedFits(w.pool.WorthAt(w.clock), w.pool.totalShares, w.lenders[lender],
                 Min(Min(maxAmount, worth.value), w.vault));
    }
  }

  lemma BurnedFits(value: int, total: nat, shares: nat, paid: nat)
    requires 0 < shares <= total && 0 < paid <= shares * value / total
    ensures value > 0 && 0 <= DivCeil(paid * total, value) <= shares
  {
    DivBounds(shares * value, total);
    if value < 0 {
      MulMonotone(value, -1, shares);
    }
    Lenders.BurnedForPaid(paid, total, value, shares, shares * value / total);
  }

  // ----- Repayments -------------------------------------------------------------------------

  /** A repayment takes the lesser of what was offered and the loan's debt at this second, into the
      vault; the loan is closed exactly if that was all of it; no other loan and no other account moves. */
  lemma RepaymentMoves(w: World, loan: nat, maxAmount: u64)
    requires Sound(w) && DoRepay(w, loan, maxAmount).Ok?
    ensures loan < |w.loans|
    ensures var v, l := DoRepay(w, loan, maxAmount).value, w.loans[loan];
            var paid := Min(maxAmount, DebtNow(l, w.clock));
            && v.loans == w.loans[loan := v.loans[loan]] && LoanPaid(l, v.loans[loan], paid, w.clock)
            && v.vault == w.vault + paid
            && AccountFollows(w.Account(l.operator), v.Account(l.operator), l, v.loans[loan])
            && v.operators == w.operators[l.operator := v.Account(l.operator)]
            && PoolFollows(w.pool, v.pool, l, v.loans[loan], paid)
            && v == w.(pool := v.pool, operators := v.operators, loans := v.loans, vault := v.vault)
  {
    var l := w.loans[loan];
    SettleMoves(w.pool, w.Account(l.operator), l, w.clock, maxAmount);
  }
}
