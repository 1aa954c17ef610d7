/** The instruction handlers as the program runs them, on the accounts themselves: each is held to
    the transaction it is specified by. A refused one may leave accounts half changed, and the
    runtime then drops every change. */
module Handlers {
  import opened Outcomes
  import opened Numbers
  import opened Loans
  import opened Pools
  import opened Operators
  import opened Settlement
  import Borrowing
  import Sweeping

  /** Stablecoin held by the pool or by a conversion vault. */
  class Vault {
    var amount: nat

    constructor (amount: nat)
      ensures this.amount == amount
    {
      this.amount := amount;
    }
  }

  /** The operator's reward account; `delegated` is what the operator account may take from it. */
  class TokenAccount {
    var amount: u64
    var delegated: Option<u64>

    constructor (amount: u64, delegated: Option<u64>)
      ensures State() == Sweeping.RewardAccount(amount, delegated)
    {
      this.amount, this.delegated := amount, delegated;
    }

    function State(): Sweeping.RewardAccount
      reads this
    {
      Sweeping.RewardAccount(amount, delegated)
    }

    /** The delegate's transfer out; the token program drops a delegate left with nothing. */
    method TakeDelegated(taken: u64) returns (r: Result<()>)
      modifies this
      ensures if taken <= old(amount) && taken <= old(State()).Allowance()
              then r == Ok(()) && State() == old(State()).TakenFrom(taken)
              else r == Err(InsufficientFunds) && unchanged(this)
    {
      if taken > amount || taken > State().Allowance() {
        return Err(InsufficientFunds);
      }
      if taken > 0 {
        amount := amount - taken;
        delegated := if taken == delegated.value then None else Some(delegated.value - taken);
      }
      return Ok(());
    }
  }

  /** What the account held when its payouts were last measured; not started before the first loan. */
  class RewardWatch {
    var started: bool
    var balance: u64

    constructor ()
      ensures State() == None
    {
      started, balance := false, 0;
    }

    function State(): Option<u64>
      reads this
    {
      if started then Some(balance) else None
    }
  }

  // ----- Several loans at once --------------------------------------------------------------

  /** Different accounts have different addresses, and the same address is the same account. */
  ghost predicate OneAccountPerKey(loans: seq<Loan>) {
    forall i, j :: 0 <= i < |loans| && 0 <= j < |loans| ==> (loans[i].key == loans[j].key <==> loans[i] == loans[j])
  }

  ghost predicate Apart(loans: seq<Loan>) {
    forall i, j :: 0 <= i < j < |loans| ==> loans[i] != loans[j]
  }

  function Keys(loans: seq<Loan>): seq<nat> {
    seq(|loans|, i requires 0 <= i < |loans| => loans[i].key)
  }

  function States(loans: seq<Loan>): seq<LoanState>
    reads loans
  {
    seq(|loans|, i requires 0 <= i < |loans| reads loans => loans[i].State())
  }

  /** Whether the loan's account was listed before. */
  method ListedBefore(loans: seq<Loan>, index: nat) returns (found: bool)
    requires index < |loans|
    ensures found <==> Keys(loans)[index] in Keys(loans)[..index]
  {
    for i := 0 to index
      invariant Keys(loans)[index] !in Keys(loans)[..i]
    {
      if loans[i].key == loans[index].key {
        assert Keys(loans)[..index][i] == Keys(loans)[index];
        return true;
      }
    }
    return false;
  }

  // ----- Repay ------------------------------------------------------------------------------

  method HandleRepay(pool: Pool, account: OperatorAccount, loan: Loan, vault: Vault, now: i64, maxAmount: u64)
    returns (r: Result<()>)
    requires account.Valid()
    modifies pool, account`totalDebt, account`openLoans, loan, vault
    ensures match Settle(old(pool.Book()), old(account.State()), old(loan.State()), now, maxAmount)
            case Ok(s) =>
              && r == Ok(())
              && pool.Book() == s.pool && account.State() == s.account && loan.State() == s.loan
              && vault.amount == old(vault.amount) + s.paid
            case Err(e) => r == Err(e)
  {
    var paid :- SettleLoan(pool, account, loan, now, maxAmount);
    vault.amount := vault.amount + paid;
    return Ok(());
  }

  // ----- Borrow -----------------------------------------------------------------------------

  method AccrueLoan(pool: Pool, loan: Loan, accrued: u64, ceiling: u64, mint: nat, now: i64) returns (r: Result<(u64,
                    u64)>)
    modifies pool, loan
    ensures match Borrowing.AccrueLoan(old(pool.Book()), old(loan.State()), accrued, ceiling, mint, now)
            case Ok(s) => r == Ok((s.accrued, s.ceiling)) && pool.Book() == s.pool && loan.State() == s.loan
            case Err(e) => r == Err(e)
  {
    if loan.manualRepayment.Some? {
      return Err(ManualRepaymentPending);
    }
    var _ :- pool.Untrack(loan.State());
    var interest :- loan.Accrue(now);
    var total :- U64(accrued + interest);
    var _ :- pool.Track(loan.State());
    if loan.rewardMint != mint {
      return Ok((total, ceiling));
    }
    var debt :- loan.State().DebtCeiling(now);
    var most :- U64(ceiling + debt);
    return Ok((total, most));
  }

  /** The loan at `index`, if it is an open loan of the operator not listed before. */
  method AccrueListed(loans: seq<Loan>, index: nat, operator: nat, pool: Pool, accrued: u64, ceiling: u64, mint: nat,
                      now: i64) returns (r: Result<(u64, u64)>)
    requires index < |loans|
    modifies pool, loans[index]
    ensures match Borrowing.AccrueIfListed(old(pool.Book()), Keys(loans)[index] in Keys(loans)[..index],
                                           old(loans[index].State()), operator, accrued, ceiling, mint, now)
            case Ok(s) => r == Ok((s.accrued, s.ceiling)) && pool.Book() == s.pool && loans[index].State() == s.loan
            case Err(e) => r == Err(e)
  {
    var seen := ListedBefore(loans, index);
    if seen || loans[index].operator != operator || loans[index].status == Repaid {
      return Err(OpenLoansMismatch);
    }
    r := AccrueLoan(pool, loans[index], accrued, ceiling, mint, now);
  }

  /** The loans brought up so far are the specification's, and so is every loan not listed yet. */
  ghost predicate AccruedSoFar(loans: seq<Loan>, a: Borrowing.Accruing, i: nat)
    reads loans
    requires i <= |loans|
  {
    && |a.loans| == |loans|
    && forall j :: 0 <= j < |loans| && (j < i || Keys(loans)[j] !in Keys(loans)[..i]) ==> loans[j].State() == a.loans[j]
  }

  method AccrueOpenLoans(loans: seq<Loan>, operator: nat, pool: Pool, openLoans: u32, mint: nat, now: i64)
    returns (r: Result<(u64, u64)>)
    requires OneAccountPerKey(loans)
    modifies pool, loans
    ensures match Borrowing.AccrueOpenLoans(old(pool.Book()), Keys(loans), old(States(loans)), operator, openLoans,
                                            mint, now)
            case Ok(a) => r == Ok((a.accrued, a.ceiling)) && pool.Book() == a.pool && States(loans) == a.loans
            case Err(e) => r == Err(e)
  {
    if |loans| != openLoans {
      return Err(OpenLoansMismatch);
    }
    ghost var book, states := pool.Book(), States(loans);
    ghost var a := Borrowing.Accruing(book, states, 0, 0);
    var accrued: u64, ceiling: u64 := 0, 0;
    for i := 0 to |loans|
      invariant Borrowing.AccrueFirst(book, Keys(loans), states, operator, mint, now, i) == Ok(a)
      invariant a.pool == pool.Book() && a.accrued == accrued && a.ceiling == ceiling
      invariant AccruedSoFar(loans, a, i)
    {
      var step;
      step, a := AccrueIndexed(loans, i, operator, pool, accrued, ceiling, mint, now, book, states, a);
      if step.Err? {
        Borrowing.RefusalStays(book, Keys(loans), states, operator, mint, now, i + 1, |loans|);
        return Err(step.error);
      }
      accrued, ceiling := step.value.0, step.value.1;
    }
    assert States(loans) == a.loans;
    return Ok((accrued, ceiling));
  }

  method AccrueIndexed(loans: seq<Loan>, i: nat, operator: nat, pool: Pool, accrued: u64, ceiling: u64, mint: nat,
                       now: i64,
                       ghost book: PoolBook, ghost states: seq<LoanState>, ghost a: Borrowing.Accruing)
    returns (r: Result<(u64, u64)>, ghost c: Borrowing.Accruing)
    requires OneAccountPerKey(loans) && i < |loans| == |states|
    requires Borrowing.AccrueFirst(book, Keys(loans), states, operator, mint, now, i) == Ok(a)
    requires a.pool == pool.Book() && a.accrued == accrued && a.ceiling == ceiling && AccruedSoFar(loans, a, i)
    modifies pool, loans[i]
    ensures match r
            case Ok(v) =>
              && Borrowing.AccrueFirst(book, Keys(loans), states, operator, mint, now, i + 1) == Ok(c)
              && c.pool == pool.Book() && c.accrued == v.0 && c.ceiling == v.1 && AccruedSoFar(loans, c, i + 1)
            case Err(e) => Borrowing.AccrueFirst(book, Keys(loans), states, operator, mint, now, i + 1) == Err(e)
  {
    Borrowing.AccrueNext(book, Keys(loans), states, operator, mint, now, i);
    r := AccrueListed(loans, i, operator, pool, accrued, ceiling, mint, now);
    c := a;
    if r.Ok? {
      c := Borrowing.Accruing(pool.Book(), a.loans[i := loans[i].State()], r.value.0, r.value.1);
      assert Keys(loans)[..i + 1][i] == Keys(loans)[i];
      forall j | 0 <= j < |loans| && (j < i + 1 || Keys(loans)[j] !in Keys(loans)[..i + 1])
        ensures loans[j].State() == c.loans[j]
      {
        if j < i {
          assert Keys(loans)[..i][j] == Keys(loans)[j];
        }
      }
    }
  }

  /** The operator's side of a borrow, past the nonce. */
  method AdmitBorrow(account: OperatorAccount, t: Borrowing.Terms, accrued: u64) returns (r: Result<()>)
    requires account.Valid()
    modifies account`totalDebt, account`openLoans
    ensures match Borrowing.Admit(old(account.State()), t, accrued)
            case Ok(state) => r == Ok(()) && account.State() == state
            case Err(e) => r == Err(e)
  {
    var grown :- U64(account.totalDebt + accrued);
    account.totalDebt :- U64(grown + t.amount);
    if account.totalDebt > t.limit {
      return Err(CreditLimitExceeded);
    }
    account.openLoans :- U32(account.openLoans + 1);
    return Ok(());
  }

  /** The pool's side, which prices the loan. */
  method LendFromPool(pool: Pool, t: Borrowing.Terms, accrued: u64) returns (r: Result<u16>)
    modifies pool
    ensures match Borrowing.Lend(old(pool.Book()), t, accrued)
            case Ok(lent) => r == Ok(lent.1) && pool.Book() == lent.0
            case Err(e) => r == Err(e)
  {
    pool.accruedInterest :- U64(pool.accruedInterest + accrued);
    var free :- pool.Book().FreeLiquidity();
    if t.amount > free {
      return Err(InsufficientLiquidity);
    }
    var aprBps :- pool.Book().QuoteAprBps(t.amount);
    if aprBps > t.maxAprBps {
      return Err(RateAboveMaximum);
    }
    // Within the deposits, so this cannot overflow.
    pool.totalBorrowed := pool.totalBorrowed + t.amount;
    return Ok(aprBps);
  }

  /** The checks on the account before any loan is looked at; the nonce is spent first. */
  method SpendNonce(account: OperatorAccount, nonce: u64) returns (r: Result<()>)
    requires account.Valid()
    modifies account`nonceFloor, account.usedNonces
    ensures match old(account.State()).window.Consume(nonce)
            case Err(e) => r == Err(e)
            case Ok(window) =>
              if old(account.overdue) then r == Err(OperatorOverdue)
              else if old(account.openLoans) >= MAX_OPEN_LOANS then r == Err(TooManyOpenLoans)
              else r == Ok(()) && account.State() == old(account.State()).(window := window)
  {
    var _ :- account.ConsumeNonce(nonce);
    if account.overdue {
      return Err(OperatorOverdue);
    }
    if account.openLoans >= MAX_OPEN_LOANS {
      return Err(TooManyOpenLoans);
    }
    return Ok(());
  }

  method EnterBorrow(pool: Pool, account: OperatorAccount, loans: seq<Loan>, t: Borrowing.Terms, now: i64)
    returns (r: Result<(u64, u64)>)
    requires account.Valid() && OneAccountPerKey(loans)
    modifies pool, account, account.usedNonces, loans
    ensures match Borrowing.Enter(old(Books(pool.Book(), account.State(), States(loans))), Keys(loans), t, now)
            case Err(e) => r == Err(e)
            case Ok(entered) =>
              && r == Ok((entered.1.accrued, entered.1.ceiling))
              && Books(pool.Book(), account.State(), States(loans)) == Books(entered.1.pool, entered.0, entered.1.loans)
  {
    var _ :- SpendNonce(account, t.nonce);
    var accrual :- AccrueOpenLoans(loans, t.operator, pool, account.openLoans, t.rewardMint, now);
    var _ :- AdmitBorrow(account, t, accrual.0);
    return Ok(accrual);
  }

  /** The new loan tracked, and the allowance it and the others from the token need. */
  method IssueLoan(pool: Pool, t: Borrowing.Terms, aprBps: u16, ceiling: u64, now: i64, key: nat)
    returns (r: Result<(Loan, u64)>)
    requires t.rate > 0
    modifies pool
    ensures match Borrowing.Issue(old(pool.Book()), t, aprBps, ceiling, now)
            case Ok(i) => r.Ok? && fresh(r.value.0) && r.value.0.key == key && r.value.0.State() == i.loan
                          && r.value.1 == i.allowance && pool.Book() == i.pool
            case Err(e) => r == Err(e)
  {
    var dueAt :- I64(now + t.termPeriods * REPAYMENT_PERIOD);
    var loan := new Loan(key, Borrowing.NewLoan(t, aprBps, now, dueAt));
    var _ :- pool.Track(loan.State());
    var own :- loan.State().DebtCeiling(now);
    var most :- U64(ceiling + own);
    var allowance :- Borrowing.AllowanceFor(most, t.rate);
    return Ok((loan, allowance));
  }

  /** What the accounts of a borrow are left at. */
  ghost predicate BorrowedInto(b: Borrowing.Borrowed, pool: Pool, account: OperatorAccount, loans: seq<Loan>,
                               loan: Loan,
                               watch: RewardWatch)
    reads pool, account, account.usedNonces, loans, loan, watch
    requires account.Valid()
  {
    && Books(pool.Book(), account.State(), States(loans)) == b.books
    && loan.State() == b.loan
    && watch.State() == Some(b.watch)
  }

  /** The loan, with what `TakeOut` answers. */
  method TakeOutLoan(pool: Pool, account: OperatorAccount, loans: seq<Loan>, t: Borrowing.Terms, key: nat, now: i64)
    returns (r: Result<(Loan, u64, u64)>)
    requires account.Valid() && OneAccountPerKey(loans) && t.rate > 0
    modifies pool, account, account.usedNonces, loans
    ensures match Borrowing.TakeOut(old(Books(pool.Book(), account.State(), States(loans))), Keys(loans), t, now)
            case Err(e) => r == Err(e)
            case Ok(o) =>
              && r.Ok? && fresh(r.value.0) && r.value.0.key == key && r.value.0.State() == o.loan
              && r.value.1 == o.ceiling && r.value.2 == o.allowance
              && Books(pool.Book(), account.State(), States(loans)) == o.books
  {
    var accrual :- EnterBorrow(pool, account, loans, t, now);
    var aprBps :- LendFromPool(pool, t, accrual.0);
    var issued :- IssueLoan(pool, t, aprBps, accrual.1, now, key);
    return Ok((issued.0, accrual.1, issued.1));
  }

  method HandleBorrow(pool: Pool, account: OperatorAccount, loans: seq<Loan>, t: Borrowing.Terms, vault: Vault,
                      reward: TokenAccount, watch: RewardWatch, key: nat, now: i64) returns (r: Result<Loan>)
    requires account.Valid() && OneAccountPerKey(loans) && t.rate > 0
    modifies pool, account, account.usedNonces, loans, vault, reward, watch
    ensures match Borrowing.Borrow(old(Books(pool.Book(), account.State(), States(loans))), Keys(loans), t,
                                   old(watch.State()), old(reward.amount), now)
            case Err(e) => r == Err(e)
            case Ok(b) =>
              if t.amount > old(vault.amount) then r == Err(InsufficientFunds) else
              && r.Ok? && fresh(r.value) && r.value.key == key
              && BorrowedInto(b, pool, account, loans, r.value, watch)
              && reward.State() == Sweeping.RewardAccount(old(reward.amount), Some(b.allowance))
              && vault.amount == old(vault.amount) - t.amount
  {
    match Borrowing.CheckTerms(t) {
      case Fail(e) => return Err(e);
      case Pass =>
    }
    var taken :- TakeOutLoan(pool, account, loans, t, key, now);
    if taken.1 == 0 || !watch.started {
      watch.started, watch.balance := true, reward.amount;
    }
    reward.delegated := Some(taken.2);
    if t.amount > vault.amount {
      return Err(InsufficientFunds);
    }
    vault.amount := vault.amount - t.amount;
    return Ok(taken.0);
  }
}
