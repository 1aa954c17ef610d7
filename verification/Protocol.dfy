/** Every account of one pool, and the transactions that move them. A transaction either goes
    through whole or changes nothing. */
module Protocol {
  import opened Outcomes
  import opened Numbers
  import opened Loans
  import opened Pools
  import opened Operators
  import opened Settlement
  import opened Conversions
  import Lenders
  import Borrowing
  import Sweeping
  import OpenLoans

  /** The market for one reward token: what it holds to buy with, and what it bought. */
  datatype ConversionVault = ConversionVault(terms: ConversionTerms, stable: nat, rewards: nat)

  /** An operator's reward account and watch on one token. */
  type Lane = (nat, nat)

  /** Lenders and loans are known by their place; an operator without an account has a fresh one. */
  datatype World = World(
    clock: i64,
    pool: PoolBook,
    vault: nat,
    lenders: seq<u64>,
    operators: map<nat, OperatorState>,
    loans: seq<LoanState>,
    rewards: map<Lane, Sweeping.RewardAccount>,
    watches: map<Lane, u64>,
    conversions: map<nat, ConversionVault>)
  {
    function Account(operator: nat): OperatorState {
      if operator in operators then operators[operator] else FRESH_ACCOUNT
    }

    function Rewards(lane: Lane): Sweeping.RewardAccount {
      if lane in rewards then rewards[lane] else Sweeping.RewardAccount(0, None)
    }

    function Watch(lane: Lane): Option<u64> {
      if lane in watches then Some(watches[lane]) else None
    }
  }

  function NewWorld(clock: i64, baseAprBps: u16, slopeAprBps: u16): World {
    World(clock, PoolBook(0, 0, 0, 0, 0, 0, 0, baseAprBps, slopeAprBps), 0, [], map[], [], map[], map[], map[])
  }

  datatype Action =
    | Tick(seconds: nat)
    | Deposit(lender: nat, amount: u64)
    | Withdraw(lender: nat, maxAmount: u64)
    | Borrow(terms: Borrowing.Terms, passed: seq<nat>)
    | Repay(loan: nat, maxAmount: u64)
    | Sweep(operator: nat, rewardMint: nat, rate: u64, passed: seq<nat>)
    | OpenConversion(mint: nat, market: ConversionTerms)
    | FundConversion(mint: nat, stable: nat)
    // What happens to a reward account outside the program.
    | Receive(lane: Lane, amount: u64)
    | Spend(lane: Lane, amount: u64)
    | Delegate(lane: Lane, allowance: Option<u64>)

  // ----- Reading and writing the loans handed over ------------------------------------------

  predicate Present(loans: seq<LoanState>, at: seq<nat>) {
    forall i :: 0 <= i < |at| ==> at[i] < |loans|
  }

  function Gather(loans: seq<LoanState>, at: seq<nat>): seq<LoanState>
    requires Present(loans, at)
  {
    seq(|at|, i requires 0 <= i < |at| => loans[at[i]])
  }

  /** Each loan written back to its own account. */
  function Scatter(loans: seq<LoanState>, at: seq<nat>, mine: seq<LoanState>): (r: seq<LoanState>)
    requires |mine| == |at| && Present(loans, at)
    ensures |r| == |loans|
  {
    if at == [] then loans else
    var n := |at| - 1;
    Scatter(loans, at[..n], mine[..n])[at[n] := mine[n]]
  }

  function Pick(passed: seq<nat>, order: seq<nat>): seq<nat>
    requires forall i :: 0 <= i < |order| ==> order[i] < |passed|
  {
    seq(|order|, i requires 0 <= i < |order| => passed[order[i]])
  }

  // ----- The transactions -------------------------------------------------------------------

  function DoDeposit(w: World, lender: nat, amount: u64): Result<World> {
    if lender > |w.lenders| then Err(AccountNotFound) else
    var lenders := if lender == |w.lenders| then w.lenders + [0] else w.lenders;
    var (pool, own) :- Lenders.Deposit(w.pool, lenders[lender], amount, w.clock);
    Ok(w.(pool := pool, lenders := lenders[lender := own], vault := w.vault + amount))
  }

  function DoWithdraw(w: World, lender: nat, maxAmount: u64): Result<World> {
    if lender >= |w.lenders| then Err(AccountNotFound) else
    var (pool, own, paid) :- Lenders.Withdraw(w.pool, w.lenders[lender], maxAmount, w.clock);
    :- Require(paid.paid <= w.vault, InsufficientFunds);
    Ok(w.(pool := pool, lenders := w.lenders[lender := own], vault := w.vault - paid.paid))
  }

  function DoRepay(w: World, loan: nat, maxAmount: u64): Result<World> {
    if loan >= |w.loans| then Err(AccountNotFound) else
    var operator := w.loans[loan].operator;
    var s :- Settle(w.pool, w.Account(operator), w.loans[loan], w.clock, maxAmount);
    Ok(w.(pool := s.pool, operators := w.operators[operator := s.account], loans := w.loans[loan := s.loan],
          vault := w.vault + s.paid))
  }

  function DoBorrow(w: World, t: Borrowing.Terms, passed: seq<nat>): Result<World> {
    if t.rate == 0 then Err(AttestationMalformed) else
    :- Require(Present(w.loans, passed), AccountNotFound);
    var lane := (t.operator, t.rewardMint);
    var r :- Borrowing.Borrow(Books(w.pool, w.Account(t.operator), Gather(w.loans, passed)), passed, t,
                              w.Watch(lane), w.Rewards(lane).amount, w.clock);
    :- Require(t.amount <= w.vault, InsufficientFunds);
    Ok(w.(pool := r.books.pool,
          operators := w.operators[t.operator := r.books.account],
          loans := Scatter(w.loans, passed, r.books.loans) + [r.loan],
          rewards := w.rewards[lane := Sweeping.RewardAccount(w.Rewards(lane).amount, Some(r.allowance))],
          watches := w.watches[lane := r.watch],
          vault := w.vault - t.amount))
  }

  /** The accounts a sweep works on, oldest first. */
  function Swept(w: World, operator: nat, mint: nat, passed: seq<nat>): (r: Result<seq<nat>>)
    ensures r.Ok? ==> Present(w.loans, r.value)
  {
    if !Present(w.loans, passed) then Err(AccountNotFound) else
    var order :- OpenLoans.OldestFirst(passed, Gather(w.loans, passed), operator, w.Account(operator).openLoans, mint);
    Ok(Pick(passed, order))
  }

  /** A sweep of the loans at `at`. */
  function SweepAt(w: World, operator: nat, mint: nat, rate: u64, at: seq<nat>): Result<World>
    requires rate > 0 && Present(w.loans, at) && (operator, mint) in w.watches
    requires mint in w.conversions && w.conversions[mint].terms.Accepted()
  {
    var lane, conversion := (operator, mint), w.conversions[mint];
    var o :- Sweeping.Sweep(Books(w.pool, w.Account(operator), Gather(w.loans, at)), w.Rewards(lane), w.watches[lane],
                            conversion.terms, conversion.stable, rate, w.clock);
    Ok(w.(pool := o.books.pool,
          operators := w.operators[operator := o.books.account],
          loans := Scatter(w.loans, at, o.books.loans),
          rewards := w.rewards[lane := o.reward],
          watches := w.watches[lane := o.watch],
          conversions := w.conversions[mint := conversion.(stable := conversion.stable - o.paid,
                                                           rewards := conversion.rewards + o.withheld)],
          vault := w.vault + o.paid))
  }

  function DoSweep(w: World, operator: nat, mint: nat, rate: u64, passed: seq<nat>): Result<World> {
    if rate == 0 then Err(AttestationMalformed) else
    :- Require(operator in w.operators && (operator, mint) in w.watches && mint in w.conversions, AccountNotFound);
    :- Require(w.conversions[mint].terms.Accepted(), InvalidConversionTerms);
    var at :- Swept(w, operator, mint, passed);
    SweepAt(w, operator, mint, rate, at)
  }

  function Step(w: World, a: Action): Result<World> {
    match a
    case Tick(seconds) =>
      var later :- I64(w.clock + seconds);
      Ok(w.(clock := later))
    case Deposit(lender, amount) => DoDeposit(w, lender, amount)
    case Withdraw(lender, maxAmount) => DoWithdraw(w, lender, maxAmount)
    case Borrow(terms, passed) => DoBorrow(w, terms, passed)
    case Repay(loan, maxAmount) => DoRepay(w, loan, maxAmount)
    case Sweep(operator, mint, rate, passed) => DoSweep(w, operator, mint, rate, passed)
    case OpenConversion(mint, market) =>
      :- Require(market.Accepted(), InvalidConversionTerms);
      :- Require(mint !in w.conversions, AccountNotFound);
      Ok(w.(conversions := w.conversions[mint := ConversionVault(market, 0, 0)]))
    case FundConversion(mint, stable) =>
      :- Require(mint in w.conversions, AccountNotFound);
      var vault := w.conversions[mint];
      Ok(w.(conversions := w.conversions[mint := vault.(stable := vault.stable + stable)]))
    case Receive(lane, amount) =>
      var held :- U64(w.Rewards(lane).amount + amount);
      Ok(w.(rewards := w.rewards[lane := w.Rewards(lane).(amount := held)]))
    case Spend(lane, amount) =>
      :- Require(amount <= w.Rewards(lane).amount, InsufficientFunds);
      Ok(w.(rewards := w.rewards[lane := w.Rewards(lane).(amount := w.Rewards(lane).amount - amount)]))
    case Delegate(lane, allowance) =>
      Ok(w.(rewards := w.rewards[lane := w.Rewards(lane).(delegated := allowance)]))
  }

  /** A run: each transaction in turn, a refused one changing nothing. */
  function Run(w: World, actions: seq<Action>): World {
    if actions == [] then w else
    var before := Run(w, actions[..|actions| - 1]);
    match Step(before, actions[|actions| - 1])
    case Ok(after) => after
    case Err(_) => before
  }
}
