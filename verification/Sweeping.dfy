/** The sweep: a payout measured, part of it withheld, sold, and settled against the loans. */
module Sweeping {
  import opened Outcomes
  import opened Numbers
  import opened Sums
  import opened Loans
  import opened Settlement
  import opened Conversions
  import opened Withholdings

  /** The operator's reward token account; `delegated` is what the operator account may still
      take from it, when it is the delegate at all. */
  datatype RewardAccount = RewardAccount(amount: u64, delegated: Option<u64>) {
    function Allowance(): u64 {
      if delegated.Some? then delegated.value else 0
    }

    /** Why a loan would be given less than it is owed. */
    function Shortfall(): ManualReason {
      if delegated.None? then Revoked
      else if Allowance() < amount then AllowanceShort else WithdrawnEarly
    }

    /** After the delegate took `amount`: the token program drops one left with nothing. */
    function TakenFrom(taken: u64): RewardAccount
      requires taken <= amount && taken <= Allowance()
    {
      if delegated.None? || taken == 0 then this
      else RewardAccount(amount - taken, if taken == delegated.value then None else Some(delegated.value - taken))
    }
  }

  // ----- Measuring --------------------------------------------------------------------------

  function DebtAt(loan: LoanState, now: i64): Result<u64> {
    var accrued :- loan.Accrue(now);
    accrued.0.TotalOwed()
  }

  function DebtsAt(loans: seq<LoanState>, now: i64): (r: Result<seq<u64>>)
    ensures r.Ok? ==> |r.value| == |loans|
  {
    if loans == [] then Ok([]) else
    var before :- DebtsAt(loans[..|loans| - 1], now);
    var last :- DebtAt(loans[|loans| - 1], now);
    Ok(before + [last])
  }

  function ClaimOf(loan: LoanState, debt: u64, terms: ConversionTerms, rate: u64): Claim
    requires terms.Accepted() && rate > 0
  {
    Claim(loan.sweepBps, terms.TokensFor(debt, rate), loan.rewardDue)
  }

  function ClaimsOf(loans: seq<LoanState>, debts: seq<u64>, terms: ConversionTerms, rate: u64): seq<Claim>
    requires |debts| == |loans| && terms.Accepted() && rate > 0
  {
    seq(|loans|, i requires 0 <= i < |loans| => ClaimOf(loans[i], debts[i], terms, rate))
  }

  /** What each part sells for, no more than the loan owes. */
  function PaysFor(plan: seq<Withholding>, debts: seq<u64>, terms: ConversionTerms, rate: u64): (r: Result<seq<u64>>)
    requires |debts| == |plan| && terms.Accepted()
    ensures r.Ok? ==> |r.value| == |plan|
  {
    if plan == [] then Ok([]) else
    var n := |plan| - 1;
    var before :- PaysFor(plan[..n], debts[..n], terms, rate);
    var quote :- terms.Quote(plan[n].take, rate);
    Ok(before + [if quote < debts[n] then quote else debts[n]])
  }

  /** Tokens that would sell for nothing stay with the operator. */
  function WithheldOf(plan: seq<Withholding>, pays: seq<u64>): (withheld: seq<u64>)
    requires |pays| == |plan|
  {
    seq(|plan|, i requires 0 <= i < |plan| => if pays[i] == 0 then 0 else plan[i].take)
  }

  /** A loan after its part is measured: what it could not be given stays due, and flags it. */
  function Measured(loan: LoanState, part: Withholding, reason: ManualReason): LoanState
    requires part.take <= part.owed
  {
    var due := loan.(rewardDue := part.owed - part.take);
    if part.take < part.owed then due.Flagged(reason) else due
  }

  datatype Measurement = Measurement(
    debts: seq<u64>, plan: seq<Withholding>, pays: seq<u64>, withheld: seq<u64>, loans: seq<LoanState>)
  {
    predicate For(n: nat) {
      |debts| == |plan| == |pays| == |withheld| == |loans| == n
    }
  }

  function Payout(reward: RewardAccount, watch: u64): u64 {
    if reward.amount < watch then 0 else reward.amount - watch
  }

  function MeasuredAll(loans: seq<LoanState>, plan: seq<Withholding>, reason: ManualReason): seq<LoanState>
    requires |plan| == |loans| && forall i :: 0 <= i < |plan| ==> plan[i].take <= plan[i].owed
  {
    seq(|loans|, i requires 0 <= i < |loans| => Measured(loans[i], plan[i], reason))
  }

  function Measure(loans: seq<LoanState>, reward: RewardAccount, watch: u64, terms: ConversionTerms, rate: u64,
                   now: i64): (r: Result<Measurement>)
    requires terms.Accepted() && rate > 0
    ensures r.Ok? ==> r.value.For(|loans|)
  {
    var debts :- DebtsAt(loans, now);
    var available := Min(reward.amount, reward.Allowance());
    var plan := Plan(Payout(reward, watch), available, ClaimsOf(loans, debts, terms, rate));
    var pays :- PaysFor(plan, debts, terms, rate);
    Ok(Measurement(debts, plan, pays, WithheldOf(plan, pays), MeasuredAll(loans, plan, reward.Shortfall())))
  }

  // ----- Settling ---------------------------------------------------------------------------

  /** A loan that got all it was owed is repaid by its payouts again. */
  function Eased(loan: LoanState, m: Measurement, i: nat): LoanState
    requires m.For(|m.plan|) && i < |m.plan|
  {
    if m.withheld[i] == m.plan[i].owed then loan.(manualRepayment := None) else loan
  }

  /** Loan `k` settled with what its part paid, if it paid anything. */
  function SettlePart(c: Books, m: Measurement, now: i64, k: nat): (r: Result<Books>)
    requires m.For(|c.loans|) && k < |c.loans|
    ensures r.Ok? ==> |r.value.loans| == |c.loans|
  {
    if m.pays[k] == 0 then Ok(c) else
    var s :- Settle(c.pool, c.account, Eased(c.loans[k], m, k), now, m.pays[k]);
    Ok(Books(s.pool, s.account, c.loans[k := s.loan]))
  }

  /** The books once the first `n` loans are settled. */
  function SettleFirst(b: Books, m: Measurement, now: i64, n: nat): (r: Result<Books>)
    requires m.For(|b.loans|) && n <= |b.loans|
    ensures r.Ok? ==> |r.value.loans| == |b.loans|
  {
    if n == 0 then Ok(b) else
    var c :- SettleFirst(b, m, now, n - 1);
    SettlePart(c, m, now, n - 1)
  }

  /** Loans still open after the last of the allowance is gone are left with nothing to be
      repaid from. */
  function ExhaustedAllowance(loans: seq<LoanState>): seq<LoanState> {
    seq(|loans|, i requires 0 <= i < |loans| =>
          if loans[i].IsOpen() then loans[i].Flagged(AllowanceShort) else loans[i])
  }

  /** Outside the tolerance nothing is sold: what was to be withheld stays due. */
  function RestoredAll(m: Measurement): (r: Result<seq<LoanState>>)
    requires m.For(|m.loans|)
    ensures r.Ok? ==> |r.value| == |m.loans|
  {
    if forall i :: 0 <= i < |m.loans| ==> m.loans[i].rewardDue + m.withheld[i] <= U64_MAX
    then Ok(seq(|m.loans|, i requires 0 <= i < |m.loans| =>
                  m.loans[i].(rewardDue := m.loans[i].rewardDue + m.withheld[i])))
    else Err(MathOverflow)
  }

  /** `sold` says the sale went through: only then did any token or debt move. */
  datatype Swept = Swept(
    books: Books, reward: RewardAccount, watch: u64, sold: bool, withheld: nat, paid: nat, measured: Measurement)
  {
    /** Tokens that left the reward account for loan `i`. */
    function Taken(i: nat): u64
      requires i < |measured.withheld|
    {
      if sold then measured.withheld[i] else 0
    }
  }

  /** Nothing sold: the loans as given, the watch on the balance. */
  function Leave(b: Books, reward: RewardAccount, m: Measurement, loans: seq<LoanState>): Swept {
    Swept(b.(loans := loans), reward, reward.amount, false, 0, 0, m)
  }

  /** The sale: rewards out of the account, stablecoin into the pool, every part settled. */
  function Sell(b: Books, reward: RewardAccount, m: Measurement, withheld: u64, paid: u64, stable: nat,
                now: i64): (r: Result<Swept>)
    requires m.For(|b.loans|)
    ensures r.Ok? ==>
            && |r.value.books.loans| == |b.loans| && r.value.paid == paid <= stable
            && r.value.withheld <= reward.amount
  {
    if withheld > reward.amount || withheld > reward.Allowance() || paid > stable then Err(InsufficientFunds) else
    var c :- SettleFirst(b.(loans := m.loans), m, now, |b.loans|);
    var last := reward.delegated.Some? && withheld == reward.Allowance();
    Ok(Swept(if last then c.(loans := ExhaustedAllowance(c.loans)) else c,
             reward.TakenFrom(withheld), reward.amount - withheld, true, withheld, paid, m))
  }

  /** `handle_sweep` on the operator's loans repaid from this token, oldest first. `stable` is what
      the conversion vault holds to buy with. */
  function Sweep(b: Books, reward: RewardAccount, watch: u64, terms: ConversionTerms, stable: nat, rate: u64,
                 now: i64): (r: Result<Swept>)
    requires terms.Accepted() && rate > 0
    ensures r.Ok? ==> |r.value.books.loans| == |b.loans| && r.value.paid <= stable && r.value.withheld <= reward.amount
  {
    var m :- Measure(b.loans, reward, watch, terms, rate, now);
    SweepMeasured(b, reward, m, terms, stable, rate, now)
  }

  /** The sweep once every part is measured: sold if the sale falls within the tolerance. */
  function SweepMeasured(b: Books, reward: RewardAccount, m: Measurement, terms: ConversionTerms, stable: nat,
                         rate: u64, now: i64): (r: Result<Swept>)
    requires m.For(|b.loans|)
    ensures r.Ok? ==> |r.value.books.loans| == |b.loans| && r.value.paid <= stable && r.value.withheld <= reward.amount
  {
    var withheld :- U64(Total(m.withheld));
    var paid :- U64(Total(m.pays));
    if withheld == 0 then Ok(Leave(b, reward, m, m.loans)) else
    var check :- CheckConversion(withheld, rate, paid, terms.maxSlippageBps);
    if check.withinTolerance then Sell(b, reward, m, withheld, paid, stable, now) else
    var restored :- RestoredAll(m);
    Ok(Leave(b, reward, m, restored))
  }
}
