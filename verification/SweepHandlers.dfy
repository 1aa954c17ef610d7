/** The sweep handler, loop by loop on the loan accounts, held to the sweep it is specified by. */
module SweepHandlers {
  import opened Outcomes
  import opened Numbers
  import opened Sums
  import opened Loans
  import opened Pools
  import opened Operators
  import opened Settlement
  import opened Conversions
  import opened Withholdings
  import opened Sweeping
  import opened OpenLoans
  import opened Sorting
  import opened Handlers

  // ----- Finding the loans ------------------------------------------------------------------

  function Picked(loans: seq<Loan>, order: seq<nat>): seq<Loan>
    requires InRange(order, |loans|)
  {
    seq(|order|, i requires 0 <= i < |order| => loans[order[i]])
  }

  lemma NotAllOpen(keys: seq<nat>, loans: seq<LoanState>, operator: nat, k: nat)
    requires k < |keys| == |loans|
    requires keys[k] in keys[..k] || loans[k].operator != operator || !loans[k].IsOpen()
    ensures !AllOpenOf(keys, loans, operator)
  {
  }

  lemma {:induction false} RepaidFromNext(loans: seq<LoanState>, mint: nat, k: nat)
    requires k < |loans|
    ensures RepaidFrom(loans[..k + 1], mint)
         == if loans[k].rewardMint == mint
            then RepaidFrom(loans[..k], mint) + [Aged(k, loans[k].openedAt, loans[k].nonce)]
            else RepaidFrom(loans[..k], mint)
  {
    assert loans[..k + 1][..k] == loans[..k];
  }

  /** The loans picked are the token's. */
  lemma {:induction false} PickedFrom(loans: seq<Loan>, order: seq<nat>, mint: nat)
    requires InRange(order, |loans|) && order == Places(Sort(RepaidFrom(States(loans), mint), Older))
    ensures forall l :: l in Picked(loans, order) ==> l in loans && l.rewardMint == mint
  {
    var sorted := Sort(RepaidFrom(States(loans), mint), Older);
    SortedRecords(States(loans), mint);
    forall i | 0 <= i < |order| ensures loans[order[i]].rewardMint == mint {
      assert sorted[i] in sorted;
      assert Records(sorted[i], States(loans), mint);
    }
  }

  lemma PickedApart(loans: seq<Loan>, operator: nat, openLoans: u32, mint: nat)
    requires OneAccountPerKey(loans) && OldestFirst(Keys(loans), States(loans), operator, openLoans, mint).Ok?
    ensures Apart(Picked(loans, OldestFirst(Keys(loans), States(loans), operator, openLoans, mint).value))
  {
    var order := OldestFirst(Keys(loans), States(loans), operator, openLoans, mint).value;
    OldestFirstIsComplete(Keys(loans), States(loans), operator, openLoans, mint);
    var mine := Picked(loans, order);
    forall i, j | 0 <= i < j < |mine| ensures mine[i] != mine[j] {
      var p, q := order[i], order[j];
      assert Keys(loans)[p] !in Keys(loans)[..p] && Keys(loans)[q] !in Keys(loans)[..q];
      if p < q {
        assert Keys(loans)[p] in Keys(loans)[..q];
      } else {
        assert Keys(loans)[q] in Keys(loans)[..p];
      }
    }
  }

  /** The accounts `open_loans_of` answers with, from what they hold. */
  function FoundLoans(loans: seq<Loan>, states: seq<LoanState>, operator: nat, openLoans: u32,
                      mint: nat): Result<seq<Loan>>
    requires |states| == |loans|
  {
    var order :- OldestFirst(Keys(loans), states, operator, openLoans, mint);
    Ok(Picked(loans, order))
  }

  /** `open_loans_of`: every loan handed over looked at, the token's kept and sorted. */
  method FindLoans(loans: seq<Loan>, operator: nat, openLoans: u32, mint: nat) returns (r: Result<seq<Loan>>)
    ensures r == FoundLoans(loans, States(loans), operator, openLoans, mint)
    ensures r.Ok? ==> forall l :: l in r.value ==> l in loans && l.rewardMint == mint
    ensures r.Ok? && OneAccountPerKey(loans) ==> Apart(r.value)
  {
    if |loans| != openLoans {
      return Err(OpenLoansMismatch);
    }
    ghost var keys, states := Keys(loans), States(loans);
    var found: seq<Aged> := [];
    for i := 0 to |loans|
      invariant found == RepaidFrom(states[..i], mint)
      invariant forall j :: 0 <= j < i ==> states[j].operator == operator && states[j].IsOpen() && keys[j] !in keys[..j]
    {
      var seen := ListedBefore(loans, i);
      if seen || loans[i].operator != operator || loans[i].status == Repaid {
        NotAllOpen(keys, states, operator, i);
        return Err(OpenLoansMismatch);
      }
      RepaidFromNext(states, mint, i);
      if loans[i].rewardMint == mint {
        found := found + [Aged(i, loans[i].openedAt, loans[i].nonce)];
      }
    }
    assert states[..|loans|] == states;
    var order := Places(Sort(found, Older));
    PlacesInRange(states, mint);
    PickedFrom(loans, order, mint);
    if OneAccountPerKey(loans) {
      PickedApart(loans, operator, openLoans, mint);
    }
    return Ok(Picked(loans, order));
  }

  // ----- Measuring --------------------------------------------------------------------------

  lemma {:induction false} DebtsRefusalStays(loans: seq<LoanState>, now: i64, k: nat)
    requires k <= |loans| && DebtsAt(loans[..k], now).Err?
    ensures DebtsAt(loans, now) == DebtsAt(loans[..k], now)
  {
    if k < |loans| {
      assert loans[..|loans| - 1][..k] == loans[..k];
      DebtsRefusalStays(loans[..|loans| - 1], now, k);
    } else {
      assert loans[..k] == loans;
    }
  }

  lemma {:induction false} DebtsNext(loans: seq<LoanState>, now: i64, k: nat)
    requires k < |loans| && DebtsAt(loans[..k], now).Ok?
    ensures DebtsAt(loans[..k + 1], now)
         == match DebtAt(loans[k], now)
            case Ok(debt) => Ok(DebtsAt(loans[..k], now).value + [debt])
            case Err(e) => Err(e)
  {
    assert loans[..k + 1][..k] == loans[..k];
  }

  /** What each loan owes at this second, and its claim on the payout. */
  method ClaimAll(loans: seq<Loan>, terms: ConversionTerms, rate: u64, now: i64)
    returns (r: Result<(seq<u64>, seq<Claim>)>)
    requires terms.Accepted() && rate > 0
    ensures match DebtsAt(States(loans), now)
            case Ok(debts) => r == Ok((debts, ClaimsOf(States(loans), debts, terms, rate)))
            case Err(e) => r == Err(e)
  {
    ghost var states := States(loans);
    var debts: seq<u64>, claims: seq<Claim> := [], [];
    for i := 0 to |loans|
      invariant DebtsAt(states[..i], now) == Ok(debts) && |debts| == i
      invariant claims == ClaimsOf(states[..i], debts, terms, rate)
    {
      DebtsNext(states, now, i);
      var debt := DebtAt(loans[i].State(), now);
      if debt.Err? {
        DebtsRefusalStays(states, now, i + 1);
        return Err(debt.error);
      }
      claims := claims + [ClaimOf(loans[i].State(), debt.value, terms, rate)];
      debts := debts + [debt.value];
    }
    assert states[..|loans|] == states;
    return Ok((debts, claims));
  }

  lemma {:induction false} PaysRefusalStays(plan: seq<Withholding>, debts: seq<u64>, terms: ConversionTerms, rate: u64,
                                            k: nat)
    requires |debts| == |plan| && terms.Accepted() && k <= |plan| && PaysFor(plan[..k], debts[..k], terms, rate).Err?
    ensures PaysFor(plan, debts, terms, rate) == PaysFor(plan[..k], debts[..k], terms, rate)
  {
    var n := |plan| - 1;
    if k <= n {
      assert plan[..n][..k] == plan[..k] && debts[..n][..k] == debts[..k];
      PaysRefusalStays(plan[..n], debts[..n], terms, rate, k);
    } else {
      assert plan[..k] == plan && debts[..k] == debts;
    }
  }

  lemma {:induction false} PaysNext(plan: seq<Withholding>, debts: seq<u64>, terms: ConversionTerms, rate: u64, k: nat)
    requires |debts| == |plan| && terms.Accepted() && k < |plan| && PaysFor(plan[..k], debts[..k], terms, rate).Ok?
    ensures PaysFor(plan[..k + 1], debts[..k + 1], terms, rate)
         == match terms.Quote(plan[k].take, rate)
            case Ok(quote) =>
              Ok(PaysFor(plan[..k], debts[..k], terms, rate).value + [if quote < debts[k] then quote else debts[k]])
            case Err(e) => Err(e)
  {
    assert plan[..k + 1][..k] == plan[..k] && debts[..k + 1][..k] == debts[..k];
  }

  /** One loan measured: what it is still due is written on it, and a shortfall flags it. */
  method MeasureLoan(loan: Loan, part: Withholding, reason: ManualReason)
    requires part.take <= part.owed
    modifies loan
    ensures loan.State() == Measured(old(loan.State()), part, reason)
  {
    loan.rewardDue := part.owed - part.take;
    if part.take < part.owed {
      var _ := loan.FlagManualRepayment(reason);
    }
  }

  /** The first `i` parts priced. */
  predicate Priced(plan: seq<Withholding>, debts: seq<u64>, terms: ConversionTerms, rate: u64, pays: seq<u64>,
                   withheld: seq<u64>, i: nat)
    requires i <= |plan| == |debts| && terms.Accepted()
  {
    && |pays| == i && PaysFor(plan[..i], debts[..i], terms, rate) == Ok(pays)
    && withheld == WithheldOf(plan[..i], pays)
  }

  lemma {:induction false} PriceNext(plan: seq<Withholding>, debts: seq<u64>, terms: ConversionTerms, rate: u64,
                                     pays: seq<u64>, withheld: seq<u64>, i: nat)
    requires i < |plan| == |debts| && terms.Accepted() && Priced(plan, debts, terms, rate, pays, withheld, i)
    ensures match terms.Quote(plan[i].take, rate)
            case Ok(quote) =>
              var pay: u64 := if quote < debts[i] then quote else debts[i];
              Priced(plan, debts, terms, rate, pays + [pay], withheld + [if pay == 0 then 0 else plan[i].take], i + 1)
            case Err(e) => PaysFor(plan, debts, terms, rate) == Err(e)
  {
    PaysNext(plan, debts, terms, rate, i);
    if terms.Quote(plan[i].take, rate).Err? {
      PaysRefusalStays(plan, debts, terms, rate, i + 1);
    }
  }

  lemma {:induction false} AllPriced(plan: seq<Withholding>, debts: seq<u64>, terms: ConversionTerms, rate: u64,
                                     pays: seq<u64>, withheld: seq<u64>)
    requires |plan| == |debts| && terms.Accepted() && Priced(plan, debts, terms, rate, pays, withheld, |plan|)
    ensures PaysFor(plan, debts, terms, rate) == Ok(pays) && withheld == WithheldOf(plan, pays)
  {
    assert plan[..|plan|] == plan && debts[..|plan|] == debts;
  }

  /** Each part priced, no more than the loan owes, and each loan left with what it is still due. */
  method PriceAll(loans: seq<Loan>, plan: seq<Withholding>, debts: seq<u64>, terms: ConversionTerms, rate: u64,
                  reason: ManualReason) returns (r: Result<(seq<u64>, seq<u64>)>)
    requires Apart(loans) && |plan| == |debts| == |loans| && terms.Accepted()
    requires forall i :: 0 <= i < |plan| ==> plan[i].take <= plan[i].owed
    modifies loans
    ensures match PaysFor(plan, debts, terms, rate)
            case Ok(pays) =>
              && r == Ok((pays, WithheldOf(plan, pays)))
              && States(loans) == MeasuredAll(old(States(loans)), plan, reason)
            case Err(e) => r == Err(e)
  {
    ghost var states := States(loans);
    var pays: seq<u64>, withheld: seq<u64> := [], [];
    for i := 0 to |loans|
      invariant Priced(plan, debts, terms, rate, pays, withheld, i)
      invariant forall j :: 0 <= j < |loans| ==>
        loans[j].State() == if j < i then Measured(states[j], plan[j], reason) else states[j]
    {
      PriceNext(plan, debts, terms, rate, pays, withheld, i);
      var quote := terms.Quote(plan[i].take, rate);
      if quote.Err? {
        return Err(quote.error);
      }
      var pay: u64 := if quote.value < debts[i] then quote.value else debts[i];
      withheld := withheld + [if pay == 0 then 0 else plan[i].take];
      pays := pays + [pay];
      MeasureLoan(loans[i], plan[i], reason);
    }
    AllPriced(plan, debts, terms, rate, pays, withheld);
    return Ok((pays, withheld));
  }

  lemma {:induction false} TotalGrows(xs: seq<u64>, k: nat)
    requires k <= |xs|
    ensures 0 <= Total(xs[..k]) <= Total(xs)
  {
    if k < |xs| {
      TotalGrows(xs[..|xs| - 1], k);
      assert xs[..|xs| - 1][..k] == xs[..k];
    } else {
      assert xs[..k] == xs;
      if xs != [] {
        TotalGrows(xs[..k - 1], k - 1);
        assert xs[..k - 1][..k - 1] == xs[..k - 1];
      }
    }
  }

  /** Adding up as the program does, refusing as soon as the sum no longer fits. */
  method CheckedTotal(xs: seq<u64>) returns (r: Result<u64>)
    ensures r == U64(Total(xs))
  {
    var sum: u64 := 0;
    for i := 0 to |xs|
      invariant sum == Total(xs[..i])
    {
      TotalStep(xs, i);
      TotalGrows(xs, i + 1);
      sum :- U64(sum + xs[i]);
    }
    assert xs[..|xs|] == xs;
    return Ok(sum);
  }

  // ----- Outside the tolerance --------------------------------------------------------------

  method RestoreAll(loans: seq<Loan>, withheld: seq<u64>, ghost m: Measurement) returns (r: Result<()>)
    requires Apart(loans) && m.For(|loans|) && States(loans) == m.loans && withheld == m.withheld
    modifies loans
    ensures match RestoredAll(m)
            case Ok(restored) => r == Ok(()) && States(loans) == restored
            case Err(e) => r == Err(e)
  {
    for i := 0 to |loans|
      invariant forall j :: 0 <= j < |loans| ==>
        loans[j].State() == if j < i then m.loans[j].(rewardDue := loans[j].rewardDue) else m.loans[j]
      invariant forall j :: 0 <= j < i ==> loans[j].rewardDue == m.loans[j].rewardDue + m.withheld[j]
    {
      var due := U64(loans[i].rewardDue + withheld[i]);
      if due.Err? {
        assert m.loans[i].rewardDue + m.withheld[i] > U64_MAX;
        return Err(MathOverflow);
      }
      loans[i].rewardDue := due.value;
    }
    return Ok(());
  }

  // ----- Settling ---------------------------------------------------------------------------

  lemma {:induction false} SettlingRefusalStays(b: Books, m: Measurement, now: i64, k: nat, n: nat)
    requires m.For(|b.loans|) && k <= n <= |b.loans| && SettleFirst(b, m, now, k).Err?
    ensures SettleFirst(b, m, now, n) == SettleFirst(b, m, now, k)
  {
    if k == n {
    } else {
      SettlingRefusalStays(b, m, now, k, n - 1);
    }
  }

  /** One loan settled with what its part paid. */
  method SettleOne(pool: Pool, account: OperatorAccount, loan: Loan, now: i64, pays: u64, eased: bool)
    returns (r: Result<()>)
    requires account.Valid() && pays > 0
    modifies pool, account`totalDebt, account`openLoans, loan
    ensures var l := old(loan.State());
            match Settle(old(pool.Book()), old(account.State()), if eased then l.(manualRepayment := None) else l, now,
                         pays)
            case Ok(s) => r == Ok(()) && pool.Book() == s.pool && account.State() == s.account && loan.State() == s.loan
            case Err(e) => r == Err(e)
  {
    if eased {
      loan.manualRepayment := None;
    }
    var _ :- SettleLoan(pool, account, loan, now, pays);
    return Ok(());
  }

  /** Loan `k`, if its part paid anything. */
  method SettleAt(pool: Pool, account: OperatorAccount, loans: seq<Loan>, k: nat, owed: u64, pays: u64, withheld: u64,
                  now: i64, ghost m: Measurement) returns (r: Result<()>)
    requires account.Valid() && Apart(loans) && m.For(|loans|) && k < |loans|
    requires owed == m.plan[k].owed && pays == m.pays[k] && withheld == m.withheld[k]
    modifies pool, account`totalDebt, account`openLoans, loans[k]
    ensures match SettlePart(old(Books(pool.Book(), account.State(), States(loans))), m, now, k)
            case Ok(c) => r == Ok(()) && Books(pool.Book(), account.State(), States(loans)) == c
            case Err(e) => r == Err(e)
  {
    if pays == 0 {
      return Ok(());
    }
    ghost var before := States(loans);
    r := SettleOne(pool, account, loans[k], now, pays, withheld == owed);
    assert States(loans) == before[k := loans[k].State()];
  }

  method SettleAll(pool: Pool, account: OperatorAccount, loans: seq<Loan>, plan: seq<Withholding>, pays: seq<u64>,
                   withheld: seq<u64>, now: i64, ghost m: Measurement) returns (r: Result<()>)
    requires account.Valid() && Apart(loans) && m.For(|loans|)
    requires plan == m.plan && pays == m.pays && withheld == m.withheld
    modifies pool, account`totalDebt, account`openLoans, loans
    ensures match SettleFirst(old(Books(pool.Book(), account.State(), States(loans))), m, now, |loans|)
            case Ok(c) => r == Ok(()) && Books(pool.Book(), account.State(), States(loans)) == c
            case Err(e) => r == Err(e)
  {
    ghost var b := Books(pool.Book(), account.State(), States(loans));
    for i := 0 to |loans|
      invariant SettleFirst(b, m, now, i) == Ok(Books(pool.Book(), account.State(), States(loans)))
    {
      var step := SettleAt(pool, account, loans, i, plan[i].owed, pays[i], withheld[i], now, m);
      if step.Err? {
        SettlingRefusalStays(b, m, now, i + 1, |loans|);
        return Err(step.error);
      }
    }
    return Ok(());
  }

  method FlagExhausted(loans: seq<Loan>)
    requires Apart(loans)
    modifies loans
    ensures States(loans) == ExhaustedAllowance(old(States(loans)))
  {
    ghost var states := States(loans);
    for i := 0 to |loans|
      invariant forall j :: 0 <= j < |loans| ==>
        loans[j].State() == if j < i && states[j].IsOpen() then states[j].Flagged(AllowanceShort) else states[j]
    {
      if loans[i].status != Repaid {
        var _ := loans[i].FlagManualRepayment(AllowanceShort);
      }
    }
  }

  // ----- The whole sweep --------------------------------------------------------------------

  datatype Parts = Parts(plan: seq<Withholding>, pays: seq<u64>, withheld: seq<u64>)

  method MeasureLoans(loans: seq<Loan>, reward: RewardAccount, watch: u64, terms: ConversionTerms, rate: u64, now: i64)
    returns (r: Result<Parts>)
    requires Apart(loans) && terms.Accepted() && rate > 0
    modifies loans
    ensures match Measure(old(States(loans)), reward, watch, terms, rate, now)
            case Ok(m) => r == Ok(Parts(m.plan, m.pays, m.withheld)) && States(loans) == m.loans
            case Err(e) => r == Err(e)
  {
    var claimed :- ClaimAll(loans, terms, rate, now);
    var plan := WithholdAll(Payout(reward, watch), Min(reward.amount, reward.Allowance()), claimed.1);
    var priced :- PriceAll(loans, plan, claimed.0, terms, rate, reward.Shortfall());
    return Ok(Parts(plan, priced.0, priced.1));
  }

  /** What the accounts a sweep moves tokens between hold. */
  datatype Holdings = Holdings(reward: RewardAccount, watch: u64, vault: nat, stable: nat, bought: nat) {
    function After(o: Swept): Holdings
      requires o.paid <= stable
    {
      Holdings(o.reward, o.watch, vault + o.paid, stable - o.paid, bought + o.withheld)
    }
  }

  class Market {
    const vault: Vault
    const stable: Vault
    const bought: Vault
    const reward: TokenAccount
    const watch: RewardWatch

    constructor (vault: Vault, stable: Vault, bought: Vault, reward: TokenAccount, watch: RewardWatch)
      requires vault != stable && stable != bought && bought != vault
      ensures Valid()
      ensures this.vault == vault && this.stable == stable && this.bought == bought
      ensures this.reward == reward && this.watch == watch
    {
      this.vault, this.stable, this.bought, this.reward, this.watch := vault, stable, bought, reward, watch;
    }

    ghost predicate Valid() {
      vault != stable && stable != bought && bought != vault
    }

    function Held(): Holdings
      reads vault, stable, bought, reward, watch
    {
      Holdings(reward.State(), watch.balance, vault.amount, stable.amount, bought.amount)
    }

    /** The two transfers of a sale: rewards to the market, stablecoin to the pool. */
    method Exchange(withheld: u64, paid: u64) returns (r: Result<()>)
      requires Valid()
      modifies vault, stable, bought, reward
      ensures var h := old(Held());
              if withheld <= h.reward.amount && withheld <= h.reward.Allowance() && paid <= h.stable
              then && r == Ok(())
                   && Held() == Holdings(h.reward.TakenFrom(withheld), h.watch, h.vault + paid, h.stable - paid,
                                         h.bought + withheld)
              else r == Err(InsufficientFunds)
    {
      var _ :- reward.TakeDelegated(withheld);
      bought.amount := bought.amount + withheld;
      if paid > stable.amount {
        return Err(InsufficientFunds);
      }
      stable.amount := stable.amount - paid;
      vault.amount := vault.amount + paid;
      return Ok(());
    }
  }

  /** The accounts of a sweep are left at its outcome, or it is refused as the outcome is. */
  ghost predicate EndsAt(outcome: Result<Swept>, r: Result<()>, h: Holdings, pool: Pool, account: OperatorAccount,
                         loans: seq<Loan>, market: Market)
    requires account.Valid() && (outcome.Ok? ==> outcome.value.paid <= h.stable)
    reads pool, account, account.usedNonces, loans, market.vault, market.stable, market.bought, market.reward
    reads market.watch
  {
    match outcome
    case Ok(o) =>
      r == Ok(()) && Books(pool.Book(), account.State(), States(loans)) == o.books && market.Held() == h.After(o)
    case Err(e) => r == Err(e)
  }

  /** The sale: both transfers, every part settled, and the loans flagged if the allowance is gone. */
  method SellAll(pool: Pool, account: OperatorAccount, loans: seq<Loan>, market: Market, parts: Parts, withheld: u64,
                 paid: u64, now: i64, ghost b: Books, ghost m: Measurement) returns (r: Result<()>)
    requires account.Valid() && Apart(loans) && market.Valid() && m.For(|loans|) && |b.loans| == |loans|
    requires parts == Parts(m.plan, m.pays, m.withheld)
    requires Books(pool.Book(), account.State(), States(loans)) == b.(loans := m.loans)
    modifies pool, account`totalDebt, account`openLoans, loans
    modifies market.vault, market.stable, market.bought, market.reward, market.watch
    ensures EndsAt(Sell(b, old(market.reward.State()), m, withheld, paid, old(market.stable.amount), now), r,
                   old(market.Held()), pool, account, loans, market)
  {
    var balance, allowance := market.reward.amount, market.reward.State().Allowance();
    var ours := market.reward.delegated.Some?;
    var _ :- market.Exchange(withheld, paid);
    var _ :- SettleAll(pool, account, loans, parts.plan, parts.pays, parts.withheld, now, m);
    if ours && withheld == allowance {
      FlagExhausted(loans);
    }
    market.watch.balance := balance - withheld;
    return Ok(());
  }

  /** Sold if the sale falls within the tolerance; the watch moves to the balance whatever happens. */
  method SweepMeasuredLoans(pool: Pool, account: OperatorAccount, loans: seq<Loan>, market: Market, parts: Parts,
                            terms: ConversionTerms, rate: u64, now: i64, ghost b: Books, ghost m: Measurement)
    returns (r: Result<()>)
    requires account.Valid() && Apart(loans) && market.Valid() && m.For(|loans|) && |b.loans| == |loans|
    requires parts == Parts(m.plan, m.pays, m.withheld)
    requires Books(pool.Book(), account.State(), States(loans)) == b.(loans := m.loans)
    modifies pool, account`totalDebt, account`openLoans, loans
    modifies market.vault, market.stable, market.bought, market.reward, market.watch
    ensures EndsAt(SweepMeasured(b, old(market.reward.State()), m, terms, old(market.stable.amount), rate, now), r,
                   old(market.Held()), pool, account, loans, market)
  {
    var withheld :- CheckedTotal(parts.withheld);
    var paid :- CheckedTotal(parts.pays);
    if withheld > 0 {
      var check :- CheckConversion(withheld, rate, paid, terms.maxSlippageBps);
      if check.withinTolerance {
        r := SellAll(pool, account, loans, market, parts, withheld, paid, now, b, m);
        return;
      }
      var _ :- RestoreAll(loans, parts.withheld, m);
    }
    market.watch.balance := market.reward.amount;
    return Ok(());
  }

  /** `handle_sweep` once the loans to work on are found. */
  method SweepLoans(pool: Pool, account: OperatorAccount, loans: seq<Loan>, market: Market, terms: ConversionTerms,
                    rate: u64, now: i64) returns (r: Result<()>)
    requires account.Valid() && Apart(loans) && market.Valid() && terms.Accepted() && rate > 0
    modifies pool, account`totalDebt, account`openLoans, loans
    modifies market.vault, market.stable, market.bought, market.reward, market.watch
    ensures EndsAt(Sweep(old(Books(pool.Book(), account.State(), States(loans))), old(market.reward.State()),
                         old(market.watch.balance), terms, old(market.stable.amount), rate, now), r,
                   old(market.Held()), pool, account, loans, market)
  {
    ghost var b := Books(pool.Book(), account.State(), States(loans));
    ghost var m := Measure(b.loans, market.reward.State(), market.watch.balance, terms, rate, now);
    var parts :- MeasureLoans(loans, market.reward.State(), market.watch.balance, terms, rate, now);
    r := SweepMeasuredLoans(pool, account, loans, market, parts, terms, rate, now, b, m.value);
  }

  /** What `handle_sweep` does, by the loans it found. */
  function SweepOf(b: Books, h: Holdings, terms: ConversionTerms, rate: u64, now: i64): (r: Result<Swept>)
    requires terms.Accepted() && rate > 0
    ensures r.Ok? ==> r.value.paid <= h.stable
  {
    Sweep(b, h.reward, h.watch, terms, h.stable, rate, now)
  }

  /** `handle_sweep`: the loans handed over checked and put in order, then swept. Loans repaid from
      other tokens are left alone. */
  method HandleSweep(pool: Pool, account: OperatorAccount, loans: seq<Loan>, market: Market, mint: nat,
                     terms: ConversionTerms, rate: u64, now: i64) returns (r: Result<()>)
    requires account.Valid() && OneAccountPerKey(loans) && market.Valid() && terms.Accepted() && rate > 0
    modifies pool, account`totalDebt, account`openLoans, loans
    modifies market.vault, market.stable, market.bought, market.reward, market.watch
    ensures match FoundLoans(loans, old(States(loans)), account.owner, old(account.openLoans), mint)
            case Err(e) => r == Err(e)
            case Ok(mine) =>
              EndsAt(SweepOf(old(Books(pool.Book(), account.State(), States(mine))), old(market.Held()), terms, rate,
                             now),
                     r, old(market.Held()), pool, account, mine, market)
    ensures forall l :: l in loans && l.rewardMint != mint ==> l.State() == old(l.State())
  {
    var mine :- FindLoans(loans, account.owner, account.openLoans, mint);
    r := SweepLoans(pool, account, mine, market, terms, rate, now);
  }
}
