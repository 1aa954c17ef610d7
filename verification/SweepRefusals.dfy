/** When a sweep is refused: every reason there is, and no other. */
module SweepRefusals {
  import opened Outcomes
  import opened Numbers
  import opened Sums
  import opened Loans
  import opened Pools
  import opened Operators
  import opened Settlement
  import opened Conversions
  import opened Withholdings
  import opened Protocol
  import opened Ledger
  import opened Solvency
  import opened SweepOutcomes
  import OpenLoans
  import Sweeping
  import SweepFacts

  // ----- Measuring --------------------------------------------------------------------------

  predicate DebtFits(l: LoanState, now: int) {
    DebtNow(l, now) <= U64_MAX
  }

  lemma DebtFitsExactly(l: LoanState, now: i64)
    requires l.WellFormed(now) && l.IsOpen()
    ensures Sweeping.DebtAt(l, now).Ok? <==> DebtFits(l, now)
  {
    AccrueFitsExactly(l, now);
  }

  predicate DebtsFit(loans: seq<LoanState>, now: int) {
    forall i :: 0 <= i < |loans| ==> DebtFits(loans[i], now)
  }

  lemma OneMoreDebt(loans: seq<LoanState>, now: int)
    requires loans != []
    ensures var n := |loans| - 1;
            DebtsFit(loans, now) <==> DebtsFit(loans[..n], now) && DebtFits(loans[n], now)
  {
    var n := |loans| - 1;
    if DebtsFit(loans[..n], now) && DebtFits(loans[n], now) {
      forall i | 0 <= i < |loans| ensures DebtFits(loans[i], now) {
        assert i < n ==> DebtFits(loans[..n][i], now);
      }
    }
  }

  lemma {:induction false} LastDebtRefuses(loans: seq<LoanState>, now: i64)
    requires loans != []
    ensures var n := |loans| - 1;
            Sweeping.DebtsAt(loans, now).Ok? <==>
            Sweeping.DebtsAt(loans[..n], now).Ok? && Sweeping.DebtAt(loans[n], now).Ok?
  {
  }

  lemma {:induction false} DebtsFitExactly(loans: seq<LoanState>, now: i64)
    requires SweepFacts.Sweepable(loans, now)
    ensures Sweeping.DebtsAt(loans, now).Ok? <==> DebtsFit(loans, now)
  {
    if loans == [] {
    } else {
      var n := |loans| - 1;
      LastDebtRefuses(loans, now);
      OneMoreDebt(loans, now);
      DebtsFitExactly(loans[..n], now);
      DebtFitsExactly(loans[n], now);
    }
  }

  /** What a part sells for fits u64, before the spread's rounding. */
  predicate QuoteFits(take: int, terms: ConversionTerms, rate: int) {
    take * rate * (10_000 - terms.spreadBps) < 0x1_0000_0000_0000_0000 * 10_000_000_000_000_000
  }

  predicate QuotesFit(plan: seq<Withholding>, terms: ConversionTerms, rate: int) {
    forall i :: 0 <= i < |plan| ==> QuoteFits(plan[i].take, terms, rate)
  }

  lemma OneMoreQuote(plan: seq<Withholding>, terms: ConversionTerms, rate: int)
    requires plan != []
    ensures var n := |plan| - 1;
            QuotesFit(plan, terms, rate) <==> QuotesFit(plan[..n], terms, rate) && QuoteFits(plan[n].take, terms, rate)
  {
    var n := |plan| - 1;
    if QuotesFit(plan[..n], terms, rate) && QuoteFits(plan[n].take, terms, rate) {
      forall i | 0 <= i < |plan| ensures QuoteFits(plan[i].take, terms, rate) {
        assert i < n ==> QuoteFits(plan[..n][i].take, terms, rate);
      }
    }
  }

  lemma {:induction false} LastQuoteRefuses(plan: seq<Withholding>, debts: seq<u64>, terms: ConversionTerms, rate: u64)
    requires |debts| == |plan| && plan != [] && terms.Accepted()
    ensures var n := |plan| - 1;
            Sweeping.PaysFor(plan, debts, terms, rate).Ok? <==>
            Sweeping.PaysFor(plan[..n], debts[..n], terms, rate).Ok? && terms.Quote(plan[n].take, rate).Ok?
  {
  }

  lemma {:induction false} QuotesFitExactly(plan: seq<Withholding>, debts: seq<u64>, terms: ConversionTerms, rate: u64)
    requires |debts| == |plan| && terms.Accepted()
    ensures Sweeping.PaysFor(plan, debts, terms, rate).Ok? <==> QuotesFit(plan, terms, rate)
  {
    if plan == [] {
    } else {
      var n := |plan| - 1;
      QuotesFitExactly(plan[..n], debts[..n], terms, rate);
      LastQuoteRefuses(plan, debts, terms, rate);
      OneMoreQuote(plan, terms, rate);
      QuoteInUnits(terms, plan[n].take, rate);
    }
  }

  /** The parts a sweep would withhold, with the debts it would find. */
  function PartsOf(loans: seq<LoanState>, reward: Sweeping.RewardAccount, watch: u64, terms: ConversionTerms, rate: u64,
                   now: i64): seq<Withholding>
    requires terms.Accepted() && rate > 0 && Sweeping.DebtsAt(loans, now).Ok?
  {
    Plan(Sweeping.Payout(reward, watch), Min(reward.amount, reward.Allowance()),
         Sweeping.ClaimsOf(loans, Sweeping.DebtsAt(loans, now).value, terms, rate))
  }

  /** A sweep is measured exactly when every loan's debt and the price of every part fit. */
  lemma {:induction false} MeasuresExactly(loans: seq<LoanState>, reward: Sweeping.RewardAccount, watch: u64,
                                           terms: ConversionTerms, rate: u64, now: i64)
    requires terms.Accepted() && rate > 0 && SweepFacts.Sweepable(loans, now)
    ensures Sweeping.Measure(loans, reward, watch, terms, rate, now).Ok? <==>
            && DebtsFit(loans, now) && Sweeping.DebtsAt(loans, now).Ok?
            && QuotesFit(PartsOf(loans, reward, watch, terms, rate, now), terms, rate)
  {
    DebtsFitExactly(loans, now);
    if Sweeping.DebtsAt(loans, now).Ok? {
      QuotesFitExactly(PartsOf(loans, reward, watch, terms, rate, now), Sweeping.DebtsAt(loans, now).value, terms,
                       rate);
    }
  }

  // ----- Settling ---------------------------------------------------------------------------

  /** The totals a settlement adds to, without integer widths. */
  datatype Running = Running(debt: int, receivable: int, deposits: int, rateTime: int, remainders: int)

  function RunningOf(pool: PoolBook, account: OperatorState): Running {
    Running(account.totalDebt, pool.accruedInterest, pool.totalDeposits, pool.accrualRateTime, pool.accrualRemainders)
  }

  /** The totals after the loan is settled with `paid`. */
  function Settling(t: Running, l: LoanState, now: int, paid: int): Running {
    if paid == 0 then t else
    var open := paid < DebtNow(l, now);
    Running(t.debt + Booked(l, now) - Min(paid, DebtNow(l, now)),
            t.receivable + Booked(l, now) - ToInterest(l, now, paid),
            t.deposits + ToInterest(l, now, paid),
            t.rateTime - RateTimeOf(l) + (if open then PrincipalLeft(l, now, paid) * l.aprBps * now else 0),
            t.remainders - RemainderOf(l) + (if open then l.Unbooked(now) % ACCRUAL_DENOMINATOR else 0))
  }

  predicate SettlingFits(t: Running, l: LoanState, now: int, paid: int) {
    paid == 0
    || (&& t.debt + Booked(l, now) <= U64_MAX
        && t.receivable + Booked(l, now) <= U64_MAX
        && t.deposits + ToInterest(l, now, paid) <= U64_MAX
        && (paid < DebtNow(l, now) ==>
              && t.rateTime - RateTimeOf(l) + PrincipalLeft(l, now, paid) * l.aprBps * now <= U128_MAX
              && t.remainders - RemainderOf(l) + l.Unbooked(now) % ACCRUAL_DENOMINATOR <= U128_MAX))
  }

  /** The totals after the first `n` loans are settled, and that nothing overflowed on the way. */
  function SettlingAll(t: Running, loans: seq<LoanState>, pays: seq<u64>, now: int, n: nat): Running
    requires n <= |loans| == |pays|
  {
    if n == 0 then t else Settling(SettlingAll(t, loans, pays, now, n - 1), loans[n - 1], now, pays[n - 1])
  }

  predicate FirstSettle(t: Running, loans: seq<LoanState>, pays: seq<u64>, now: int, n: nat)
    requires n <= |loans| == |pays|
  {
    forall k :: 0 <= k < n ==> SettlingFits(SettlingAll(t, loans, pays, now, k), loans[k], now, pays[k])
  }

  lemma SettleMovesRunning(pool: PoolBook, account: OperatorState, l: LoanState, now: i64, paid: u64)
    requires l.WellFormed(now) && l.IsOpen() && 0 < paid && Settle(pool, account, l, now, paid).Ok?
    ensures var s := Settle(pool, account, l, now, paid).value;
            RunningOf(s.pool, s.account) == Settling(RunningOf(pool, account), l, now, paid)
  {
    SettleMoves(pool, account, l, now, paid);
    AccrueFitsExactly(l, now);
    PaidLoan(l, now, paid);
  }

  lemma SameSettling(t: Running, l: LoanState, m: LoanState, now: int, paid: int)
    requires SameMoney(l, m)
    ensures Settling(t, m, now, paid) == Settling(t, l, now, paid)
    ensures SettlingFits(t, m, now, paid) <==> SettlingFits(t, l, now, paid)
  {
  }

  lemma PartMovesRunning(c: Books, m: Sweeping.Measurement, now: i64, k: nat, l: LoanState)
    requires m.For(|c.loans|) && k < |c.loans| && c.loans[k].WellFormed(now) && c.loans[k].IsOpen()
    requires SameMoney(l, c.loans[k]) && Sweeping.SettlePart(c, m, now, k).Ok?
    ensures var d := Sweeping.SettlePart(c, m, now, k).value;
            RunningOf(d.pool, d.account) == Settling(RunningOf(c.pool, c.account), l, now, m.pays[k])
  {
    if m.pays[k] > 0 {
      var eased := Sweeping.Eased(c.loans[k], m, k);
      SettleMovesRunning(c.pool, c.account, eased, now, m.pays[k]);
      SameSettling(RunningOf(c.pool, c.account), l, eased, now, m.pays[k]);
    }
  }

  lemma AllSettleNext(t: Running, loans: seq<LoanState>, pays: seq<u64>, now: int, n: nat)
    requires n < |loans| == |pays|
    ensures FirstSettle(t, loans, pays, now, n + 1) <==>
            FirstSettle(t, loans, pays, now, n)
            && SettlingFits(SettlingAll(t, loans, pays, now, n), loans[n], now, pays[n])
  {
  }

  /** One more part settles exactly if its additions fit, and moves the totals as they say. */
  lemma {:induction false} NextSettlesExactly(b: Books, m: Sweeping.Measurement, now: i64, k: nat, c: Books)
    requires CoveredParts(b, m, now) && SweepFacts.Sweepable(b.loans, now) && k < |b.loans| == |c.loans|
    requires Sweeping.SettleFirst(b.(loans := m.loans), m, now, k) == Ok(c)
    ensures Sweeping.SettlePart(c, m, now, k).Ok? <==>
            SettlingFits(RunningOf(c.pool, c.account), b.loans[k], now, m.pays[k])
    ensures Sweeping.SettlePart(c, m, now, k).Ok? ==>
            var d := Sweeping.SettlePart(c, m, now, k).value;
            RunningOf(d.pool, d.account) == Settling(RunningOf(c.pool, c.account), b.loans[k], now, m.pays[k])
  {
    SweepFacts.SettleFirstLeavesRest(b.(loans := m.loans), m, now, k);
    assert c.loans[k] == c.loans[k..][0] == m.loans[k];
    if m.pays[k] > 0 {
      MeasuredPartsSettle(b, m, now, k, c);
    }
    if Sweeping.SettlePart(c, m, now, k).Ok? {
      PartMovesRunning(c, m, now, k, b.loans[k]);
    }
  }

  lemma NextSettlement(start: Books, m: Sweeping.Measurement, now: i64, k: nat)
    requires m.For(|start.loans|) && k < |start.loans|
    ensures var c := Sweeping.SettleFirst(start, m, now, k);
            Sweeping.SettleFirst(start, m, now, k + 1)
            == if c.Ok? then Sweeping.SettlePart(c.value, m, now, k) else c
  {
  }

  /** The first `n` settlements, ending in `c`, go through exactly if their additions fit, and move the
      totals so. */
  predicate SettlesAs(t: Running, loans: seq<LoanState>, pays: seq<u64>, now: int, n: nat, c: Result<Books>)
    requires n <= |loans| == |pays|
  {
    && (c.Ok? <==> FirstSettle(t, loans, pays, now, n))
    && (c.Ok? ==> RunningOf(c.value.pool, c.value.account) == SettlingAll(t, loans, pays, now, n))
  }

  lemma NextSettlesAs(t: Running, loans: seq<LoanState>, pays: seq<u64>, now: int, n: nat, c: Result<Books>,
                      d: Result<Books>)
    requires 0 < n <= |loans| == |pays| && SettlesAs(t, loans, pays, now, n - 1, c)
    requires c.Err? ==> d.Err?
    requires c.Ok? ==>
      var before := RunningOf(c.value.pool, c.value.account);
      && (d.Ok? <==> SettlingFits(before, loans[n - 1], now, pays[n - 1]))
      && (d.Ok? ==> RunningOf(d.value.pool, d.value.account) == Settling(before, loans[n - 1], now, pays[n - 1]))
    ensures SettlesAs(t, loans, pays, now, n, d)
  {
    AllSettleNext(t, loans, pays, now, n - 1);
  }

  /** Part `k`, from the books the parts before it left: it settles exactly if its additions fit. */
  predicate PartSettles(loans: seq<LoanState>, start: Books, m: Sweeping.Measurement, now: i64, k: nat)
    requires m.For(|start.loans|) && k < |loans| == |start.loans|
  {
    var c := Sweeping.SettleFirst(start, m, now, k);
    c.Ok? ==>
      var before, d := RunningOf(c.value.pool, c.value.account), Sweeping.SettlePart(c.value, m, now, k);
      && (d.Ok? <==> SettlingFits(before, loans[k], now, m.pays[k]))
      && (d.Ok? ==> RunningOf(d.value.pool, d.value.account) == Settling(before, loans[k], now, m.pays[k]))
  }

  lemma EachPartSettles(b: Books, start: Books, m: Sweeping.Measurement, now: i64)
    requires CoveredParts(b, m, now) && SweepFacts.Sweepable(b.loans, now) && start == b.(loans := m.loans)
    ensures forall k :: 0 <= k < |b.loans| ==> PartSettles(b.loans, start, m, now, k)
  {
    forall k | 0 <= k < |b.loans| ensures PartSettles(b.loans, start, m, now, k) {
      var c := Sweeping.SettleFirst(start, m, now, k);
      if c.Ok? {
        NextSettlesExactly(b, m, now, k, c.value);
      }
    }
  }

  lemma OneMoreSettles(loans: seq<LoanState>, start: Books, m: Sweeping.Measurement, now: i64, n: nat, t: Running,
                       c: Result<Books>)
    returns (d: Result<Books>)
    requires m.For(|start.loans|) && 0 < n <= |loans| == |start.loans| && PartSettles(loans, start, m, now, n - 1)
    requires c == Sweeping.SettleFirst(start, m, now, n - 1) && SettlesAs(t, loans, m.pays, now, n - 1, c)
    ensures d == Sweeping.SettleFirst(start, m, now, n) && SettlesAs(t, loans, m.pays, now, n, d)
  {
    NextSettlement(start, m, now, n - 1);
    d := if c.Ok? then Sweeping.SettlePart(c.value, m, now, n - 1) else c;
    NextSettlesAs(t, loans, m.pays, now, n, c, d);
  }

  lemma {:induction false} SettlesExactly(loans: seq<LoanState>, start: Books, m: Sweeping.Measurement, now: i64,
                                          n: nat, t: Running)
    returns (c: Result<Books>)
    requires m.For(|start.loans|) && n <= |loans| == |start.loans| && t == RunningOf(start.pool, start.account)
    requires forall k :: 0 <= k < |loans| ==> PartSettles(loans, start, m, now, k)
    ensures c == Sweeping.SettleFirst(start, m, now, n) && SettlesAs(t, loans, m.pays, now, n, c)
  {
    if n == 0 {
      c := Ok(start);
    } else {
      var before := SettlesExactly(loans, start, m, now, n - 1, t);
      c := OneMoreSettles(loans, start, m, now, n, t, before);
    }
  }

  // ----- The whole sweep --------------------------------------------------------------------

  /** The measured sweep goes through: with nothing sold, or with a sale within the tolerance that the
      market can afford and every settlement of which fits. */
  predicate GoesThrough(b: Books, m: Sweeping.Measurement, terms: ConversionTerms, stable: nat, rate: int, now: int)
    requires m.For(|b.loans|)
  {
    var withheld, paid := Total(m.withheld), Total(m.pays);
    || SellsNothing(m, terms, rate)
    || (&& withheld > 0 && paid <= U64_MAX && paid <= stable
        && ShortfallFits(withheld, paid, rate) && WithinTolerance(withheld, paid, rate, terms.maxSlippageBps)
        && FirstSettle(RunningOf(b.pool, b.account), b.loans, m.pays, now, |b.loans|))
  }

  lemma GoesThroughExactly(b: Books, reward: Sweeping.RewardAccount, watch: u64, terms: ConversionTerms, stable: nat,
                           rate: u64, now: i64, m: Sweeping.Measurement)
    requires terms.Accepted() && rate > 0 && CoversAll(b) && SweepFacts.Sweepable(b.loans, now)
    requires Sweeping.Measure(b.loans, reward, watch, terms, rate, now) == Ok(m) && m.For(|b.loans|)
    ensures Sweeping.Sweep(b, reward, watch, terms, stable, rate, now).Ok? <==>
            GoesThrough(b, m, terms, stable, rate, now)
  {
    SweepSellsExactly(b, reward, watch, terms, stable, rate, now, m);
    assert CoveredParts(b, m, now) by {
      MeasuredPartsCovered(b, reward, watch, terms, rate, now, m);
    }
    EachPartSettles(b, b.(loans := m.loans), m, now);
    var c := SettlesExactly(b.loans, b.(loans := m.loans), m, now, |b.loans|, RunningOf(b.pool, b.account));
  }

  lemma ListedExactly(w: World, operator: nat, mint: nat, passed: seq<nat>)
    ensures Swept(w, operator, mint, passed).Ok? <==>
            AllOpenLoansOf(w, operator, passed) && |passed| == w.Account(operator).openLoans
  {
    if Present(w.loans, passed) {
      var mine := Gather(w.loans, passed);
      if AllOpenLoansOf(w, operator, passed) {
        forall i | 0 <= i < |passed|
          ensures mine[i].operator == operator && mine[i].IsOpen() && passed[i] !in passed[..i]
        {
          assert mine[i] == w.loans[passed[i]];
        }
      }
      if OpenLoans.AllOpenOf(passed, mine, operator) {
        DistinctBefore(passed);
        forall i | 0 <= i < |passed| ensures w.loans[passed[i]].operator == operator && w.loans[passed[i]].IsOpen() {
          assert mine[i] == w.loans[passed[i]];
        }
      }
    }
  }

  lemma DistinctBefore(keys: seq<nat>)
    requires forall i :: 0 <= i < |keys| ==> keys[i] !in keys[..i]
    ensures DistinctPlaces(keys)
  {
    forall i, j | 0 <= i < j < |keys| ensures keys[i] != keys[j] {
      assert keys[i] in keys[..j];
    }
  }

  /** The operator's accounts and market are there, and the loans handed over are each of its open
      loans, once. */
  predicate Sweepers(w: World, operator: nat, mint: nat, rate: u64, passed: seq<nat>) {
    && rate > 0 && operator in w.operators && (operator, mint) in w.watches && mint in w.conversions
    && AllOpenLoansOf(w, operator, passed) && |passed| == w.Account(operator).openLoans
  }

  /** In every sound world a sweep is refused exactly for a missing account, a list that is not every
      open loan of the operator once, a debt or a price that does not fit, or a sale that is within the
      tolerance but not affordable or with an addition that does not fit. */
  lemma SweepRefusedExactly(w: World, operator: nat, mint: nat, rate: u64, passed: seq<nat>)
    requires Sound(w)
    ensures DoSweep(w, operator, mint, rate, passed).Ok? <==>
            && Sweepers(w, operator, mint, rate, passed) && w.conversions[mint].terms.Accepted()
            && Swept(w, operator, mint, passed).Ok?
            && var b := BooksAt(w, operator, Swept(w, operator, mint, passed).value);
               var m := Sweeping.Measure(b.loans, w.Rewards((operator, mint)), w.watches[(operator, mint)],
                                         w.conversions[mint].terms, rate, w.clock);
               m.Ok? && GoesThrough(b, m.value, w.conversions[mint].terms, w.conversions[mint].stable, rate, w.clock)
  {
    ListedExactly(w, operator, mint, passed);
    if Sweepers(w, operator, mint, rate, passed) {
      var b := BooksAt(w, operator, Swept(w, operator, mint, passed).value);
      var conversion, lane := w.conversions[mint], (operator, mint);
      SweptBooksCover(w, operator, mint, passed);
      var m := Sweeping.Measure(b.loans, w.Rewards(lane), w.watches[lane], conversion.terms, rate, w.clock);
      if m.Ok? {
        GoesThroughExactly(b, w.Rewards(lane), w.watches[lane], conversion.terms, conversion.stable, rate, w.clock,
                           m.value);
      }
    }
  }
}
