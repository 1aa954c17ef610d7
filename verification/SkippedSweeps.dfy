/** Sweeps skipped because the sale would fall outside the tolerance: what they leave due. */
module SkippedSweeps {
  import opened Outcomes
  import opened Numbers
  import opened Sums
  import opened Loans
  import opened Pools
  import opened Operators
  import opened Settlement
  import opened Conversions
  import opened Withholdings
  import opened Sweeping
  import SweepFacts
  import SweepOutcomes

  /** The parts as measured would be sold, but outside the tolerance. */
  predicate Skips(m: Measurement, terms: ConversionTerms, rate: u64) {
    && 0 < Total(m.withheld) <= U64_MAX && 0 <= Total(m.pays) <= U64_MAX
    && var check := CheckConversion(Total(m.withheld), rate, Total(m.pays), terms.maxSlippageBps);
       check.Ok? && !check.value.withinTolerance
  }

  lemma OneUnitIsReachable(terms: ConversionTerms, rate: u64)
    requires terms.Accepted() && rate > 0
    ensures 1 <= terms.TokensNeeded(1, rate) <= U64_MAX
  {
    MulStrict(0, rate, BPS - terms.spreadBps);
    DivCeilAtMost(PRICE_UNIT, terms.Price(rate), PRICE_UNIT);
    MulMonotone(1, terms.Price(rate), PRICE_UNIT);
    DivCeilAtMost(PRICE_UNIT, terms.Price(rate), 0);
  }

  /** A part pays its loan something exactly if it has the tokens that sell for one unit. */
  lemma PaysFromOneUnitUp(loans: seq<LoanState>, reward: RewardAccount, watch: u64, terms: ConversionTerms, rate: u64,
                          now: i64, m: Measurement, i: nat)
    requires terms.Accepted() && rate > 0 && SweepFacts.Sweepable(loans, now) && i < |loans|
    requires Measure(loans, reward, watch, terms, rate, now) == Ok(m) && m.For(|loans|)
    ensures m.pays[i] > 0 <==> m.plan[i].take >= terms.TokensFor(1, rate)
  {
    SweepFacts.MeasureSteps(loans, reward, watch, terms, rate, now, m);
    SweepFacts.DebtsAreDebts(loans, now, i);
    SweepFacts.DebtAtIsDebtNow(loans[i], now);
    SweepFacts.PaysAreQuotes(m.plan, m.debts, terms, rate, i);
    OneUnitIsReachable(terms, rate);
    QuoteAdjoint(terms, m.plan[i].take, 1, rate);
  }

  lemma SkipLeaves(b: Books, reward: RewardAccount, m: Measurement, terms: ConversionTerms, stable: nat, rate: u64,
                   now: i64)
    requires m.For(|b.loans|) && Skips(m, terms, rate) && RestoredAll(m).Ok?
    ensures SweepMeasured(b, reward, m, terms, stable, rate, now) == Ok(Leave(b, reward, m, RestoredAll(m).value))
  {
  }

  /** A sweep that would sell outside the tolerance goes through without a sale, and leaves a loan due
      all it was owed exactly when its part was nothing, or enough to sell for one unit: fewer tokens
      than that are let go even then. */
  lemma SkippedOwesAllExactly(b: Books, reward: RewardAccount, watch: u64, terms: ConversionTerms, stable: nat,
                              rate: u64, now: i64, m: Measurement, i: nat)
    requires terms.Accepted() && rate > 0 && SweepFacts.Sweepable(b.loans, now) && i < |b.loans|
    requires Measure(b.loans, reward, watch, terms, rate, now) == Ok(m) && Skips(m, terms, rate)
    ensures var part := m.plan[i];
            var o := Sweep(b, reward, watch, terms, stable, rate, now);
            && o.Ok? && !o.value.sold
            && (o.value.books.loans[i].rewardDue == part.owed <==>
                part.take == 0 || part.take >= terms.TokensFor(1, rate))
  {
    SweepFacts.RestoringNeverFails(b.loans, reward, watch, terms, rate, now);
    SweepFacts.MeasuredExactly(b.loans, reward, watch, terms, rate, now, i);
    PaysFromOneUnitUp(b.loans, reward, watch, terms, rate, now, m, i);
    SkipLeaves(b, reward, m, terms, stable, rate, now);
  }

  // ----- One that lets a token go -----------------------------------------------------------

  const MARKET: ConversionTerms := ConversionTerms(200, 100)
  const RATE: u64 := 100_000_000_000

  /** Ten thousand just borrowed, and the agreed share of each payout. */
  function JustBorrowed(nonce: u64, sweepBps: u16, now: u32): LoanState {
    LoanState(0, 0, nonce, 10_000, 10_000, 0, 0, now, now + REPAYMENT_PERIOD, now, 1000, sweepBps, Active, 0, None)
  }

  function BothLoans(now: u32): seq<LoanState> {
    [JustBorrowed(0, 5000, now), JustBorrowed(1, 1, now)]
  }

  const HALF: Withholding := Withholding(5000, 5000)
  const ONE: Withholding := Withholding(1, 1)
  const DEBTS: seq<u64> := [10_000, 10_000]
  const PAYS: seq<u64> := [490, 0]

  lemma {:induction false} TwoParts(payout: u64, available: u64, first: Stake, second: Stake, half: Withholding,
                                    payoutLeft: u64, left: u64)
    requires half == Withhold(first, payout, available)
    requires payoutLeft == payout - (half.owed - Earlier(first)) && left == available - half.take
    ensures Split(payout, available, [first, second]) == [half, Withhold(second, payoutLeft, left)]
  {
    SplitStep(payout, available, [], [], first, payout, available);
    LeftAfterPart(payout, available, [], [], first, half);
    assert [] + [first] == [first] && [] + [half] == [half] && [first] + [second] == [first, second];
    SplitStep(payout, available, [first], [half], second, payoutLeft, left);
  }

  /** Half of the payout for the older loan, one token of it for the younger. */
  lemma BothPlanned(available: u64, claims: seq<Claim>)
    requires available >= 5001 && |claims| == 2
    requires claims[0] == Claim(5000, claims[0].need, 0) && claims[0].need >= 5000
    requires claims[1] == Claim(1, claims[1].need, 0) && claims[1].need >= 1
    ensures Plan(10_001, available, claims) == [HALF, ONE]
  {
    var first, second := Stake(5000, claims[0].need, 0), Stake(1, claims[1].need, 0);
    assert StakesOf(10_001, claims) == [first, second];
    TwoParts(10_001, available, first, second, HALF, 5001, available - 5000);
  }

  lemma TotalOfTwo(x: int, y: int)
    ensures Total([x, y]) == x + y
  {
    assert [x, y] == [x] + [y] && [x] == [] + [x];
    TotalAppend([x], y);
    TotalAppend([], x);
  }

  lemma {:induction false} BothDebts(now: u32)
    ensures DebtsAt(BothLoans(now), now) == Ok(DEBTS)
  {
    var loans := BothLoans(now);
    assert DebtAt(loans[0], now) == DebtAt(loans[1], now) == Ok(10_000);
    assert [loans[0]][..0] == [] && loans[..1] == [loans[0]] && DEBTS[..0] + [10_000] == DEBTS[..1];
    assert DebtsAt([], now) == Ok(DEBTS[..0]);
    assert DebtsAt([loans[0]], now) == Ok(DEBTS[..1]);
    assert DEBTS[..1] + [10_000] == DEBTS;
  }

  lemma BothPays()
    ensures PaysFor([HALF, ONE], DEBTS, MARKET, RATE) == Ok(PAYS)
  {
    var plan := [HALF, ONE];
    assert MARKET.Quote(5000, RATE) == Ok(490) && MARKET.Quote(1, RATE) == Ok(0);
    assert [HALF][..0] == [] && plan[..1] == [HALF] && DEBTS[..1][..0] == DEBTS[..0];
    assert PAYS[..0] + [490] == PAYS[..1] && PAYS[..1] + [0] == PAYS;
    assert PaysFor([], DEBTS[..0], MARKET, RATE) == Ok(PAYS[..0]);
    assert PaysFor([HALF], DEBTS[..1], MARKET, RATE) == Ok(PAYS[..1]);
  }

  lemma BothMeasured(reward: RewardAccount, now: u32, m: Measurement)
    requires reward.amount == 10_001 <= reward.Allowance()
    requires m == Measurement(DEBTS, [HALF, ONE], PAYS, [5000, 0], BothLoans(now))
    ensures Measure(BothLoans(now), reward, 0, MARKET, RATE, now) == Ok(m)
  {
    var loans := BothLoans(now);
    BothDebts(now);
    BothPays();
    assert MARKET.TokensFor(10_000, RATE) == 102_041;
    BothPlanned(10_001, ClaimsOf(loans, DEBTS, MARKET, RATE));
    assert WithheldOf([HALF, ONE], PAYS) == [5000, 0];
    assert MeasuredAll(loans, [HALF, ONE], reward.Shortfall()) == loans;
  }

  lemma BothRestored(now: u32, m: Measurement)
    requires m == Measurement(DEBTS, [HALF, ONE], PAYS, [5000, 0], BothLoans(now))
    ensures m.For(2) && RestoredAll(m).Ok?
    ensures RestoredAll(m).value[0].rewardDue == 5000 && RestoredAll(m).value[1].rewardDue == 0
  {
  }

  lemma BothSkipped(now: u32, m: Measurement)
    requires m == Measurement(DEBTS, [HALF, ONE], PAYS, [5000, 0], BothLoans(now))
    ensures Skips(m, MARKET, RATE)
  {
    TotalOfTwo(5000, 0);
    TotalOfTwo(490, 0);
    assert CheckConversion(5000, RATE, 490, 100) == Ok(ConversionCheck(200, false));
  }

  lemma BothSweepable(now: u32)
    ensures SweepFacts.Sweepable(BothLoans(now), now)
  {
  }

  lemma BothLeft(b: Books, reward: RewardAccount, stable: nat, now: u32, m: Measurement)
    requires b.loans == BothLoans(now)
    requires m == Measurement(DEBTS, [HALF, ONE], PAYS, [5000, 0], BothLoans(now)) && m.For(|b.loans|)
    ensures var o := SweepMeasured(b, reward, m, MARKET, stable, RATE, now);
            && o.Ok? && !o.value.sold && o.value.measured == m
            && o.value.books.loans[0].rewardDue == 5000 && o.value.books.loans[1].rewardDue == 0
  {
    BothSkipped(now, m);
    BothRestored(now, m);
    SkipLeaves(b, reward, m, MARKET, stable, RATE, now);
  }

  /** Two loans just taken out and a payout of 10001: the older's 5000 tokens would sell two percent
      below the attested rate, so the sweep is skipped, and they stay due; the younger was owed one
      token, which would have sold for nothing, and is due nothing. */
  lemma SkippedCanLetTokensGo(pool: PoolBook, account: OperatorState, reward: RewardAccount, stable: nat, now: u32)
    requires reward.amount == 10_001 <= reward.Allowance()
    ensures SweepFacts.Sweepable(BothLoans(now), now)
    ensures var o := Sweep(Books(pool, account, BothLoans(now)), reward, 0, MARKET, stable, RATE, now);
            && o.Ok? && !o.value.sold
            && o.value.measured.plan == [HALF, ONE]
            && o.value.books.loans[0].rewardDue == 5000 && o.value.books.loans[1].rewardDue == 0
  {
    var b := Books(pool, account, BothLoans(now));
    var m := Measurement(DEBTS, [HALF, ONE], PAYS, [5000, 0], BothLoans(now));
    BothSweepable(now);
    BothMeasured(reward, now, m);
    SweepOutcomes.MeasuredSweep(b, reward, 0, MARKET, stable, RATE, now, m);
    BothLeft(b, reward, stable, now, m);
  }
}
