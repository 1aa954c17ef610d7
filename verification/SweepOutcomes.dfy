/** What a sweep owes each loan, when it sells, and when it goes through: exactly, in plain units. */
module SweepOutcomes {
  import opened Outcomes
  import opened Numbers
  import opened Sums
  import opened Loans
  import opened Settlement
  import opened Conversions
  import opened Withholdings
  import opened Sweeping
  import opened SweepFacts

  // ----- What each loan is owed -------------------------------------------------------------

  /** Of the first loans' parts, what came out of the payout rather than out of what was due. */
  function OutOfPayout(loans: seq<LoanState>, plan: seq<Withholding>): int
    requires |loans| == |plan|
  {
    if loans == [] then 0 else
    var n := |loans| - 1;
    OutOfPayout(loans[..n], plan[..n]) + plan[n].owed - Min(loans[n].rewardDue, plan[n].owed)
  }

  /** These tokens sell for the debt. */
  predicate PaysOff(tokens: int, debt: int, terms: ConversionTerms, rate: int) {
    tokens * rate * (10_000 - terms.spreadBps) >= debt * 10_000_000_000_000_000
  }

  /** A loan is owed what was due to it and its agreed share of all that is over the watch, rounded
      down; less only if what it is owed pays it off, or the payout has run out; and never a token
      more than pays it off. */
  predicate OwedInFull(loans: seq<LoanState>, payout: int, m: Measurement, terms: ConversionTerms, rate: int, i: nat)
    requires i < |loans| && m.For(|loans|)
  {
    var owed, entitled := m.plan[i].owed, loans[i].rewardDue + payout * loans[i].sweepBps / 10_000;
    && owed <= entitled
    && (owed < entitled ==>
          || owed == U64_MAX || PaysOff(owed, m.debts[i], terms, rate)
          || OutOfPayout(loans[..i + 1], m.plan[..i + 1]) == payout)
    && (owed > 0 ==> !PaysOff(owed - 1, m.debts[i], terms, rate))
  }

  lemma {:induction false} OutOfPayoutIs(loans: seq<LoanState>, stakes: seq<Stake>, plan: seq<Withholding>)
    requires |loans| == |stakes| == |plan|
    requires forall i :: 0 <= i < |loans| ==>
      stakes[i].due == loans[i].rewardDue && Earlier(stakes[i]) <= plan[i].owed <= stakes[i].need
    ensures OutOfPayout(loans, plan) == FreshlyOwed(stakes, plan)
  {
    if loans == [] {
    } else {
      var n := |loans| - 1;
      OutOfPayoutIs(loans[..n], stakes[..n], plan[..n]);
    }
  }

  lemma NeedPaysOff(tokens: nat, debt: u64, terms: ConversionTerms, rate: u64)
    requires terms.Accepted() && rate > 0
    ensures PaysOff(tokens, debt, terms, rate) <==> tokens >= terms.TokensNeeded(debt, rate)
  {
    MulStrict(0, rate, BPS - terms.spreadBps);
    DivCeilAtMost(debt * PRICE_UNIT, terms.Price(rate), tokens);
    assert tokens * rate * (10_000 - terms.spreadBps) == terms.Price(rate) * tokens;
  }

  lemma PartOwedInFull(loan: LoanState, debt: u64, payout: u64, part: Withholding, terms: ConversionTerms, rate: u64,
                       stake: Stake, runOut: bool)
    requires terms.Accepted() && rate > 0 && loan.sweepBps <= BPS
    requires stake == StakeOf(payout, ClaimOf(loan, debt, terms, rate))
    requires Earlier(stake) <= part.owed <= stake.need
    requires part.owed <= Earlier(stake) + Min(stake.share, stake.need - Earlier(stake))
    requires part.owed < Earlier(stake) + Min(stake.share, stake.need - Earlier(stake)) ==> runOut
    ensures var entitled := loan.rewardDue + payout * loan.sweepBps / 10_000;
            && part.owed <= entitled
            && (part.owed < entitled ==> part.owed == U64_MAX || PaysOff(part.owed, debt, terms, rate) || runOut)
            && (part.owed > 0 ==> !PaysOff(part.owed - 1, debt, terms, rate))
  {
    ShareIsExact(payout, ClaimOf(loan, debt, terms, rate));
    NeedPaysOff(part.owed, debt, terms, rate);
    if part.owed > 0 {
      NeedPaysOff(part.owed - 1, debt, terms, rate);
    }
  }

  /** What the payout is, what can be taken and how it is shared out, in plain amounts. */
  predicate FairlyMeasuredAll(loans: seq<LoanState>, reward: RewardAccount, watch: u64, terms: ConversionTerms,
                              rate: u64, m: Measurement)
    requires m.For(|loans|)
  {
    var payout := Max(reward.amount - watch, 0);
    var allowed := if reward.delegated == None then 0 else reward.delegated.value;
    && (forall i :: 0 <= i < |loans| ==> OwedInFull(loans, payout, m, terms, rate, i))
    && Sum(m.plan, Take) == Min(Min(reward.amount, allowed), Sum(m.plan, Owed))
    && (forall i :: 0 <= i < |loans| ==> m.plan[i].take <= m.plan[i].owed)
    && (forall i, j :: 0 <= i < j < |loans| && m.plan[i].take < m.plan[i].owed ==> m.plan[j].take == 0)
  }

  lemma {:induction false} StakesCovered(payout: u64, available: u64, stakes: seq<Stake>, plan: seq<Withholding>)
    requires plan == Split(payout, available, stakes)
    ensures forall j :: 0 <= j < |stakes| ==> Earlier(stakes[j]) <= plan[j].owed <= stakes[j].need
  {
    forall j | 0 <= j < |stakes| ensures Earlier(stakes[j]) <= plan[j].owed <= stakes[j].need {
      SplitIsFair(payout, available, stakes, j);
    }
  }

  lemma PlanOwesInFull(loans: seq<LoanState>, payout: u64, available: u64, debts: seq<u64>, terms: ConversionTerms,
                       rate: u64, m: Measurement, i: nat)
    requires terms.Accepted() && rate > 0 && m.For(|loans|) && |debts| == |loans| && m.debts == debts
    requires m.plan == Plan(payout, available, ClaimsOf(loans, debts, terms, rate)) && i < |loans|
    requires forall j :: 0 <= j < |loans| ==> loans[j].sweepBps <= BPS
    ensures OwedInFull(loans, payout, m, terms, rate, i)
  {
    var claims := ClaimsOf(loans, debts, terms, rate);
    var stakes := StakesOf(payout, claims);
    StakesCovered(payout, available, stakes, m.plan);
    SplitIsFair(payout, available, stakes, i);
    OutOfPayoutIs(loans[..i + 1], stakes[..i + 1], m.plan[..i + 1]);
    PartOwedInFull(loans[i], debts[i], payout, m.plan[i], terms, rate, stakes[i],
                   OutOfPayout(loans[..i + 1], m.plan[..i + 1]) == payout);
  }

  /** Every measurement shares a payout out fairly: no loan short of its agreed share but for the two
      reasons there are, all the account and the allowance can give taken, the oldest loan first. */
  lemma MeasurementIsFair(loans: seq<LoanState>, reward: RewardAccount, watch: u64, terms: ConversionTerms, rate: u64,
                          now: i64, m: Measurement)
    requires terms.Accepted() && rate > 0 && Sweepable(loans, now)
    requires Measure(loans, reward, watch, terms, rate, now) == Ok(m) && m.For(|loans|)
    ensures FairlyMeasuredAll(loans, reward, watch, terms, rate, m)
  {
    MeasureSteps(loans, reward, watch, terms, rate, now, m);
    PlanIsFair(loans, reward, watch, terms, rate, m);
  }

  lemma PlanIsFair(loans: seq<LoanState>, reward: RewardAccount, watch: u64, terms: ConversionTerms, rate: u64,
                   m: Measurement)
    requires terms.Accepted() && rate > 0 && m.For(|loans|)
    requires forall j :: 0 <= j < |loans| ==> loans[j].sweepBps <= BPS
    requires m.plan == Plan(Payout(reward, watch), Min(reward.amount, reward.Allowance()),
                            ClaimsOf(loans, m.debts, terms, rate))
    ensures FairlyMeasuredAll(loans, reward, watch, terms, rate, m)
  {
    var payout, available := Payout(reward, watch), Min(reward.amount, reward.Allowance());
    WithholdingSplit(payout, available, ClaimsOf(loans, m.debts, terms, rate));
    forall i | 0 <= i < |loans| ensures OwedInFull(loans, payout, m, terms, rate, i) {
      PlanOwesInFull(loans, payout, available, m.debts, terms, rate, m, i);
    }
  }

  // ----- When it sells ----------------------------------------------------------------------

  /** A part pays what its tokens sell for, or its loan's debt if that is less. */
  predicate PricedInFull(loan: LoanState, m: Measurement, terms: ConversionTerms, rate: int, now: int, i: nat)
    requires m.For(|m.plan|) && i < |m.plan|
  {
    var net := m.plan[i].take * rate * (10_000 - terms.spreadBps);
    && m.debts[i] == DebtNow(loan, now)
    && m.pays[i] == Min(net / 10_000_000_000_000_000, m.debts[i])
    && m.withheld[i] == (if m.pays[i] == 0 then 0 else m.plan[i].take)
  }

  lemma PartsArePriced(loans: seq<LoanState>, reward: RewardAccount, watch: u64, terms: ConversionTerms, rate: u64,
                       now: i64, m: Measurement, i: nat)
    requires terms.Accepted() && rate > 0 && Sweepable(loans, now) && i < |loans|
    requires Measure(loans, reward, watch, terms, rate, now) == Ok(m) && m.For(|loans|)
    ensures PricedInFull(loans[i], m, terms, rate, now, i)
  {
    MeasureSteps(loans, reward, watch, terms, rate, now, m);
    DebtsAreDebts(loans, now, i);
    DebtAtIsDebtNow(loans[i], now);
    PaysAreQuotes(m.plan, m.debts, terms, rate, i);
    QuoteInUnits(terms, m.plan[i].take, rate);
    DivUnique(m.plan[i].take * rate * (10_000 - terms.spreadBps), 10_000_000_000_000_000,
              terms.Quote(m.plan[i].take, rate).value);
  }

  /** A sale of `withheld` for `paid` falls short of the attested value by no more than the tolerance;
      in units of 10^-12 stablecoin and in basis points. */
  predicate WithinTolerance(withheld: int, paid: int, rate: int, maxSlippageBps: int) {
    (withheld * rate - paid * 1_000_000_000_000) * 10_000 <= maxSlippageBps * (withheld * rate)
  }

  predicate ShortfallFits(withheld: int, paid: int, rate: int) {
    (withheld * rate - paid * 1_000_000_000_000) * 10_000 <= U128_MAX
  }

  /** The sale as measured is made: something to sell, within the tolerance, affordable, and every
      settlement going through. */
  predicate Sells(b: Books, m: Measurement, terms: ConversionTerms, stable: nat, rate: int, now: i64)
    requires m.For(|b.loans|)
  {
    var withheld, paid := Total(m.withheld), Total(m.pays);
    && withheld > 0 && paid <= U64_MAX && paid <= stable
    && ShortfallFits(withheld, paid, rate) && WithinTolerance(withheld, paid, rate, terms.maxSlippageBps)
    && SettleFirst(b.(loans := m.loans), m, now, |b.loans|).Ok?
  }

  /** Nothing is sold: there is nothing to sell, or not within the tolerance. */
  predicate SellsNothing(m: Measurement, terms: ConversionTerms, rate: int) {
    var withheld, paid := Total(m.withheld), Total(m.pays);
    && paid <= U64_MAX
    && (withheld == 0
        || (ShortfallFits(withheld, paid, rate) && !WithinTolerance(withheld, paid, rate, terms.maxSlippageBps)))
  }

  lemma MeasuredSweep(b: Books, reward: RewardAccount, watch: u64, terms: ConversionTerms, stable: nat, rate: u64,
                      now: i64, m: Measurement)
    requires terms.Accepted() && rate > 0 && Measure(b.loans, reward, watch, terms, rate, now) == Ok(m)
    ensures m.For(|b.loans|)
    ensures Sweep(b, reward, watch, terms, stable, rate, now) == SweepMeasured(b, reward, m, terms, stable, rate, now)
  {
  }

  lemma {:induction false} PaysNotNegative(pays: seq<u64>)
    ensures Total(pays) >= 0
  {
    TotalOfNothing(pays, |pays|);
    assert pays[..|pays|] == pays;
  }

  lemma SoldExactly(b: Books, reward: RewardAccount, m: Measurement, terms: ConversionTerms, stable: nat, rate: u64,
                    now: i64)
    requires m.For(|b.loans|) && RestoredAll(m).Ok?
    requires 0 <= Total(m.withheld) <= reward.amount && Total(m.withheld) <= reward.Allowance()
    ensures var o := SweepMeasured(b, reward, m, terms, stable, rate, now);
            && (o.Ok? && o.value.sold <==> Sells(b, m, terms, stable, rate, now))
            && (o.Ok? && !o.value.sold <==> SellsNothing(m, terms, rate))
  {
    PaysNotNegative(m.pays);
    if Total(m.pays) <= U64_MAX {
      ToleranceIsExact(Total(m.withheld), rate, Total(m.pays), terms.maxSlippageBps);
    }
  }

  /** Once measured, a sweep sells exactly when the sale is within the tolerance, affordable and
      settles, and goes through without a sale exactly when there is nothing to sell or not within the
      tolerance; otherwise it is refused. */
  lemma SweepSellsExactly(b: Books, reward: RewardAccount, watch: u64, terms: ConversionTerms, stable: nat, rate: u64,
                          now: i64, m: Measurement)
    requires terms.Accepted() && rate > 0
    requires Measure(b.loans, reward, watch, terms, rate, now) == Ok(m) && m.For(|b.loans|)
    ensures var o := Sweep(b, reward, watch, terms, stable, rate, now);
            && (o.Ok? && o.value.sold <==> Sells(b, m, terms, stable, rate, now))
            && (o.Ok? && !o.value.sold <==> SellsNothing(m, terms, rate))
  {
    MeasurementTotals(b.loans, reward, watch, terms, rate, now);
    RestoringNeverFails(b.loans, reward, watch, terms, rate, now);
    MeasuredSweep(b, reward, watch, terms, stable, rate, now, m);
    SoldExactly(b, reward, m, terms, stable, rate, now);
  }

  /** No loan's part is worth more than its debt. */
  predicate Uncapped(m: Measurement, terms: ConversionTerms, rate: int)
    requires m.For(|m.plan|)
  {
    forall i :: 0 <= i < |m.plan| ==>
      m.plan[i].take * rate * (10_000 - terms.spreadBps) / 10_000_000_000_000_000 <= m.debts[i]
  }

  /** `pays` is the worth of `withheld` at the price, less than one unit off. */
  predicate AtPrice(withheld: int, pays: int, price: int, parts: int) {
    withheld * price <= (pays + parts) * 10_000_000_000_000_000
  }

  lemma AddAtPrice(w: int, x: int, p: int, q: int, price: int, parts: int)
    requires AtPrice(w, p, price, parts) && AtPrice(x, q, price, 1)
    ensures AtPrice(w + x, p + q, price, parts + 1)
  {
    assert (w + x) * price == w * price + x * price;
  }

  lemma {:induction false} UncappedTotals(m: Measurement, price: int, n: nat)
    requires m.For(|m.plan|) && n <= |m.plan|
    requires forall i :: 0 <= i < |m.plan| ==> AtPrice(m.withheld[i], m.pays[i], price, 1)
    ensures AtPrice(Total(m.withheld[..n]), Total(m.pays[..n]), price, n)
  {
    if n == 0 {
    } else {
      UncappedTotals(m, price, n - 1);
      TotalStep(m.withheld, n - 1);
      TotalStep(m.pays, n - 1);
      AddAtPrice(Total(m.withheld[..n - 1]), m.withheld[n - 1], Total(m.pays[..n - 1]), m.pays[n - 1], price, n - 1);
    }
  }

  lemma PartAtPrice(take: nat, withheld: nat, pays: nat, rate: nat, spread: nat)
    requires spread < 10_000 && pays == take * rate * (10_000 - spread) / 10_000_000_000_000_000
    requires withheld == if pays == 0 then 0 else take
    ensures AtPrice(withheld, pays, rate * (10_000 - spread), 1)
  {
    DivBounds(take * rate * (10_000 - spread), 10_000_000_000_000_000);
    assert take * rate * (10_000 - spread) == take * (rate * (10_000 - spread));
  }

  predicate AllPriced(loans: seq<LoanState>, m: Measurement, terms: ConversionTerms, rate: int, now: int)
    requires m.For(|loans|)
  {
    forall i :: 0 <= i < |loans| ==> PricedInFull(loans[i], m, terms, rate, now, i)
  }

  lemma MeasuredArePriced(loans: seq<LoanState>, reward: RewardAccount, watch: u64, terms: ConversionTerms, rate: u64,
                          now: i64, m: Measurement)
    requires terms.Accepted() && rate > 0 && Sweepable(loans, now)
    requires Measure(loans, reward, watch, terms, rate, now) == Ok(m) && m.For(|loans|)
    ensures AllPriced(loans, m, terms, rate, now)
  {
    forall i | 0 <= i < |loans| ensures PricedInFull(loans[i], m, terms, rate, now, i) {
      PartsArePriced(loans, reward, watch, terms, rate, now, m, i);
    }
  }

  lemma UncappedAtPrice(loans: seq<LoanState>, terms: ConversionTerms, rate: u64, now: i64, m: Measurement)
    requires terms.Accepted() && m.For(|loans|) && Uncapped(m, terms, rate) && AllPriced(loans, m, terms, rate, now)
    ensures AtPrice(Total(m.withheld), Total(m.pays), rate * (10_000 - terms.spreadBps), |loans|)
  {
    var n, price := |loans|, rate * (10_000 - terms.spreadBps);
    forall i | 0 <= i < n ensures AtPrice(m.withheld[i], m.pays[i], price, 1) {
      assert PricedInFull(loans[i], m, terms, rate, now, i);
      PartAtPrice(m.plan[i].take, m.withheld[i], m.pays[i], rate, terms.spreadBps);
    }
    UncappedTotals(m, price, n);
    assert m.withheld[..n] == m.withheld && m.pays[..n] == m.pays;
  }

  /** What the tolerance leaves over the vault's spread covers the rounding of one unit per loan. */
  predicate RoundingFits(withheld: int, rate: int, terms: ConversionTerms, loans: nat) {
    && terms.spreadBps <= terms.maxSlippageBps
    && (terms.maxSlippageBps - terms.spreadBps) * (withheld * rate) >= loans * 10_000_000_000_000_000
    && withheld * rate * terms.spreadBps + loans * 10_000_000_000_000_000 <= U128_MAX
  }

  /** What a sale at the vault's price may lose: the spread, and less than one unit a loan. */
  lemma UncappedShortfall(withheld: int, paid: int, rate: int, terms: ConversionTerms, loans: nat)
    requires AtPrice(withheld, paid, rate * (10_000 - terms.spreadBps), loans)
    requires RoundingFits(withheld, rate, terms, loans)
    ensures ShortfallFits(withheld, paid, rate) && WithinTolerance(withheld, paid, rate, terms.maxSlippageBps)
  {
    var value, spread := withheld * rate, terms.spreadBps;
    assert withheld * (rate * (10_000 - spread)) == value * 10_000 - value * spread;
    assert (terms.maxSlippageBps - spread) * value == terms.maxSlippageBps * value - value * spread;
  }

  /** A sweep none of whose parts is capped by its debt sells once it is affordable and settles, if the
      vault's spread is within the tolerance by enough to cover the rounding. */
  lemma {:induction false} UncappedSweepSells(b: Books, reward: RewardAccount, watch: u64, terms: ConversionTerms,
                                              stable: nat, rate: u64, now: i64, m: Measurement)
    requires terms.Accepted() && rate > 0 && Sweepable(b.loans, now)
    requires Measure(b.loans, reward, watch, terms, rate, now) == Ok(m) && m.For(|b.loans|)
    requires Uncapped(m, terms, rate) && 0 < Total(m.withheld)
    requires RoundingFits(Total(m.withheld), rate, terms, |b.loans|)
    requires Total(m.pays) <= stable && Total(m.pays) <= U64_MAX
    requires SettleFirst(b.(loans := m.loans), m, now, |b.loans|).Ok?
    ensures var o := Sweep(b, reward, watch, terms, stable, rate, now); o.Ok? && o.value.sold
  {
    assert Sells(b, m, terms, stable, rate, now) by {
      MeasuredArePriced(b.loans, reward, watch, terms, rate, now, m);
      UncappedAtPrice(b.loans, terms, rate, now, m);
      UncappedShortfall(Total(m.withheld), Total(m.pays), rate, terms, |b.loans|);
    }
    SweepSellsExactly(b, reward, watch, terms, stable, rate, now, m);
  }
}
