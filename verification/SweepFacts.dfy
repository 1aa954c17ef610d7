/** What a sweep guarantees: its one transfer balances the settlements, nobody overpays, a skipped
    sweep changes no debt, and no token is withheld beyond what a payout owes. */
module SweepFacts {
  import opened Outcomes
  import opened Numbers
  import opened Sums
  import opened Loans
  import opened Settlement
  import opened SharePrice
  import opened Conversions
  import opened Withholdings
  import opened Sweeping

  predicate Sweepable(loans: seq<LoanState>, now: int) {
    forall i :: 0 <= i < |loans| ==> loans[i].IsOpen() && loans[i].WellFormed(now)
  }

  // ----- Measuring --------------------------------------------------------------------------

  lemma DebtAtIsDebtNow(loan: LoanState, now: i64)
    requires loan.WellFormed(now) && loan.IsOpen() && DebtAt(loan, now).Ok?
    ensures DebtAt(loan, now).value == DebtNow(loan, now) > 0
  {
    UnbookedGrows(loan, loan.lastAccrualAt, now);
    DivAtLeast(loan.Unbooked(now), ACCRUAL_DENOMINATOR, 0);
    AccrualLosesNothing(loan, now);
    DivUnique(loan.Unbooked(now), ACCRUAL_DENOMINATOR, loan.Accrue(now).value.1);
  }

  lemma {:induction false} DebtsAreDebts(loans: seq<LoanState>, now: i64, i: nat)
    requires DebtsAt(loans, now).Ok? && i < |loans|
    ensures DebtAt(loans[i], now) == Ok(DebtsAt(loans, now).value[i])
  {
    if i == |loans| - 1 {
    } else {
      DebtsAreDebts(loans[..|loans| - 1], now, i);
    }
  }

  lemma {:induction false} PaysAreQuotes(plan: seq<Withholding>, debts: seq<u64>, terms: ConversionTerms, rate: u64,
                                         i: nat)
    requires |debts| == |plan| && terms.Accepted() && PaysFor(plan, debts, terms, rate).Ok? && i < |plan|
    ensures terms.Quote(plan[i].take, rate).Ok?
    ensures PaysFor(plan, debts, terms, rate).value[i] == Min(terms.Quote(plan[i].take, rate).value, debts[i])
  {
    var n := |plan| - 1;
    if i == n {
    } else {
      PaysAreQuotes(plan[..n], debts[..n], terms, rate, i);
    }
  }

  /** One loan's part of the measurement: it pays no more than the loan's debt at this second, a
      loan given less than it is owed pays less than its debt, and what it is owed is within what
      was due and its agreed share of the payout. */
  predicate PartHolds(loan: LoanState, payout: u64, m: Measurement, i: nat, now: int)
    requires m.For(|m.plan|) && i < |m.plan|
  {
    var part := m.plan[i];
    && m.debts[i] == DebtNow(loan, now)
    && m.pays[i] <= m.debts[i]
    && part.take <= part.owed <= loan.rewardDue + payout * loan.sweepBps / BPS
    && (part.take < part.owed ==> m.pays[i] < m.debts[i])
    && m.withheld[i] == (if m.pays[i] == 0 then 0 else part.take)
    && m.loans[i] == loan.(rewardDue := part.owed - part.take, manualRepayment := m.loans[i].manualRepayment)
    && (part.take < part.owed ==> m.loans[i].manualRepayment.Some?)
  }

  /** One loan's part, from what its claim was fairly owed and what its tokens sell for. */
  lemma PartFromClaim(loan: LoanState, payout: u64, m: Measurement, i: nat, now: int, claim: Claim,
                      terms: ConversionTerms, rate: u64, reason: ManualReason)
    requires m.For(|m.plan|) && i < |m.plan| && terms.Accepted() && rate > 0 && loan.WellFormed(now)
    requires claim == ClaimOf(loan, m.debts[i], terms, rate) && m.debts[i] == DebtNow(loan, now)
    requires m.plan[i].take <= m.plan[i].owed <= claim.need
    requires m.plan[i].owed <= Earlier(StakeOf(payout, claim)) + Share(payout, claim)
    requires terms.Quote(m.plan[i].take, rate).Ok?
    requires m.pays[i] == Min(terms.Quote(m.plan[i].take, rate).value, m.debts[i])
    requires m.withheld[i] == (if m.pays[i] == 0 then 0 else m.plan[i].take)
    requires m.loans[i] == Measured(loan, m.plan[i], reason)
    ensures PartHolds(loan, payout, m, i, now)
  {
    ShareIsExact(payout, claim);
    if m.plan[i].take < m.plan[i].owed {
      ShortTakeLeavesDebt(terms, m.plan[i].take, m.debts[i], rate);
    }
  }

  /** What a measurement is made of. */
  predicate MeasuredFrom(loans: seq<LoanState>, payout: u64, available: u64, terms: ConversionTerms, rate: u64,
                         now: i64,
                         m: Measurement)
    requires terms.Accepted() && rate > 0 && m.For(|loans|)
  {
    && DebtsAt(loans, now) == Ok(m.debts)
    && m.plan == Plan(payout, available, ClaimsOf(loans, m.debts, terms, rate))
    && PaysFor(m.plan, m.debts, terms, rate) == Ok(m.pays)
    && m.withheld == WithheldOf(m.plan, m.pays)
  }

  lemma MeasureSteps(loans: seq<LoanState>, reward: RewardAccount, watch: u64, terms: ConversionTerms, rate: u64,
                     now: i64, m: Measurement)
    requires terms.Accepted() && rate > 0 && Measure(loans, reward, watch, terms, rate, now) == Ok(m)
    ensures m.For(|loans|)
    ensures MeasuredFrom(loans, Payout(reward, watch), Min(reward.amount, reward.Allowance()), terms, rate, now, m)
    ensures m.loans == MeasuredAll(loans, m.plan, reward.Shortfall())
  {
  }

  lemma FairlyMeasured(loans: seq<LoanState>, payout: u64, available: u64, terms: ConversionTerms, rate: u64, now: i64,
                       m: Measurement, i: nat)
    requires terms.Accepted() && rate > 0 && m.For(|loans|) && i < |loans|
    requires MeasuredFrom(loans, payout, available, terms, rate, now, m)
    ensures var claim := ClaimOf(loans[i], m.debts[i], terms, rate);
            && m.plan[i].take <= m.plan[i].owed <= claim.need
            && m.plan[i].owed <= Earlier(StakeOf(payout, claim)) + Share(payout, claim)
  {
    SplitIsFair(payout, available, StakesOf(payout, ClaimsOf(loans, m.debts, terms, rate)), i);
  }

  lemma PartsHold(loans: seq<LoanState>, reward: RewardAccount, watch: u64, terms: ConversionTerms, rate: u64, now: i64,
                  m: Measurement, i: nat)
    requires terms.Accepted() && rate > 0 && Sweepable(loans, now) && i < |loans|
    requires Measure(loans, reward, watch, terms, rate, now) == Ok(m)
    ensures m.For(|loans|) && PartHolds(loans[i], Payout(reward, watch), m, i, now)
  {
    MeasureSteps(loans, reward, watch, terms, rate, now, m);
    PartHoldsFrom(loans, Payout(reward, watch), Min(reward.amount, reward.Allowance()), terms, rate, now, m,
                  reward.Shortfall(), i);
  }

  lemma PartHoldsFrom(loans: seq<LoanState>, payout: u64, available: u64, terms: ConversionTerms, rate: u64, now: i64,
                      m: Measurement, reason: ManualReason, i: nat)
    requires terms.Accepted() && rate > 0 && Sweepable(loans, now) && m.For(|loans|) && i < |loans|
    requires MeasuredFrom(loans, payout, available, terms, rate, now, m)
    requires m.loans == MeasuredAll(loans, m.plan, reason)
    ensures PartHolds(loans[i], payout, m, i, now)
  {
    DebtsAreDebts(loans, now, i);
    DebtAtIsDebtNow(loans[i], now);
    PaysAreQuotes(m.plan, m.debts, terms, rate, i);
    FairlyMeasured(loans, payout, available, terms, rate, now, m, i);
    PartFromClaim(loans[i], payout, m, i, now, ClaimOf(loans[i], m.debts[i], terms, rate), terms, rate, reason);
  }

  function RewardDue(l: LoanState): int { l.rewardDue }

  lemma DuesAgree(loans: seq<LoanState>, stakes: seq<Stake>, n: nat)
    requires |stakes| == |loans| && n <= |loans| && forall i :: 0 <= i < |loans| ==> stakes[i].due == loans[i].rewardDue
    ensures Sum(stakes[..n], Due) == Sum(loans[..n], RewardDue)
  {
    if n == 0 {
    } else {
      DuesAgree(loans, stakes, n - 1);
      SumStep(stakes, n - 1, Due);
      SumStep(loans, n - 1, RewardDue);
    }
  }

  lemma WithheldWithinTakes(plan: seq<Withholding>, pays: seq<u64>, n: nat)
    requires |pays| == |plan| && n <= |plan|
    ensures 0 <= Total(WithheldOf(plan, pays)[..n]) <= Sum(plan[..n], Take)
  {
    if n == 0 {
    } else {
      WithheldWithinTakes(plan, pays, n - 1);
      var withheld := WithheldOf(plan, pays);
      TotalStep(withheld, n - 1);
      SumStep(plan, n - 1, Take);
    }
  }

  lemma {:induction false} OwedWithin(loans: seq<LoanState>, payout: u64, available: u64, claims: seq<Claim>,
                                      plan: seq<Withholding>)
    requires |claims| == |loans| && (forall i :: 0 <= i < |loans| ==> claims[i].due == loans[i].rewardDue)
    requires plan == Plan(payout, available, claims)
    ensures Sum(plan, Owed) <= payout + Sum(loans, RewardDue) && Sum(plan, Take) <= available
  {
    var stakes := StakesOf(payout, claims);
    SplitWithin(payout, available, stakes);
    DuesAgree(loans, stakes, |loans|);
    assert stakes[..|loans|] == stakes && loans[..|loans|] == loans;
  }

  lemma {:induction false} WithheldWithin(plan: seq<Withholding>, pays: seq<u64>)
    requires |pays| == |plan|
    ensures 0 <= Total(WithheldOf(plan, pays)) <= Sum(plan, Take)
  {
    WithheldWithinTakes(plan, pays, |plan|);
    assert WithheldOf(plan, pays)[..|plan|] == WithheldOf(plan, pays) && plan[..|plan|] == plan;
  }

  /** Over all the loans: what is owed is within the payout and what was due, and what is
      withheld is within the account and the allowance. */
  lemma {:induction false} MeasurementTotals(loans: seq<LoanState>, reward: RewardAccount, watch: u64,
                                             terms: ConversionTerms, rate: u64, now: i64)
    requires terms.Accepted() && rate > 0 && Measure(loans, reward, watch, terms, rate, now).Ok?
    ensures var m := Measure(loans, reward, watch, terms, rate, now).value;
            && Sum(m.plan, Owed) <= Payout(reward, watch) + Sum(loans, RewardDue)
            && Total(m.withheld) <= Sum(m.plan, Take)
            && 0 <= Total(m.withheld) <= reward.amount && Total(m.withheld) <= reward.Allowance()
  {
    var m := Measure(loans, reward, watch, terms, rate, now).value;
    MeasureSteps(loans, reward, watch, terms, rate, now, m);
    OwedWithin(loans, Payout(reward, watch), Min(reward.amount, reward.Allowance()),
               ClaimsOf(loans, m.debts, terms, rate), m.plan);
    WithheldWithin(m.plan, m.pays);
  }

  // ----- Settling ---------------------------------------------------------------------------

  /** Where loan `i` ends once settled: untouched if its part paid nothing, otherwise its debt at
      this second less what its part paid. */
  predicate SettledTo(l: LoanState, after: LoanState, m: Measurement, i: nat, now: int)
    requires m.For(|m.plan|) && i < |m.plan|
  {
    if m.pays[i] == 0 then after == l
    else LoanPaid(Eased(l, m, i), after, m.pays[i], now)
  }

  lemma EasedIsSame(loan: LoanState, m: Measurement, i: nat, now: int)
    requires m.For(|m.plan|) && i < |m.plan|
    ensures var e := Eased(loan, m, i);
            && Outstanding(e) == Outstanding(loan) && Accrued(e) == Accrued(loan) && Debt(e) == Debt(loan)
            && RateOf(e) == RateOf(loan) && RateTimeOf(e) == RateTimeOf(loan) && RemainderOf(e) == RemainderOf(loan)
            && OpenCount(e) == OpenCount(loan) && DebtNow(e, now) == DebtNow(loan, now)
            && (loan.IsOpen() && loan.WellFormed(now) ==> e.WellFormed(now))
  {
  }

  lemma FollowEased(b: Books, c: Books, m: Measurement, k: nat, before: int, d: Books, paid: int)
    requires m.For(|b.loans|) && k < |b.loans| == |c.loans| == |d.loans|
    requires BooksFollow(b, c, before)
    requires d.loans == c.loans[k := d.loans[k]]
    requires PoolFollows(c.pool, d.pool, Eased(c.loans[k], m, k), d.loans[k], paid)
    requires AccountFollows(c.account, d.account, Eased(c.loans[k], m, k), d.loans[k])
    ensures BooksFollow(b, d, before + paid)
  {
    EasedIsSame(c.loans[k], m, k, 0);
    FollowOne(b, c, k, before, paid, d);
  }

  /** One more loan settled after others. */
  lemma SettlePartFollows(b: Books, c: Books, m: Measurement, now: i64, k: nat, before: int)
    requires m.For(|b.loans|) && k < |b.loans| == |c.loans|
    requires c.loans[k].IsOpen() && c.loans[k].WellFormed(now) && BooksFollow(b, c, before)
    requires m.pays[k] <= DebtNow(c.loans[k], now) && SettlePart(c, m, now, k).Ok?
    ensures var d := SettlePart(c, m, now, k).value;
            && SettledTo(c.loans[k], d.loans[k], m, k, now)
            && d.loans == c.loans[k := d.loans[k]]
            && BooksFollow(b, d, before + m.pays[k])
  {
    if m.pays[k] > 0 {
      var eased := Eased(c.loans[k], m, k);
      EasedIsSame(c.loans[k], m, k, now);
      SettleMoves(c.pool, c.account, eased, now, m.pays[k]);
      FollowEased(b, c, m, k, before, SettlePart(c, m, now, k).value, m.pays[k]);
    }
  }

  /** The first `n` loans are settled, the others as they were. */
  predicate SettledFirst(b: Books, c: Books, m: Measurement, now: int, n: nat)
    requires m.For(|b.loans|) && n <= |b.loans| == |c.loans|
  {
    && (forall i :: 0 <= i < n ==> SettledTo(b.loans[i], c.loans[i], m, i, now))
    && (forall i :: n <= i < |b.loans| ==> c.loans[i] == b.loans[i])
  }

  lemma SettledNext(b: Books, c: Books, d: Books, m: Measurement, now: int, k: nat)
    requires m.For(|b.loans|) && k < |b.loans| == |c.loans| == |d.loans|
    requires SettledFirst(b, c, m, now, k) && d.loans == c.loans[k := d.loans[k]]
    requires SettledTo(c.loans[k], d.loans[k], m, k, now)
    ensures SettledFirst(b, d, m, now, k + 1)
  {
    forall i | 0 <= i < k + 1 ensures SettledTo(b.loans[i], d.loans[i], m, i, now) {
      assert i < k ==> SettledTo(b.loans[i], c.loans[i], m, i, now);
    }
  }

  lemma SettleNextFollows(b: Books, c: Books, m: Measurement, now: i64, k: nat)
    requires m.For(|b.loans|) && k < |b.loans| == |c.loans| && Sweepable(b.loans, now)
    requires m.pays[k] <= DebtNow(b.loans[k], now) && SettlePart(c, m, now, k).Ok?
    requires BooksFollow(b, c, Total(m.pays[..k])) && SettledFirst(b, c, m, now, k)
    ensures var d := SettlePart(c, m, now, k).value;
            BooksFollow(b, d, Total(m.pays[..k + 1])) && SettledFirst(b, d, m, now, k + 1)
  {
    TotalStep(m.pays, k);
    assert c.loans[k] == b.loans[k];
    SettlePartFollows(b, c, m, now, k, Total(m.pays[..k]));
    SettledNext(b, c, SettlePart(c, m, now, k).value, m, now, k);
  }

  lemma {:induction false} SettleFirstFollows(b: Books, m: Measurement, now: i64, n: nat)
    requires m.For(|b.loans|) && n <= |b.loans| && Sweepable(b.loans, now)
    requires forall i :: 0 <= i < |b.loans| ==> m.pays[i] <= DebtNow(b.loans[i], now)
    requires SettleFirst(b, m, now, n).Ok?
    ensures var c := SettleFirst(b, m, now, n).value;
            BooksFollow(b, c, Total(m.pays[..n])) && SettledFirst(b, c, m, now, n)
  {
    if n == 0 {
    } else {
      SettleFirstFollows(b, m, now, n - 1);
      SettleNextFollows(b, SettleFirst(b, m, now, n - 1).value, m, now, n - 1);
    }
  }

  lemma SettlePartLeavesOthers(c: Books, m: Measurement, now: i64, k: nat)
    requires m.For(|c.loans|) && k < |c.loans| && SettlePart(c, m, now, k).Ok?
    ensures SettlePart(c, m, now, k).value.loans[k + 1..] == c.loans[k + 1..]
  {
  }

  lemma {:induction false} SettleFirstLeavesRest(b: Books, m: Measurement, now: i64, n: nat)
    requires m.For(|b.loans|) && n <= |b.loans| && SettleFirst(b, m, now, n).Ok?
    ensures SettleFirst(b, m, now, n).value.loans[n..] == b.loans[n..]
  {
    if n == 0 {
    } else {
      SettleFirstLeavesRest(b, m, now, n - 1);
      SettlePartLeavesOthers(SettleFirst(b, m, now, n - 1).value, m, now, n - 1);
      DropOneMore(SettleFirst(b, m, now, n - 1).value.loans, b.loans, n - 1);
    }
  }

  lemma DropOneMore(xs: seq<LoanState>, ys: seq<LoanState>, k: nat)
    requires k < |xs| == |ys| && xs[k..] == ys[k..]
    ensures xs[k + 1..] == ys[k + 1..]
  {
    assert xs[k + 1..] == xs[k..][1..] && ys[k + 1..] == ys[k..][1..];
  }

  lemma {:induction false} SettleFirstKeepsValue(b: Books, m: Measurement, now: i64, n: nat)
    requires m.For(|b.loans|) && n <= |b.loans| && Sweepable(b.loans, now)
    requires forall i :: 0 <= i < |b.loans| ==> m.pays[i] <= DebtNow(b.loans[i], now)
    requires SettleFirst(b, m, now, n).Ok?
    ensures ClosingKeptValue(b, SettleFirst(b, m, now, n).value, now)
  {
    if n == 0 {
      ValueKeptHere(b.pool, now);
    } else {
      var k := n - 1;
      var c := SettleFirst(b, m, now, k).value;
      SettleFirstLeavesRest(b, m, now, k);
      assert c.loans[k] == c.loans[k..][0] == b.loans[k];
      SettleFirstKeepsValue(b, m, now, k);
      SettlePartKeepsValue(c, m, now, k);
      ClosingKeptTwice(b, c, SettlePart(c, m, now, k).value, now);
    }
  }

  /** From `b` to `c` the pool lost no more than the fractions of the loans that closed. */
  predicate ClosingKeptValue(b: Books, c: Books, now: int) {
    ValueKept(b.pool, c.pool, now, Sum(b.loans, OpenCount) - Sum(c.loans, OpenCount))
  }

  lemma ClosingKeptTwice(b: Books, c: Books, d: Books, now: int)
    requires ClosingKeptValue(b, c, now) && ClosingKeptValue(c, d, now)
    ensures ClosingKeptValue(b, d, now)
  {
    ValueKeptTwice(b.pool, c.pool, d.pool, now, Sum(b.loans, OpenCount) - Sum(c.loans, OpenCount),
                   Sum(c.loans, OpenCount) - Sum(d.loans, OpenCount));
  }

  lemma SettlePartKeepsValue(c: Books, m: Measurement, now: i64, k: nat)
    requires m.For(|c.loans|) && k < |c.loans| && c.loans[k].IsOpen() && c.loans[k].WellFormed(now)
    requires m.pays[k] <= DebtNow(c.loans[k], now) && SettlePart(c, m, now, k).Ok?
    ensures ClosingKeptValue(c, SettlePart(c, m, now, k).value, now)
  {
    if m.pays[k] > 0 {
      var eased := Eased(c.loans[k], m, k);
      EasedIsSame(c.loans[k], m, k, now);
      var s := Settle(c.pool, c.account, eased, now, m.pays[k]).value;
      SumUpdate(c.loans, k, s.loan, OpenCount);
      assert Sum(c.loans, OpenCount) - Sum(c.loans[k := s.loan], OpenCount) == OpenCount(eased) - OpenCount(s.loan);
      SettleKeepsValue(c.pool, c.account, eased, now, m.pays[k]);
    } else {
      ValueKeptHere(c.pool, now);
    }
  }

  // ----- The whole sweep --------------------------------------------------------------------

  /** What a sweep leaves of one loan. Tokens taken for it and what is still due to it are within
      what it was owed, which is within what was due and its agreed share of the payout. If the
      sale went through it paid what its tokens sold for, and it closed exactly if that was its
      debt; a loan given less than it was owed stays open and flagged. If not, no debt moved, and
      tokens that were to be sold are due again. */
  predicate LoanSwept(l: LoanState, o: Swept, i: nat, payout: u64, now: int)
    requires o.measured.For(|o.measured.plan|) && i < |o.measured.plan| == |o.books.loans|
  {
    var part, pays, after := o.measured.plan[i], o.measured.pays[i], o.books.loans[i];
    && after.WellFormed(now) && SameLoan(l, after)
    && part.take <= part.owed <= l.rewardDue + payout * l.sweepBps / BPS
    && o.measured.withheld[i] == (if pays == 0 then 0 else part.take)
    && after.rewardDue == (if !o.sold then part.owed - part.take + o.measured.withheld[i]
                           else if after.IsOpen() then part.owed - part.take else 0)
    && pays <= DebtNow(l, now)
    && (part.take < part.owed ==> after.IsOpen() && after.manualRepayment.Some?)
    && (if o.sold && pays > 0
        then after.Debt() == DebtNow(l, now) - pays && (after.IsOpen() <==> pays < DebtNow(l, now))
        else SameMoney(l, after))
  }

  predicate LoansSwept(loans: seq<LoanState>, o: Swept, payout: u64, now: int) {
    && o.measured.For(|loans|) && |o.books.loans| == |loans|
    && forall i :: 0 <= i < |loans| ==> LoanSwept(loans[i], o, i, payout, now)
  }

  /** The rewards that left the account are within the allowance and come off it, a delegate left with
      nothing is dropped, and the watch stands on what is left. Nothing at all moved unless the sale
      went through. */
  predicate AccountSwept(b: Books, reward: RewardAccount, o: Swept) {
    && o.watch == o.reward.amount == reward.amount - o.withheld
    && (if o.withheld == 0 then o.reward.delegated == reward.delegated
        else && reward.delegated.Some?
             && o.reward.delegated
                == if reward.delegated.value == o.withheld then None else Some(reward.delegated.value - o.withheld))
    && o.withheld <= reward.Allowance()
    && (!o.sold ==> o.withheld == o.paid == 0 && o.reward == reward && o.books == b.(loans := o.books.loans))
  }

  /** Tokens taken and tokens left due are within the payout and what was due before it. */
  predicate DuesHold(loans: seq<LoanState>, o: Swept, payout: int) {
    o.withheld + Sum(o.books.loans, RewardDue) <= payout + Sum(loans, RewardDue)
  }

  /** The loans are credited at least their tolerated share of the attested value of all that was
      withheld. */
  predicate FairlySold(o: Swept, terms: ConversionTerms, rate: u64) {
    o.paid * 10_000_000_000_000_000 >= (10_000 - terms.maxSlippageBps) * (o.withheld * rate)
  }

  /** What every sweep guarantees. BooksFollow says the one stablecoin transfer, o.paid, is exactly
      what the settlements booked. */
  predicate SweepHolds(b: Books, reward: RewardAccount, watch: u64, terms: ConversionTerms, rate: u64, o: Swept,
                       now: int) {
    && LoansSwept(b.loans, o, Payout(reward, watch), now)
    && AccountSwept(b, reward, o)
    && BooksFollow(b, o.books, o.paid)
    && DuesHold(b.loans, o, Payout(reward, watch))
    && ClosingKeptValue(b, o.books, now)
    && FairlySold(o, terms, rate)
  }

  lemma MeasuredLoan(l: LoanState, payout: u64, m: Measurement, i: nat, now: int)
    requires m.For(|m.plan|) && i < |m.plan| && l.IsOpen() && l.WellFormed(now) && PartHolds(l, payout, m, i, now)
    ensures SameMoney(l, m.loans[i]) && m.loans[i].IsOpen() && m.loans[i].WellFormed(now)
    ensures DebtNow(m.loans[i], now) == DebtNow(l, now)
  {
  }

  /** A loan not touched by a sale. */
  lemma UnsoldLoan(l: LoanState, o: Swept, i: nat, payout: u64, now: int)
    requires o.measured.For(|o.measured.plan|) && i < |o.measured.plan| == |o.books.loans|
    requires l.IsOpen() && l.WellFormed(now) && PartHolds(l, payout, o.measured, i, now) && !o.sold
    requires o.books.loans[i] == o.measured.loans[i].(rewardDue := o.books.loans[i].rewardDue)
    requires o.books.loans[i].rewardDue == o.measured.loans[i].rewardDue + o.measured.withheld[i]
    ensures LoanSwept(l, o, i, payout, now)
  {
  }

  /** A loan settled by a sale; `settled` is the loan before the allowance is looked at. */
  lemma SoldLoan(l: LoanState, settled: LoanState, o: Swept, i: nat, payout: u64, now: int)
    requires o.measured.For(|o.measured.plan|) && i < |o.measured.plan| == |o.books.loans|
    requires l.IsOpen() && l.WellFormed(now) && PartHolds(l, payout, o.measured, i, now) && o.sold
    requires SettledTo(o.measured.loans[i], settled, o.measured, i, now)
    requires o.books.loans[i] == settled || (settled.IsOpen() && o.books.loans[i] == settled.Flagged(AllowanceShort))
    ensures LoanSwept(l, o, i, payout, now)
  {
    MeasuredLoan(l, payout, o.measured, i, now);
    EasedIsSame(o.measured.loans[i], o.measured, i, now);
  }

  /** Tokens taken and tokens still due, over the first `n` loans, are within what those were owed. */
  lemma DuesWithinOwed(loans: seq<LoanState>, o: Swept, payout: u64, now: int, n: nat)
    requires LoansSwept(loans, o, payout, now) && n <= |loans|
    ensures (if o.sold then Total(o.measured.withheld[..n]) else 0) + Sum(o.books.loans[..n], RewardDue)
            <= Sum(o.measured.plan[..n], Owed)
  {
    if n == 0 {
    } else {
      var k := n - 1;
      DuesWithinOwed(loans, o, payout, now, k);
      TotalStep(o.measured.withheld, k);
      SumStep(o.books.loans, k, RewardDue);
      SumStep(o.measured.plan, k, Owed);
      assert LoanSwept(loans[k], o, k, payout, now);
    }
  }

  lemma BooksFollowSameMoney(b: Books, c: Books, paid: int, ms: seq<LoanState>, ls: seq<LoanState>)
    requires BooksFollow(b.(loans := ms), c, paid) && AllSameMoney(b.loans, ms) && AllSameMoney(c.loans, ls)
    ensures BooksFollow(b, c.(loans := ls), paid)
  {
    SameMoneySameSums(b.loans, ms);
    SameMoneySameSums(c.loans, ls);
  }

  lemma PartsHoldAll(loans: seq<LoanState>, reward: RewardAccount, watch: u64, terms: ConversionTerms, rate: u64,
                     now: i64)
    requires terms.Accepted() && rate > 0 && Sweepable(loans, now)
    requires Measure(loans, reward, watch, terms, rate, now).Ok?
    ensures var m := Measure(loans, reward, watch, terms, rate, now).value;
            && (forall i :: 0 <= i < |loans| ==> PartHolds(loans[i], Payout(reward, watch), m, i, now))
            && AllSameMoney(loans, m.loans) && Sweepable(m.loans, now)
            && (forall i :: 0 <= i < |loans| ==> m.pays[i] <= DebtNow(m.loans[i], now))
  {
    var m := Measure(loans, reward, watch, terms, rate, now).value;
    forall i | 0 <= i < |loans|
      ensures PartHolds(loans[i], Payout(reward, watch), m, i, now)
      ensures SameMoney(loans[i], m.loans[i]) && m.loans[i].IsOpen() && m.loans[i].WellFormed(now)
      ensures m.pays[i] <= DebtNow(m.loans[i], now)
    {
      PartsHold(loans, reward, watch, terms, rate, now, m, i);
      MeasuredLoan(loans[i], Payout(reward, watch), m, i, now);
    }
  }

  /** The measured loans, what was to be withheld put back. */
  predicate Unsold(m: Measurement, loans: seq<LoanState>)
    requires m.For(|loans|)
  {
    forall i :: 0 <= i < |loans| ==>
      && loans[i] == m.loans[i].(rewardDue := loans[i].rewardDue)
      && loans[i].rewardDue == m.loans[i].rewardDue + m.withheld[i]
  }

  lemma UnsoldLoans(loans: seq<LoanState>, reward: RewardAccount, watch: u64, terms: ConversionTerms, rate: u64,
                    o: Swept, now: i64)
    requires terms.Accepted() && rate > 0 && Sweepable(loans, now)
    requires Measure(loans, reward, watch, terms, rate, now) == Ok(o.measured)
    requires !o.sold && |o.books.loans| == |loans| && Unsold(o.measured, o.books.loans)
    ensures LoansSwept(loans, o, Payout(reward, watch), now) && AllSameMoney(loans, o.books.loans)
  {
    PartsHoldAll(loans, reward, watch, terms, rate, now);
    forall i | 0 <= i < |loans|
      ensures LoanSwept(loans[i], o, i, Payout(reward, watch), now) && SameMoney(loans[i], o.books.loans[i])
    {
      UnsoldLoan(loans[i], o, i, Payout(reward, watch), now);
    }
  }

  lemma UnsoldBooks(b: Books, loans: seq<LoanState>, now: int)
    requires AllSameMoney(b.loans, loans)
    ensures BooksFollow(b, b.(loans := loans), 0) && ClosingKeptValue(b, b.(loans := loans), now)
  {
    SameMoneySameSums(b.loans, loans);
    ValueKeptHere(b.pool, now);
  }

  /** The settled loans, those still open flagged if the allowance is gone. */
  predicate Exhausted(settled: seq<LoanState>, loans: seq<LoanState>, gone: bool) {
    && |settled| == |loans|
    && forall i :: 0 <= i < |loans| ==>
         loans[i] == if gone && settled[i].IsOpen() then settled[i].Flagged(AllowanceShort) else settled[i]
  }

  /** The sale took the last of the allowance. */
  predicate AllowanceGone(reward: RewardAccount, o: Swept) {
    reward.delegated.Some? && o.withheld == reward.Allowance()
  }

  lemma {:induction false} SoldLoans(b: Books, reward: RewardAccount, watch: u64, terms: ConversionTerms, rate: u64,
                                     o: Swept, c: Books, now: i64)
    requires terms.Accepted() && rate > 0 && Sweepable(b.loans, now)
    requires Measure(b.loans, reward, watch, terms, rate, now) == Ok(o.measured)
    requires SettleFirst(b.(loans := o.measured.loans), o.measured, now, |b.loans|) == Ok(c)
    requires o.sold && Exhausted(c.loans, o.books.loans, AllowanceGone(reward, o))
    ensures LoansSwept(b.loans, o, Payout(reward, watch), now)
  {
    PartsHoldAll(b.loans, reward, watch, terms, rate, now);
    SettleFirstFollows(b.(loans := o.measured.loans), o.measured, now, |b.loans|);
    forall i | 0 <= i < |b.loans| ensures LoanSwept(b.loans[i], o, i, Payout(reward, watch), now) {
      SoldLoan(b.loans[i], c.loans[i], o, i, Payout(reward, watch), now);
    }
  }

  lemma ClosingSameMoney(b: Books, ms: seq<LoanState>, c: Books, ls: seq<LoanState>, now: int)
    requires ClosingKeptValue(b.(loans := ms), c, now) && AllSameMoney(b.loans, ms) && AllSameMoney(c.loans, ls)
    ensures ClosingKeptValue(b, c.(loans := ls), now)
  {
    SameMoneySameSums(b.loans, ms);
    SameMoneySameSums(c.loans, ls);
  }

  lemma {:induction false} SoldBooks(b: Books, m: Measurement, c: Books, ls: seq<LoanState>, now: i64)
    requires m.For(|b.loans|) && AllSameMoney(b.loans, m.loans) && Sweepable(m.loans, now)
    requires forall i :: 0 <= i < |b.loans| ==> m.pays[i] <= DebtNow(m.loans[i], now)
    requires SettleFirst(b.(loans := m.loans), m, now, |b.loans|) == Ok(c) && AllSameMoney(c.loans, ls)
    ensures BooksFollow(b, c.(loans := ls), Total(m.pays)) && ClosingKeptValue(b, c.(loans := ls), now)
  {
    var start := b.(loans := m.loans);
    assert BooksFollow(b, c.(loans := ls), Total(m.pays)) by {
      SettleFirstFollows(start, m, now, |b.loans|);
      assert m.pays[..|b.loans|] == m.pays;
      BooksFollowSameMoney(b, c, Total(m.pays), m.loans, ls);
    }
    assert ClosingKeptValue(b, c.(loans := ls), now) by {
      SettleFirstKeepsValue(start, m, now, |b.loans|);
      ClosingSameMoney(b, m.loans, c, ls, now);
    }
  }

  lemma {:induction false} DuesFromTotals(loans: seq<LoanState>, o: Swept, payout: u64, now: int)
    requires LoansSwept(loans, o, payout, now) && Sum(o.measured.plan, Owed) <= payout + Sum(loans, RewardDue)
    requires o.withheld == if o.sold then Total(o.measured.withheld) else 0
    ensures DuesHold(loans, o, payout)
  {
    DuesWithinOwed(loans, o, payout, now, |loans|);
    var n := |loans|;
    assert o.measured.withheld[..n] == o.measured.withheld && o.measured.plan[..n] == o.measured.plan;
    assert o.books.loans[..n] == o.books.loans;
  }

  lemma DuesFromLoans(loans: seq<LoanState>, reward: RewardAccount, watch: u64, terms: ConversionTerms, rate: u64,
                      o: Swept, now: i64)
    requires terms.Accepted() && rate > 0
    requires Measure(loans, reward, watch, terms, rate, now) == Ok(o.measured)
    requires LoansSwept(loans, o, Payout(reward, watch), now)
    requires o.withheld == if o.sold then Total(o.measured.withheld) else 0
    ensures DuesHold(loans, o, Payout(reward, watch))
  {
    MeasurementTotals(loans, reward, watch, terms, rate, now);
    DuesFromTotals(loans, o, Payout(reward, watch), now);
  }

  /** What a sweep does once its parts are measured. */
  predicate SweptBy(b: Books, reward: RewardAccount, m: Measurement, terms: ConversionTerms, rate: u64, o: Swept,
                    now: i64)
    requires m.For(|b.loans|)
  {
    && o.measured == m
    && AccountSwept(b, reward, o)
    && o.withheld == (if o.sold then Total(m.withheld) else 0)
    && |o.books.loans| == |b.loans|
    && FairlySold(o, terms, rate)
    && (if o.sold then SoldBy(b, m, o, AllowanceGone(reward, o), now) else Unsold(m, o.books.loans))
  }

  /** A sale settles every part, then looks at what is left of the allowance. */
  predicate SoldBy(b: Books, m: Measurement, o: Swept, gone: bool, now: i64)
    requires m.For(|b.loans|)
  {
    && o.paid == Total(m.pays)
    && SettleFirst(b.(loans := m.loans), m, now, |b.loans|).Ok?
    && var c := SettleFirst(b.(loans := m.loans), m, now, |b.loans|).value;
       o.books == c.(loans := o.books.loans) && Exhausted(c.loans, o.books.loans, gone)
  }

  lemma LeaveSteps(b: Books, reward: RewardAccount, m: Measurement, terms: ConversionTerms, rate: u64,
                   loans: seq<LoanState>, now: i64)
    requires m.For(|b.loans|) && |loans| == |b.loans| && Unsold(m, loans)
    ensures SweptBy(b, reward, m, terms, rate, Leave(b, reward, m, loans), now)
  {
  }

  lemma TakenFromAllowance(reward: RewardAccount, taken: u64)
    requires 0 < taken <= reward.amount && taken <= reward.Allowance()
    ensures reward.delegated.Some?
    ensures reward.TakenFrom(taken)
         == RewardAccount(reward.amount - taken,
                          if reward.delegated.value == taken then None else Some(reward.delegated.value - taken))
  {
  }

  lemma SellSettles(b: Books, reward: RewardAccount, m: Measurement, withheld: u64, paid: u64, stable: nat, now: i64)
    requires m.For(|b.loans|) && paid == Total(m.pays) && Sell(b, reward, m, withheld, paid, stable, now).Ok?
    ensures var o := Sell(b, reward, m, withheld, paid, stable, now).value;
            && o.sold && o.measured == m && |o.books.loans| == |b.loans|
            && o.reward == reward.TakenFrom(withheld) && o.watch == reward.amount - withheld
            && o.withheld == withheld && o.paid == paid
            && SoldBy(b, m, o, reward.delegated.Some? && withheld == reward.Allowance(), now)
  {
  }

  lemma SellSteps(b: Books, reward: RewardAccount, m: Measurement, terms: ConversionTerms, rate: u64, stable: nat,
                  withheld: u64, paid: u64, now: i64)
    requires m.For(|b.loans|) && withheld == Total(m.withheld) > 0 && paid == Total(m.pays)
    requires Sell(b, reward, m, withheld, paid, stable, now).Ok?
    requires paid * 10_000_000_000_000_000 >= (10_000 - terms.maxSlippageBps) * (withheld * rate)
    ensures SweptBy(b, reward, m, terms, rate, Sell(b, reward, m, withheld, paid, stable, now).value, now)
  {
    var o := Sell(b, reward, m, withheld, paid, stable, now).value;
    TakenFromAllowance(reward, withheld);
    SellSettles(b, reward, m, withheld, paid, stable, now);
    assert AccountSwept(b, reward, o) && FairlySold(o, terms, rate);
  }

  lemma TotalOfNothing(xs: seq<u64>, n: nat)
    requires n <= |xs|
    ensures Total(xs[..n]) >= 0
    ensures Total(xs[..n]) == 0 ==> forall i :: 0 <= i < n ==> xs[i] == 0
  {
    if n == 0 {
    } else {
      TotalOfNothing(xs, n - 1);
      TotalStep(xs, n - 1);
    }
  }

  lemma SweepSteps(b: Books, reward: RewardAccount, m: Measurement, terms: ConversionTerms, stable: nat, rate: u64,
                   now: i64)
    requires m.For(|b.loans|) && SweepMeasured(b, reward, m, terms, stable, rate, now).Ok?
    ensures SweptBy(b, reward, m, terms, rate, SweepMeasured(b, reward, m, terms, stable, rate, now).value, now)
  {
    var withheld, paid := Total(m.withheld), Total(m.pays);
    if withheld == 0 {
      TotalOfNothing(m.withheld, |m.withheld|);
      assert m.withheld[..|m.withheld|] == m.withheld;
      LeaveSteps(b, reward, m, terms, rate, m.loans, now);
    } else if CheckConversion(withheld, rate, paid, terms.maxSlippageBps).value.withinTolerance {
      PassingPaysItsShare(withheld, rate, paid, terms.maxSlippageBps);
      SellSteps(b, reward, m, terms, rate, stable, withheld, paid, now);
    } else {
      LeaveSteps(b, reward, m, terms, rate, RestoredAll(m).value, now);
    }
  }

  /** What a sweep leaves of the loans, the books and the value. */
  predicate SweptWell(b: Books, o: Swept, payout: u64, now: int) {
    LoansSwept(b.loans, o, payout, now) && BooksFollow(b, o.books, o.paid) && ClosingKeptValue(b, o.books, now)
  }

  lemma ExhaustedSameMoney(settled: seq<LoanState>, loans: seq<LoanState>, gone: bool)
    requires Exhausted(settled, loans, gone)
    ensures AllSameMoney(settled, loans)
  {
    forall i | 0 <= i < |loans| ensures SameMoney(settled[i], loans[i]) {}
  }

  lemma {:induction false} SoldBooksFollow(b: Books, reward: RewardAccount, watch: u64, terms: ConversionTerms,
                                           rate: u64, m: Measurement, c: Books, ls: seq<LoanState>, now: i64)
    requires terms.Accepted() && rate > 0 && Sweepable(b.loans, now)
    requires Measure(b.loans, reward, watch, terms, rate, now) == Ok(m)
    requires SettleFirst(b.(loans := m.loans), m, now, |b.loans|) == Ok(c) && AllSameMoney(c.loans, ls)
    ensures BooksFollow(b, c.(loans := ls), Total(m.pays)) && ClosingKeptValue(b, c.(loans := ls), now)
  {
    PartsHoldAll(b.loans, reward, watch, terms, rate, now);
    SoldBooks(b, m, c, ls, now);
  }

  lemma SoldWell(b: Books, reward: RewardAccount, watch: u64, terms: ConversionTerms, rate: u64, o: Swept, now: i64)
    requires terms.Accepted() && rate > 0 && Sweepable(b.loans, now) && o.sold
    requires Measure(b.loans, reward, watch, terms, rate, now) == Ok(o.measured)
    requires SoldBy(b, o.measured, o, AllowanceGone(reward, o), now)
    ensures SweptWell(b, o, Payout(reward, watch), now)
  {
    var c := SettleFirst(b.(loans := o.measured.loans), o.measured, now, |b.loans|).value;
    SoldLoans(b, reward, watch, terms, rate, o, c, now);
    ExhaustedSameMoney(c.loans, o.books.loans, AllowanceGone(reward, o));
    SoldBooksFollow(b, reward, watch, terms, rate, o.measured, c, o.books.loans, now);
  }

  lemma UnsoldWell(b: Books, reward: RewardAccount, watch: u64, terms: ConversionTerms, rate: u64, o: Swept, now: i64)
    requires terms.Accepted() && rate > 0 && Sweepable(b.loans, now) && !o.sold && o.paid == 0
    requires Measure(b.loans, reward, watch, terms, rate, now) == Ok(o.measured)
    requires |o.books.loans| == |b.loans| && Unsold(o.measured, o.books.loans) && o.books == b.(loans := o.books.loans)
    ensures SweptWell(b, o, Payout(reward, watch), now)
  {
    UnsoldLoans(b.loans, reward, watch, terms, rate, o, now);
    UnsoldBooks(b, o.books.loans, now);
  }

  lemma SweptByHolds(b: Books, reward: RewardAccount, watch: u64, terms: ConversionTerms, rate: u64, o: Swept, now: i64)
    requires terms.Accepted() && rate > 0 && Sweepable(b.loans, now)
    requires Measure(b.loans, reward, watch, terms, rate, now) == Ok(o.measured)
    requires SweptBy(b, reward, o.measured, terms, rate, o, now)
    ensures SweepHolds(b, reward, watch, terms, rate, o, now)
  {
    assert SweptWell(b, o, Payout(reward, watch), now) by {
      if o.sold {
        SoldWell(b, reward, watch, terms, rate, o, now);
      } else {
        UnsoldWell(b, reward, watch, terms, rate, o, now);
      }
    }
    DuesFromLoans(b.loans, reward, watch, terms, rate, o, now);
  }

  lemma SweepKeeps(b: Books, reward: RewardAccount, watch: u64, terms: ConversionTerms, stable: nat, rate: u64,
                   now: i64)
    requires terms.Accepted() && rate > 0 && Sweepable(b.loans, now)
    requires Sweep(b, reward, watch, terms, stable, rate, now).Ok?
    ensures SweepHolds(b, reward, watch, terms, rate, Sweep(b, reward, watch, terms, stable, rate, now).value, now)
  {
    var m := Measure(b.loans, reward, watch, terms, rate, now).value;
    SweepSteps(b, reward, m, terms, stable, rate, now);
    SweptByHolds(b, reward, watch, terms, rate, Sweep(b, reward, watch, terms, stable, rate, now).value, now);
  }

  /** Putting back what was to be withheld never overflows: it comes to no more than was owed. */
  lemma RestoringNeverFails(loans: seq<LoanState>, reward: RewardAccount, watch: u64, terms: ConversionTerms, rate: u64,
                            now: i64)
    requires terms.Accepted() && rate > 0 && Measure(loans, reward, watch, terms, rate, now).Ok?
    ensures RestoredAll(Measure(loans, reward, watch, terms, rate, now).value).Ok?
  {
    var m := Measure(loans, reward, watch, terms, rate, now).value;
    forall i | 0 <= i < |m.loans| ensures m.loans[i].rewardDue + m.withheld[i] <= m.plan[i].owed {
      assert m.plan[i].take <= m.plan[i].owed;
    }
  }

  // ----- Flags ------------------------------------------------------------------------------

  /** The first cause stays. */
  function FirstCause(l: LoanState, reason: ManualReason): ManualReason {
    if l.manualRepayment.Some? then l.manualRepayment.value else reason
  }

  lemma ShortTakesAll(payout: u64, available: u64, claims: seq<Claim>, i: nat)
    requires i < |claims| && Plan(payout, available, claims)[i].take < Plan(payout, available, claims)[i].owed
    ensures Sum(Plan(payout, available, claims), Take) == available < Sum(Plan(payout, available, claims), Owed)
  {
    var stakes := StakesOf(payout, claims);
    SplitTotals(payout, available, stakes);
    ShortMeansExhausted(Split(payout, available, stakes), i, available);
  }

  /** When a loan is given less than it is owed, the cause named is the true one: no delegate; an
      allowance below the balance, all of it taken; or, the allowance covering the balance, tokens
      already owed to the loans that have left the account. */
  lemma {:induction false} ShortfallIsTheCause(loans: seq<LoanState>, reward: RewardAccount, watch: u64,
                                               terms: ConversionTerms, rate: u64, now: i64, m: Measurement, i: nat)
    requires terms.Accepted() && rate > 0 && Measure(loans, reward, watch, terms, rate, now) == Ok(m) && i < |loans|
    requires m.For(|loans|) && m.plan[i].take < m.plan[i].owed
    ensures match reward.Shortfall()
            case Revoked => reward.delegated == None && Sum(m.plan, Take) == 0
            case AllowanceShort => reward.delegated.Some? && Sum(m.plan, Take) == reward.Allowance() < reward.amount
            case WithdrawnEarly =>
              && reward.delegated.Some? && Sum(m.plan, Take) == reward.amount <= reward.Allowance()
              && Sum(loans, RewardDue) > reward.amount - Payout(reward, watch)
  {
    var payout, available := Payout(reward, watch), Min(reward.amount, reward.Allowance());
    var claims := ClaimsOf(loans, m.debts, terms, rate);
    MeasureSteps(loans, reward, watch, terms, rate, now, m);
    OwedWithin(loans, payout, available, claims, m.plan);
    ShortTakesAll(payout, available, claims, i);
  }

  /** The flag on a loan still open after a sweep. Given less than it was owed, it is flagged with its
      first cause; given and paid all it was owed, it is not, unless the sale took the last of the
      allowance; otherwise its flag stays, that last case aside. */
  predicate FlagSwept(l: LoanState, o: Swept, i: nat, reward: RewardAccount)
    requires o.measured.For(|o.measured.plan|) && i < |o.measured.plan| == |o.books.loans|
  {
    var part, after := o.measured.plan[i], o.books.loans[i];
    var gone := o.sold && AllowanceGone(reward, o);
    var given := o.sold && o.measured.pays[i] > 0 && part.take == part.owed;
    after.IsOpen() ==>
      after.manualRepayment ==
        if part.take < part.owed then Some(FirstCause(l, reward.Shortfall()))
        else if given then (if gone then Some(AllowanceShort) else None)
        else if gone then Some(FirstCause(l, AllowanceShort)) else l.manualRepayment
  }

  lemma UnsoldFlag(l: LoanState, o: Swept, i: nat, reward: RewardAccount)
    requires o.measured.For(|o.measured.plan|) && i < |o.measured.plan| == |o.books.loans| && !o.sold
    requires o.measured.plan[i].take <= o.measured.plan[i].owed
    requires o.measured.loans[i] == Measured(l, o.measured.plan[i], reward.Shortfall())
    requires o.books.loans[i] == o.measured.loans[i].(rewardDue := o.books.loans[i].rewardDue)
    ensures FlagSwept(l, o, i, reward)
  {
  }

  lemma SoldFlag(l: LoanState, settled: LoanState, o: Swept, i: nat, reward: RewardAccount, now: int)
    requires o.measured.For(|o.measured.plan|) && i < |o.measured.plan| == |o.books.loans| && o.sold
    requires o.measured.plan[i].take <= o.measured.plan[i].owed
    requires o.measured.withheld[i] == (if o.measured.pays[i] == 0 then 0 else o.measured.plan[i].take)
    requires o.measured.loans[i] == Measured(l, o.measured.plan[i], reward.Shortfall())
    requires SettledTo(o.measured.loans[i], settled, o.measured, i, now)
    requires o.books.loans[i]
          == if AllowanceGone(reward, o) && settled.IsOpen() then settled.Flagged(AllowanceShort) else settled
    ensures FlagSwept(l, o, i, reward)
  {
  }

  lemma MeasuredExactly(loans: seq<LoanState>, reward: RewardAccount, watch: u64, terms: ConversionTerms, rate: u64,
                        now: i64, i: nat)
    requires terms.Accepted() && rate > 0 && Measure(loans, reward, watch, terms, rate, now).Ok? && i < |loans|
    ensures var m := Measure(loans, reward, watch, terms, rate, now).value;
            && m.plan[i].take <= m.plan[i].owed
            && m.loans[i] == Measured(loans[i], m.plan[i], reward.Shortfall())
            && m.withheld[i] == (if m.pays[i] == 0 then 0 else m.plan[i].take)
  {
  }

  lemma SoldFlags(b: Books, reward: RewardAccount, watch: u64, terms: ConversionTerms, rate: u64, o: Swept, now: i64,
                  i: nat)
    requires terms.Accepted() && rate > 0 && Sweepable(b.loans, now) && i < |b.loans| && o.sold
    requires Measure(b.loans, reward, watch, terms, rate, now) == Ok(o.measured)
    requires SoldBy(b, o.measured, o, AllowanceGone(reward, o), now)
    ensures FlagSwept(b.loans[i], o, i, reward)
  {
    var start := b.(loans := o.measured.loans);
    var c := SettleFirst(start, o.measured, now, |b.loans|).value;
    assert SettledTo(o.measured.loans[i], c.loans[i], o.measured, i, now) by {
      PartsHoldAll(b.loans, reward, watch, terms, rate, now);
      SettleFirstFollows(start, o.measured, now, |b.loans|);
    }
    MeasuredExactly(b.loans, reward, watch, terms, rate, now, i);
    SoldFlag(b.loans[i], c.loans[i], o, i, reward, now);
  }

  lemma SweptFlags(b: Books, reward: RewardAccount, watch: u64, terms: ConversionTerms, rate: u64, o: Swept, now: i64,
                   i: nat)
    requires terms.Accepted() && rate > 0 && Sweepable(b.loans, now) && i < |b.loans|
    requires Measure(b.loans, reward, watch, terms, rate, now) == Ok(o.measured)
    requires SweptBy(b, reward, o.measured, terms, rate, o, now)
    ensures FlagSwept(b.loans[i], o, i, reward)
  {
    if o.sold {
      SoldFlags(b, reward, watch, terms, rate, o, now, i);
    } else {
      MeasuredExactly(b.loans, reward, watch, terms, rate, now, i);
      UnsoldFlag(b.loans[i], o, i, reward);
    }
  }

  /** Every sweep leaves every loan with the flag it should. */
  lemma SweepFlags(b: Books, reward: RewardAccount, watch: u64, terms: ConversionTerms, stable: nat, rate: u64,
                   now: i64, i: nat)
    requires terms.Accepted() && rate > 0 && Sweepable(b.loans, now) && i < |b.loans|
    requires Sweep(b, reward, watch, terms, stable, rate, now).Ok?
    ensures var o := Sweep(b, reward, watch, terms, stable, rate, now).value;
            o.measured.For(|b.loans|) && FlagSwept(b.loans[i], o, i, reward)
  {
    var m := Measure(b.loans, reward, watch, terms, rate, now).value;
    var o := Sweep(b, reward, watch, terms, stable, rate, now).value;
    SweepSteps(b, reward, m, terms, stable, rate, now);
    SweptFlags(b, reward, watch, terms, rate, o, now, i);
  }
}
