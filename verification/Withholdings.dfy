/** What each loan is owed out of a payout, and how much of it the account can give. */
module Withholdings {
  import opened Numbers
  import opened Sums
  import opened Conversions

  /** One loan withheld for: its agreed share of every payout, the reward units that would pay
      it off, and what earlier payouts still owe it. */
  datatype Claim = Claim(sweepBps: u16, need: u64, due: u64)

  /** A claim on one payout, its agreed share in tokens. */
  datatype Stake = Stake(share: u64, need: u64, due: u64)

  datatype Withholding = Withholding(owed: u64, take: u64)

  function Earlier(stake: Stake): int { Min(stake.due, stake.need) }
  function Due(stake: Stake): int { stake.due }
  function Owed(w: Withholding): int { w.owed }
  function Take(w: Withholding): int { w.take }

  /** A claim's agreed share of the whole payout. The program narrows it to u64. */
  function Share(payout: u64, claim: Claim): u64 {
    payout * claim.sweepBps / BPS % (U64_MAX + 1)
  }

  function StakeOf(payout: u64, claim: Claim): Stake {
    Stake(Share(payout, claim), claim.need, claim.due)
  }

  function StakesOf(payout: u64, claims: seq<Claim>): seq<Stake> {
    seq(|claims|, i requires 0 <= i < |claims| => StakeOf(payout, claims[i]))
  }

  /** What of the payout itself the stakes have been owed. */
  function FreshlyOwed(stakes: seq<Stake>, plan: seq<Withholding>): int {
    Sum(plan, Owed) - Sum(stakes, Earlier)
  }

  /** What a stake gets out of what is left of the payout and of the account. */
  function Withhold(stake: Stake, payoutLeft: u64, left: u64): Withholding {
    var earlier := Min(stake.due, stake.need);
    var owed := earlier + Min(Min(stake.share, stake.need - earlier), payoutLeft);
    Withholding(owed, Min(owed, left))
  }

  /** The next stake's part, with what the stakes before it left of the payout and of the account. */
  function NextPart(payout: u64, available: u64, earlier: seq<Stake>, before: seq<Withholding>,
                    stake: Stake): Withholding
    requires 0 <= FreshlyOwed(earlier, before) <= payout && 0 <= Sum(before, Take) <= available
  {
    Withhold(stake, payout - FreshlyOwed(earlier, before), available - Sum(before, Take))
  }

  function Split(payout: u64, available: u64, stakes: seq<Stake>): (plan: seq<Withholding>)
    ensures |plan| == |stakes| && forall i :: 0 <= i < |plan| ==> plan[i].take <= plan[i].owed
    ensures 0 <= FreshlyOwed(stakes, plan) <= payout
    ensures 0 <= Sum(plan, Take) <= available
  {
    if stakes == [] then [] else
    var n := |stakes| - 1;
    var before := Split(payout, available, stakes[..n]);
    var last := NextPart(payout, available, stakes[..n], before, stakes[n]);
    assert (before + [last])[..n] == before;
    before + [last]
  }

  /** `withholdings`. */
  function Plan(payout: u64, available: u64, claims: seq<Claim>): (plan: seq<Withholding>)
    ensures |plan| == |claims| && forall i :: 0 <= i < |plan| ==> plan[i].take <= plan[i].owed
  {
    Split(payout, available, StakesOf(payout, claims))
  }

  lemma {:induction false} SplitLast(payout: u64, available: u64, earlier: seq<Stake>, last: Stake)
    ensures var before := Split(payout, available, earlier);
            Split(payout, available, earlier + [last]) == before + [NextPart(payout, available, earlier, before, last)]
  {
    assert (earlier + [last])[..|earlier|] == earlier;
  }

  method WithholdOne(payout: u64, payoutLeft: u64, left: u64, claim: Claim)
    returns (part: Withholding, payoutAfter: u64, leftAfter: u64)
    ensures part == Withhold(StakeOf(payout, claim), payoutLeft, left)
    ensures payoutAfter == payoutLeft - (part.owed - Earlier(StakeOf(payout, claim))) && leftAfter == left - part.take
  {
    var earlier := Min(claim.due, claim.need);
    var share := Share(payout, claim);
    var freshly: u64 := Min(Min(share, claim.need - earlier), payoutLeft);
    payoutAfter := payoutLeft - freshly;
    var owed: u64 := earlier + freshly;
    var take: u64 := Min(owed, left);
    leftAfter := left - take;
    part := Withholding(owed, take);
  }

  /** What is left of the payout and of the account after one more part. */
  lemma {:induction false} LeftAfterPart(payout: int, available: int, earlier: seq<Stake>, plan: seq<Withholding>,
                                         stake: Stake, part: Withholding)
    ensures payout - FreshlyOwed(earlier + [stake], plan + [part])
         == payout - FreshlyOwed(earlier, plan) - (part.owed - Earlier(stake))
    ensures available - Sum(plan + [part], Take) == available - Sum(plan, Take) - part.take
  {
    SumAppend(earlier, stake, Earlier);
    SumAppend(plan, part, Owed);
    SumAppend(plan, part, Take);
  }

  /** One more stake: what is left of the payout and of the account is all the pass has to know. */
  lemma {:induction false} SplitStep(payout: u64, available: u64, earlier: seq<Stake>, plan: seq<Withholding>,
                                     stake: Stake, payoutLeft: u64, left: u64)
    requires plan == Split(payout, available, earlier)
    requires payoutLeft == payout - FreshlyOwed(earlier, plan) && left == available - Sum(plan, Take)
    ensures Split(payout, available, earlier + [stake]) == plan + [Withhold(stake, payoutLeft, left)]
  {
    assert NextPart(payout, available, earlier, plan, stake) == Withhold(stake, payoutLeft, left);
    SplitLast(payout, available, earlier, stake);
  }

  /** The pass after its first `i` claims. */
  predicate WithheldFirst(payout: u64, available: u64, claims: seq<Claim>, i: nat, plan: seq<Withholding>,
                          payoutLeft: u64,
                          left: u64)
    requires i <= |claims|
  {
    var stakes := StakesOf(payout, claims[..i]);
    && plan == Split(payout, available, stakes)
    && payoutLeft == payout - FreshlyOwed(stakes, plan) && left == available - Sum(plan, Take)
  }

  lemma StakesNext(payout: u64, claims: seq<Claim>, i: nat)
    requires i < |claims|
    ensures StakesOf(payout, claims[..i + 1]) == StakesOf(payout, claims[..i]) + [StakeOf(payout, claims[i])]
  {
  }

  lemma WithholdNext(payout: u64, available: u64, claims: seq<Claim>, i: nat, plan: seq<Withholding>, payoutLeft: u64,
                     left: u64, part: Withholding, payoutAfter: u64, leftAfter: u64)
    requires i < |claims| && WithheldFirst(payout, available, claims, i, plan, payoutLeft, left)
    requires part == Withhold(StakeOf(payout, claims[i]), payoutLeft, left)
    requires payoutAfter == payoutLeft - (part.owed - Earlier(StakeOf(payout, claims[i])))
    requires leftAfter == left - part.take
    ensures WithheldFirst(payout, available, claims, i + 1, plan + [part], payoutAfter, leftAfter)
  {
    var stakes, stake := StakesOf(payout, claims[..i]), StakeOf(payout, claims[i]);
    StakesNext(payout, claims, i);
    SplitStep(payout, available, stakes, plan, stake, payoutLeft, left);
    LeftAfterPart(payout, available, stakes, plan, stake, part);
  }

  /** The program's pass, which runs the payout and the account down as it goes. */
  method WithholdAll(payout: u64, available: u64, claims: seq<Claim>) returns (plan: seq<Withholding>)
    ensures plan == Plan(payout, available, claims)
  {
    plan := [];
    var payoutLeft, left := payout, available;
    for i := 0 to |claims|
      invariant WithheldFirst(payout, available, claims, i, plan, payoutLeft, left)
    {
      var part, payoutAfter, leftAfter := WithholdOne(payout, payoutLeft, left, claims[i]);
      WithholdNext(payout, available, claims, i, plan, payoutLeft, left, part, payoutAfter, leftAfter);
      payoutLeft, left := payoutAfter, leftAfter;
      plan := plan + [part];
    }
    assert claims[..|claims|] == claims;
  }

  // ----- The split --------------------------------------------------------------------------

  /** With at most the whole payout agreed to, narrowing the share loses nothing. */
  lemma ShareIsExact(payout: u64, claim: Claim)
    requires claim.sweepBps <= BPS
    ensures Share(payout, claim) == payout * claim.sweepBps / BPS <= payout
  {
    MulMonotone(claim.sweepBps, BPS, payout);
    MulMonotone(0, claim.sweepBps, payout);
    DivMonotone(payout * claim.sweepBps, payout * BPS, BPS);
    DivMonotone(0, payout * claim.sweepBps, BPS);
  }

  /** What one stake got: what earlier payouts owe it and of this payout its agreed share, up to
      what pays the loan off, short of that only once the payout has run out. */
  predicate FairlyOwed(payout: u64, stakes: seq<Stake>, plan: seq<Withholding>, i: nat)
    requires i < |stakes| == |plan|
  {
    var entitled := Min(stakes[i].share, stakes[i].need - Earlier(stakes[i]));
    && plan[i].take <= plan[i].owed <= stakes[i].need
    && Earlier(stakes[i]) <= plan[i].owed <= Earlier(stakes[i]) + entitled
    && (plan[i].owed < Earlier(stakes[i]) + entitled ==> FreshlyOwed(stakes[..i + 1], plan[..i + 1]) == payout)
  }

  lemma {:induction false} SplitTotals(payout: u64, available: u64, stakes: seq<Stake>)
    ensures var plan := Split(payout, available, stakes);
            Sum(plan, Take) == Min(available, Sum(plan, Owed))
  {
    if stakes == [] {
    } else {
      var n := |stakes| - 1;
      SplitTotals(payout, available, stakes[..n]);
      assert Split(payout, available, stakes)[..n] == Split(payout, available, stakes[..n]);
    }
  }

  lemma {:induction false} FairLast(payout: u64, available: u64, stakes: seq<Stake>)
    requires stakes != []
    ensures FairlyOwed(payout, stakes, Split(payout, available, stakes), |stakes| - 1)
  {
    var n := |stakes| - 1;
    var plan := Split(payout, available, stakes);
    var before := Split(payout, available, stakes[..n]);
    assert stakes[..n + 1] == stakes && plan[..n + 1] == plan && plan[..n] == before;
    assert Sum(plan, Owed) == Sum(before, Owed) + plan[n].owed;
    assert Sum(stakes, Earlier) == Sum(stakes[..n], Earlier) + Earlier(stakes[n]);
  }

  lemma {:induction false} SplitIsFair(payout: u64, available: u64, stakes: seq<Stake>, i: nat)
    requires i < |stakes|
    ensures FairlyOwed(payout, stakes, Split(payout, available, stakes), i)
  {
    var n := |stakes| - 1;
    if i < n {
      SplitIsFair(payout, available, stakes[..n], i);
      var plan := Split(payout, available, stakes);
      assert plan[..n] == Split(payout, available, stakes[..n]);
      assert stakes[..i + 1] == stakes[..n][..i + 1] && plan[..i + 1] == plan[..n][..i + 1];
    } else {
      FairLast(payout, available, stakes);
    }
  }

  /** A plan one short of what it owes has taken all the account can give, and owes more. */
  lemma {:induction false} ShortMeansExhausted(plan: seq<Withholding>, i: nat, available: int)
    requires i < |plan| && plan[i].take < plan[i].owed
    requires forall j :: 0 <= j < |plan| ==> plan[j].take <= plan[j].owed
    requires Sum(plan, Take) == Min(available, Sum(plan, Owed))
    ensures Sum(plan, Take) == available < Sum(plan, Owed)
  {
    var full := Withholding(plan[i].owed, plan[i].owed);
    SumUpdate(plan, i, full, Take);
    SumUpdate(plan, i, full, Owed);
    SumAtMost(plan[i := full], Take, Owed);
  }

  /** Once a stake is left short, nothing is left for the next. */
  lemma {:induction false} LastTakesNothing(payout: u64, available: u64, stakes: seq<Stake>, i: nat)
    requires i < |stakes| - 1
    requires var before := Split(payout, available, stakes[..|stakes| - 1]); before[i].take < before[i].owed
    ensures Split(payout, available, stakes)[|stakes| - 1].take == 0
  {
    var before := Split(payout, available, stakes[..|stakes| - 1]);
    SplitTotals(payout, available, stakes[..|stakes| - 1]);
    ShortMeansExhausted(before, i, available);
    assert Sum(before, Take) == available;
  }

  lemma {:induction false} SplitPrefix(payout: u64, available: u64, stakes: seq<Stake>)
    requires stakes != []
    ensures Split(payout, available, stakes)[..|stakes| - 1] == Split(payout, available, stakes[..|stakes| - 1])
  {
  }

  lemma {:induction false} YoungerTakeNothing(payout: u64, available: u64, stakes: seq<Stake>, i: nat, j: nat)
    requires i < j < |stakes|
    requires Split(payout, available, stakes)[i].take < Split(payout, available, stakes)[i].owed
    ensures Split(payout, available, stakes)[j].take == 0
  {
    var n := |stakes| - 1;
    var plan, before := Split(payout, available, stakes), Split(payout, available, stakes[..n]);
    SplitPrefix(payout, available, stakes);
    assert plan[i] == plan[..n][i];
    if j < n {
      YoungerTakeNothing(payout, available, stakes[..n], i, j);
      assert plan[j] == plan[..n][j];
    } else {
      LastTakesNothing(payout, available, stakes, i);
    }
  }

  lemma {:induction false} SplitWithin(payout: u64, available: u64, stakes: seq<Stake>)
    ensures Sum(Split(payout, available, stakes), Owed) <= payout + Sum(stakes, Earlier) <= payout + Sum(stakes, Due)
    ensures Sum(Split(payout, available, stakes), Take) <= available
  {
    SumAtMost(stakes, Earlier, Due);
  }

  /** For any claims at all: the takes are exactly what the account can give of what is owed, each
      claim is owed its fair part, all of them no more than the payout and what was due before,
      and a claim left short means every younger one takes nothing. */
  lemma WithholdingSplit(payout: u64, available: u64, claims: seq<Claim>)
    ensures var plan, stakes := Plan(payout, available, claims), StakesOf(payout, claims);
            && Sum(plan, Take) == Min(available, Sum(plan, Owed))
            && Sum(plan, Owed) <= payout + Sum(stakes, Earlier) <= payout + Sum(stakes, Due)
            && (forall i :: 0 <= i < |claims| ==> FairlyOwed(payout, stakes, plan, i))
            && (forall i, j :: 0 <= i < j < |claims| && plan[i].take < plan[i].owed ==> plan[j].take == 0)
  {
    var plan, stakes := Plan(payout, available, claims), StakesOf(payout, claims);
    SplitTotals(payout, available, stakes);
    SplitWithin(payout, available, stakes);
    forall i | 0 <= i < |claims| ensures FairlyOwed(payout, stakes, plan, i) {
      SplitIsFair(payout, available, stakes, i);
    }
    forall i, j | 0 <= i < j < |claims| && plan[i].take < plan[i].owed ensures plan[j].take == 0 {
      YoungerTakeNothing(payout, available, stakes, i, j);
    }
  }
}
