/** The lifetime of a payout: over any run of arrivals, spends, borrows, repayments and sweeps, no
    token is measured twice and no loan is given more than its agreed shares. */
module Payouts {
  import opened Outcomes
  import opened Numbers
  import opened Sums
  import opened Loans
  import opened Settlement
  import opened Conversions
  import opened Protocol
  import opened Ledger
  import opened Solvency
  import Borrowing
  import Sweeping
  import SweepFacts

  /** What an onlooker would write down of a run. Per loan: the agreed shares, each rounded down, of
      the payouts measured while it was open, and the tokens withheld for it. Per reward account,
      since its watch started: tokens that arrived, that were spent outside the program, that were
      measured as payouts and that were withheld; and, over the sweeps that found less than the
      watch, by how much less. */
  datatype Audit = Audit(
    agreed: seq<nat>, withheld: seq<nat>, arrived: map<Lane, nat>, spent: map<Lane, nat>, measured: map<Lane, nat>,
    taken: map<Lane, nat>, missed: map<Lane, nat>)

  const NOTHING_SEEN := Audit([], [], map[], map[], map[], map[], map[])

  function At(counts: map<Lane, nat>, lane: Lane): nat {
    if lane in counts then counts[lane] else 0
  }

  function Add(counts: map<Lane, nat>, lane: Lane, amount: nat): map<Lane, nat> {
    counts[lane := At(counts, lane) + amount]
  }

  /** Each amount added at its own place. */
  function Credit(xs: seq<nat>, at: seq<nat>, amounts: seq<nat>): (r: seq<nat>)
    requires |amounts| == |at| && forall i :: 0 <= i < |at| ==> at[i] < |xs|
    ensures |r| == |xs|
  {
    if at == [] then xs else
    var n := |at| - 1;
    var before := Credit(xs, at[..n], amounts[..n]);
    before[at[n] := before[at[n]] + amounts[n]]
  }

  lemma {:induction false} CreditElsewhere(xs: seq<nat>, at: seq<nat>, amounts: seq<nat>, p: nat)
    requires |amounts| == |at| && (forall i :: 0 <= i < |at| ==> at[i] < |xs|) && p < |xs| && p !in at
    ensures Credit(xs, at, amounts)[p] == xs[p]
  {
    if at == [] {
    } else {
      CreditElsewhere(xs, at[..|at| - 1], amounts[..|at| - 1], p);
    }
  }

  lemma {:induction false} CreditThere(xs: seq<nat>, at: seq<nat>, amounts: seq<nat>, i: nat)
    requires |amounts| == |at| && (forall j :: 0 <= j < |at| ==> at[j] < |xs|) && DistinctPlaces(at) && i < |at|
    ensures Credit(xs, at, amounts)[at[i]] == xs[at[i]] + amounts[i]
  {
    var n := |at| - 1;
    if i < n {
      CreditThere(xs, at[..n], amounts[..n], i);
    } else {
      CreditElsewhere(xs, at[..n], amounts[..n], at[n]);
    }
  }

  /** A payout starts a fresh count when nothing the operator still owes is repaid from the token,
      or nothing ever was. */
  predicate Restarts(w: World, lane: Lane) {
    || lane !in w.watches
    || forall p :: 0 <= p < |w.loans| && w.loans[p].IsOpen() ==> (w.loans[p].operator, w.loans[p].rewardMint) != lane
  }

  function AgreedShare(l: LoanState, payout: u64): nat {
    DivAtLeast(payout * l.sweepBps, BPS, 0);
    payout * l.sweepBps / BPS
  }

  function AgreedShares(loans: seq<LoanState>, at: seq<nat>, payout: u64): seq<nat>
    requires Present(loans, at)
  {
    seq(|at|, i requires 0 <= i < |at| => AgreedShare(loans[at[i]], payout))
  }

  function TakenFor(o: Sweeping.Swept, n: nat): seq<nat>
    requires |o.measured.withheld| == n
  {
    seq(n, i requires 0 <= i < n => o.Taken(i))
  }

  /** How far a reward account is below its watch: tokens spent that the watch still counts. */
  function Missing(w: World, lane: Lane): nat {
    if lane in w.watches && w.Rewards(lane).amount < w.watches[lane]
    then w.watches[lane] - w.Rewards(lane).amount else 0
  }

  /** The audit after a sweep at `at` of a payout. */
  function SweptAudit(w: World, h: Audit, lane: Lane, at: seq<nat>, payout: u64, o: Sweeping.Swept): Audit
    requires |h.agreed| == |h.withheld| == |w.loans| && Present(w.loans, at) && |o.measured.withheld| == |at|
  {
    h.(agreed := Credit(h.agreed, at, AgreedShares(w.loans, at, payout)),
       withheld := Credit(h.withheld, at, TakenFor(o, |at|)),
       measured := Add(h.measured, lane, payout),
       taken := Add(h.taken, lane, o.withheld),
       missed := Add(h.missed, lane, Missing(w, lane)))
  }

  function BorrowAudit(w: World, h: Audit, lane: Lane): Audit {
    var more := h.(agreed := h.agreed + [0], withheld := h.withheld + [0]);
    if Restarts(w, lane)
    then more.(arrived := h.arrived[lane := 0], spent := h.spent[lane := 0], measured := h.measured[lane := 0],
               taken := h.taken[lane := 0], missed := h.missed[lane := 0])
    else more
  }

  /** The payout a sweep measures. */
  function PayoutOf(w: World, lane: Lane): u64 {
    if lane in w.watches then Sweeping.Payout(w.Rewards(lane), w.watches[lane]) else 0
  }

  lemma SweepMeasuresAll(w: World, operator: nat, mint: nat, rate: u64, passed: seq<nat>)
    requires DoSweep(w, operator, mint, rate, passed).Ok?
    ensures |OutcomeOf(w, operator, mint, rate, passed).measured.withheld| == |Swept(w, operator, mint, passed).value|
  {
    var at := Swept(w, operator, mint, passed).value;
    var lane := (operator, mint);
    var b := Books(w.pool, w.Account(operator), Gather(w.loans, at));
    var m :=
      Sweeping.Measure(b.loans, w.Rewards(lane), w.watches[lane], w.conversions[mint].terms, rate, w.clock).value;
    SweepFacts.SweepSteps(b, w.Rewards(lane), m, w.conversions[mint].terms, w.conversions[mint].stable, rate, w.clock);
  }

  function SweepNoted(w: World, h: Audit, operator: nat, mint: nat, rate: u64, passed: seq<nat>): (k: Audit)
    requires |h.agreed| == |h.withheld| == |w.loans| && DoSweep(w, operator, mint, rate, passed).Ok?
    ensures |k.agreed| == |k.withheld| == |w.loans|
  {
    SweepMeasuresAll(w, operator, mint, rate, passed);
    SweptAudit(w, h, (operator, mint), Swept(w, operator, mint, passed).value, PayoutOf(w, (operator, mint)),
               OutcomeOf(w, operator, mint, rate, passed))
  }

  /** The audit after one transaction that went through. */
  function Noted(w: World, h: Audit, a: Action): (k: Audit)
    requires |h.agreed| == |h.withheld| == |w.loans| && Step(w, a).Ok?
    ensures |k.agreed| == |k.withheld| == |w.loans| + (if a.Borrow? then 1 else 0)
  {
    match a
    case Receive(lane, amount) => h.(arrived := Add(h.arrived, lane, amount))
    case Spend(lane, amount) => h.(spent := Add(h.spent, lane, amount))
    case Borrow(t, passed) => BorrowAudit(w, h, (t.operator, t.rewardMint))
    case Sweep(operator, mint, rate, passed) => SweepNoted(w, h, operator, mint, rate, passed)
    case _ => h
  }

  // ----- What always holds ------------------------------------------------------------------

  function DueOn(lane: Lane): LoanState -> int {
    (l: LoanState) => if (l.operator, l.rewardMint) == lane then l.rewardDue else 0
  }

  /** No loan was given, or is still due, more than its agreed shares. */
  predicate SharesHold(w: World, h: Audit) {
    && |h.agreed| == |h.withheld| == |w.loans|
    && forall p :: 0 <= p < |w.loans| ==> h.withheld[p] + w.loans[p].rewardDue <= h.agreed[p]
  }

  /** Over all the loans of a reward account: what was withheld and is still due is within the
      payouts measured, and those, with the payout waiting, within the tokens that arrived. */
  predicate LaneHolds(w: World, h: Audit, lane: Lane) {
    && At(h.taken, lane) + Sum(w.loans, DueOn(lane)) <= At(h.measured, lane)
    && (lane in w.watches ==> At(h.measured, lane) + PayoutOf(w, lane) <= At(h.arrived, lane))
  }

  predicate WatchesKept(w: World) {
    forall p :: 0 <= p < |w.loans| && w.loans[p].IsOpen() ==> (w.loans[p].operator, w.loans[p].rewardMint) in w.watches
  }

  ghost predicate PayoutsHold(w: World, h: Audit) {
    SharesHold(w, h) && WatchesKept(w) && forall lane: Lane {:trigger At(h.taken, lane)} :: LaneHolds(w, h, lane)
  }

  // ----- A sweep ----------------------------------------------------------------------------

  lemma {:induction false} SweptDues(w: World, at: seq<nat>, mine: seq<LoanState>, lane: Lane, other: Lane)
    requires |mine| == |at| && Present(w.loans, at) && DistinctPlaces(at)
    requires forall i :: 0 <= i < |at| ==>
      (w.loans[at[i]].operator, w.loans[at[i]].rewardMint) == lane && SameLoan(w.loans[at[i]], mine[i])
    ensures Sum(Scatter(w.loans, at, mine), DueOn(other)) == Sum(w.loans, DueOn(other))
              + (if other == lane then Sum(mine, SweepFacts.RewardDue) - Sum(Gather(w.loans, at), SweepFacts.RewardDue)
                 else 0)
  {
    ScatterSum(w.loans, at, mine, DueOn(other));
    var before := Gather(w.loans, at);
    if other == lane {
      SumAtMost(mine, DueOn(other), SweepFacts.RewardDue);
      SumAtMost(mine, SweepFacts.RewardDue, DueOn(other));
      SumAtMost(before, DueOn(other), SweepFacts.RewardDue);
      SumAtMost(before, SweepFacts.RewardDue, DueOn(other));
    } else {
      SumZero(mine, DueOn(other));
      SumZero(before, DueOn(other));
    }
  }

  /** What the audit needs of a sweep's outcome. */
  predicate Audited(w: World, v: World, lane: Lane, at: seq<nat>, payout: u64, o: Sweeping.Swept) {
    && Present(w.loans, at) && DistinctPlaces(at) && |o.books.loans| == |o.measured.withheld| == |at|
    && lane in w.watches && payout == PayoutOf(w, lane)
    && v.loans == Scatter(w.loans, at, o.books.loans)
    && v.watches == w.watches[lane := o.watch] && v.rewards == w.rewards[lane := o.reward] && o.watch == o.reward.amount
    && (forall i :: 0 <= i < |at| ==>
          && (w.loans[at[i]].operator, w.loans[at[i]].rewardMint) == lane
          && w.loans[at[i]].IsOpen()
          && SameLoan(w.loans[at[i]], o.books.loans[i])
          && o.Taken(i) + o.books.loans[i].rewardDue <= w.loans[at[i]].rewardDue + AgreedShare(w.loans[at[i]], payout))
    && o.withheld + Sum(o.books.loans, SweepFacts.RewardDue) <= payout + Sum(Gather(w.loans, at), SweepFacts.RewardDue)
  }

  lemma SweptLoanShare(l: LoanState, o: Sweeping.Swept, i: nat, payout: u64, now: int)
    requires o.measured.For(|o.measured.plan|) && i < |o.measured.plan| == |o.books.loans|
    requires SweepFacts.LoanSwept(l, o, i, payout, now)
    ensures SameLoan(l, o.books.loans[i])
    ensures o.Taken(i) + o.books.loans[i].rewardDue <= l.rewardDue + AgreedShare(l, payout)
  {
  }

  lemma WrittenBackIsAudited(w: World, v: World, operator: nat, mint: nat, rate: u64, at: seq<nat>, o: Sweeping.Swept)
    requires WrittenBack(w, v, operator, mint, at, o) && (operator, mint) in w.watches
    requires SweepKept(w, operator, mint, rate, at, o) && DistinctPlaces(at)
    requires forall i :: 0 <= i < |at| ==>
      w.loans[at[i]].operator == operator && w.loans[at[i]].IsOpen() && w.loans[at[i]].rewardMint == mint
    ensures Audited(w, v, (operator, mint), at, PayoutOf(w, (operator, mint)), o)
  {
    var payout := PayoutOf(w, (operator, mint));
    forall i | 0 <= i < |at|
      ensures SameLoan(w.loans[at[i]], o.books.loans[i])
      ensures o.Taken(i) + o.books.loans[i].rewardDue <= w.loans[at[i]].rewardDue + AgreedShare(w.loans[at[i]], payout)
    {
      SweptLoanShare(Gather(w.loans, at)[i], o, i, payout, w.clock);
    }
  }

  lemma SweepIsAudited(w: World, operator: nat, mint: nat, rate: u64, passed: seq<nat>)
    requires Sound(w) && DoSweep(w, operator, mint, rate, passed).Ok?
    ensures Audited(w, DoSweep(w, operator, mint, rate, passed).value, (operator, mint),
                    Swept(w, operator, mint, passed).value, PayoutOf(w, (operator, mint)),
                    OutcomeOf(w, operator, mint, rate, passed))
  {
    SweepMoves(w, operator, mint, rate, passed);
    SweptPlaces(w, operator, mint, passed);
    WrittenBackIsAudited(w, DoSweep(w, operator, mint, rate, passed).value, operator, mint, rate,
                         Swept(w, operator, mint, passed).value, OutcomeOf(w, operator, mint, rate, passed));
  }

  lemma AuditedKeepsShares(w: World, v: World, h: Audit, lane: Lane, at: seq<nat>, payout: u64, o: Sweeping.Swept)
    requires SharesHold(w, h) && Audited(w, v, lane, at, payout, o)
    ensures SharesHold(v, SweptAudit(w, h, lane, at, payout, o))
  {
    var k := SweptAudit(w, h, lane, at, payout, o);
    forall p | 0 <= p < |v.loans| ensures k.withheld[p] + v.loans[p].rewardDue <= k.agreed[p] {
      var i := ScatterCovers(w.loans, at, o.books.loans, p);
      if i >= 0 {
        CreditThere(h.withheld, at, TakenFor(o, |at|), i);
        CreditThere(h.agreed, at, AgreedShares(w.loans, at, payout), i);
      } else {
        CreditElsewhere(h.withheld, at, TakenFor(o, |at|), p);
        CreditElsewhere(h.agreed, at, AgreedShares(w.loans, at, payout), p);
      }
    }
  }

  lemma AuditedKeepsLane(w: World, v: World, h: Audit, lane: Lane, at: seq<nat>, payout: u64, o: Sweeping.Swept,
                         other: Lane)
    requires SharesHold(w, h) && LaneHolds(w, h, other) && Audited(w, v, lane, at, payout, o)
    ensures LaneHolds(v, SweptAudit(w, h, lane, at, payout, o), other)
  {
    SweptDues(w, at, o.books.loans, lane, other);
  }

  lemma AuditedKeepsWatches(w: World, v: World, lane: Lane, at: seq<nat>, payout: u64, o: Sweeping.Swept)
    requires WatchesKept(w) && Audited(w, v, lane, at, payout, o)
    ensures WatchesKept(v)
  {
    forall p | 0 <= p < |v.loans| && v.loans[p].IsOpen()
      ensures (v.loans[p].operator, v.loans[p].rewardMint) in v.watches
    {
      var i := ScatterCovers(w.loans, at, o.books.loans, p);
    }
  }

  lemma SweepKeepsPayouts(w: World, h: Audit, operator: nat, mint: nat, rate: u64, passed: seq<nat>)
    requires Sound(w) && PayoutsHold(w, h) && DoSweep(w, operator, mint, rate, passed).Ok?
    ensures PayoutsHold(DoSweep(w, operator, mint, rate, passed).value,
                        SweepNoted(w, h, operator, mint, rate, passed))
  {
    var v := DoSweep(w, operator, mint, rate, passed).value;
    var at, o := Swept(w, operator, mint, passed).value, OutcomeOf(w, operator, mint, rate, passed);
    var lane, payout := (operator, mint), PayoutOf(w, (operator, mint));
    SweepIsAudited(w, operator, mint, rate, passed);
    AuditedKeepsPayouts(w, v, h, lane, at, payout, o);
  }

  lemma AuditedKeepsPayouts(w: World, v: World, h: Audit, lane: Lane, at: seq<nat>, payout: u64, o: Sweeping.Swept)
    requires PayoutsHold(w, h) && Audited(w, v, lane, at, payout, o)
    ensures PayoutsHold(v, SweptAudit(w, h, lane, at, payout, o))
  {
    AuditedKeepsShares(w, v, h, lane, at, payout, o);
    AuditedKeepsWatches(w, v, lane, at, payout, o);
    var k := SweptAudit(w, h, lane, at, payout, o);
    forall other: Lane ensures LaneHolds(v, k, other) {
      assert At(h.taken, other) >= 0;
      AuditedKeepsLane(w, v, h, lane, at, payout, o, other);
    }
  }

  // ----- A borrow ---------------------------------------------------------------------------

  /** What the audit needs of a borrow: the loans keep what they are due, the new one is due
      nothing, and the watch starts over exactly when the count does. */
  ghost predicate Lent(w: World, v: World, lane: Lane) {
    && |v.loans| == |w.loans| + 1
    && (forall p :: 0 <= p < |w.loans| ==>
          && SameLoan(w.loans[p], v.loans[p]) && v.loans[p].rewardDue == w.loans[p].rewardDue
          && v.loans[p].IsOpen() == w.loans[p].IsOpen())
    && v.loans[|w.loans|].rewardDue == 0
    && (v.loans[|w.loans|].operator, v.loans[|w.loans|].rewardMint) == lane
    && lane in v.watches && v.watches == w.watches[lane := v.watches[lane]]
    && v.watches[lane] == (if Restarts(w, lane) then w.Rewards(lane).amount else w.watches[lane])
    && forall other: Lane {:trigger v.Rewards(other)} :: v.Rewards(other).amount == w.Rewards(other).amount
  }

  /** The loans handed over are every open loan of the operator, so none of them repaid from the
      token means none at all is. */
  lemma NoneFromIsRestart(w: World, t: Borrowing.Terms, passed: seq<nat>)
    requires Sound(w) && AllOpenLoansOf(w, t.operator, passed) && |passed| == w.Account(t.operator).openLoans
    requires WatchesKept(w)
    ensures var lane := (t.operator, t.rewardMint);
            Restarts(w, lane) <==>
            Borrowing.NoneFrom(Gather(w.loans, passed), t.rewardMint, |passed|) || w.Watch(lane) == None
  {
    var lane := (t.operator, t.rewardMint);
    var mine := Gather(w.loans, passed);
    if Borrowing.NoneFrom(mine, t.rewardMint, |passed|) {
      forall p | 0 <= p < |w.loans| && w.loans[p].IsOpen()
        ensures (w.loans[p].operator, w.loans[p].rewardMint) != lane
      {
        if w.loans[p].operator == t.operator {
          PassedIsEveryOpenLoan(w, t.operator, passed, p);
          var i :| 0 <= i < |passed| && passed[i] == p;
          assert mine[i] == w.loans[p];
        }
      }
    } else {
      var i :| 0 <= i < |passed| && mine[i].rewardMint == t.rewardMint;
      assert w.loans[passed[i]].operator == t.operator;
    }
  }

  lemma {:induction false} BorrowScatters(w: World, t: Borrowing.Terms, passed: seq<nat>, r: Borrowing.Borrowed)
    requires Present(w.loans, passed) && DistinctPlaces(passed) && |r.books.loans| == |passed|
    requires forall i :: 0 <= i < |passed| ==> Borrowing.OnlyAccrued(w.loans[passed[i]], r.books.loans[i], w.clock)
    ensures var after := Scatter(w.loans, passed, r.books.loans);
            forall p :: 0 <= p < |w.loans| ==>
              && SameLoan(w.loans[p], after[p]) && after[p].rewardDue == w.loans[p].rewardDue
              && after[p].IsOpen() == w.loans[p].IsOpen()
  {
    forall p | 0 <= p < |w.loans|
      ensures var m := Scatter(w.loans, passed, r.books.loans)[p];
              SameLoan(w.loans[p], m) && m.rewardDue == w.loans[p].rewardDue && m.IsOpen() == w.loans[p].IsOpen()
    {
      var i := ScatterCovers(w.loans, passed, r.books.loans, p);
    }
  }

  lemma BorrowListsAll(w: World, t: Borrowing.Terms, passed: seq<nat>)
    requires Sound(w) && DoBorrow(w, t, passed).Ok?
    ensures AllOpenLoansOf(w, t.operator, passed) && |passed| == w.Account(t.operator).openLoans
  {
    var b := Books(w.pool, w.Account(t.operator), Gather(w.loans, passed));
    BorrowIsKept(w, t, passed);
    ListedLoans(b, passed, t, IssueOf(w, t, passed), w.clock);
    forall i | 0 <= i < |passed| ensures w.loans[passed[i]].operator == t.operator && w.loans[passed[i]].IsOpen() {
      assert b.loans[i] == w.loans[passed[i]];
    }
  }

  lemma BorrowSetsWatch(w: World, t: Borrowing.Terms, passed: seq<nat>)
    requires Sound(w) && DoBorrow(w, t, passed).Ok?
    ensures var lane := (t.operator, t.rewardMint);
            IssueOf(w, t, passed).watch
            == if Borrowing.NoneFrom(Gather(w.loans, passed), t.rewardMint, |passed|) || w.Watch(lane) == None
               then w.Rewards(lane).amount else w.Watch(lane).value
  {
    var lane := (t.operator, t.rewardMint);
    var b := Books(w.pool, w.Account(t.operator), Gather(w.loans, passed));
    Borrowing.BorrowWatchAndAllowance(b, passed, t, w.Watch(lane), w.Rewards(lane).amount, w.clock);
  }

  lemma WatchRestarts(w: World, t: Borrowing.Terms, passed: seq<nat>)
    requires Sound(w) && WatchesKept(w) && DoBorrow(w, t, passed).Ok?
    ensures var lane := (t.operator, t.rewardMint);
            IssueOf(w, t, passed).watch == if Restarts(w, lane) then w.Rewards(lane).amount else w.watches[lane]
  {
    BorrowListsAll(w, t, passed);
    BorrowSetsWatch(w, t, passed);
    NoneFromIsRestart(w, t, passed);
  }

  lemma BorrowLends(w: World, t: Borrowing.Terms, passed: seq<nat>)
    requires Sound(w) && WatchesKept(w) && DoBorrow(w, t, passed).Ok?
    ensures Lent(w, DoBorrow(w, t, passed).value, (t.operator, t.rewardMint))
  {
    BorrowMoves(w, t, passed);
    WatchRestarts(w, t, passed);
    BorrowedLends(w, DoBorrow(w, t, passed).value, t, passed, IssueOf(w, t, passed));
  }

  lemma BorrowedLends(w: World, v: World, t: Borrowing.Terms, passed: seq<nat>, r: Borrowing.Borrowed)
    requires PaidOut(w, v, t, passed, r) && BorrowKept(w, t, passed, r) && DistinctPlaces(passed)
    requires r.watch == (if Restarts(w, (t.operator, t.rewardMint)) then w.Rewards((t.operator, t.rewardMint)).amount
                         else w.watches[(t.operator, t.rewardMint)])
    ensures Lent(w, v, (t.operator, t.rewardMint))
  {
    forall i | 0 <= i < |passed| ensures Borrowing.OnlyAccrued(w.loans[passed[i]], r.books.loans[i], w.clock) {
      assert Borrowing.BroughtUp(passed, Gather(w.loans, passed), t.operator, i, r.books.loans[i], w.clock);
    }
    BorrowScatters(w, t, passed, r);
  }

  lemma LentDues(w: World, v: World, lane: Lane, other: Lane)
    requires Lent(w, v, lane)
    ensures Sum(v.loans, DueOn(other)) == Sum(w.loans, DueOn(other))
  {
    var before, last := v.loans[..|w.loans|], v.loans[|w.loans|];
    assert v.loans == before + [last];
    SumAppend(before, last, DueOn(other));
    SumSame(before, w.loans, DueOn(other));
  }

  lemma LentPayout(w: World, v: World, lane: Lane, other: Lane)
    requires Lent(w, v, lane)
    ensures PayoutOf(v, other) == if other == lane && Restarts(w, lane) then 0 else PayoutOf(w, other)
    ensures other in v.watches <==> other in w.watches || other == lane
  {
    assert v.Rewards(other).amount == w.Rewards(other).amount;
  }

  lemma CountsAfterBorrow(w: World, h: Audit, lane: Lane, other: Lane)
    ensures var k := BorrowAudit(w, h, lane);
            if other == lane && Restarts(w, lane)
            then && At(k.arrived, other) == At(k.spent, other) == At(k.measured, other) == 0
                 && At(k.taken, other) == At(k.missed, other) == 0
            else && At(k.arrived, other) == At(h.arrived, other) && At(k.spent, other) == At(h.spent, other)
                 && At(k.measured, other) == At(h.measured, other) && At(k.taken, other) == At(h.taken, other)
                 && At(k.missed, other) == At(h.missed, other)
  {
  }

  lemma LentKeepsLane(w: World, v: World, h: Audit, lane: Lane, other: Lane)
    requires LaneHolds(w, h, other) && Lent(w, v, lane) && LoansWellFormed(w) && WatchesKept(w)
    ensures LaneHolds(v, BorrowAudit(w, h, lane), other)
  {
    LentPayout(w, v, lane, other);
    LentDues(w, v, lane, other);
    CountsAfterBorrow(w, h, lane, other);
    if Restarts(w, lane) {
      NoDuesBeforeRestart(w, lane);
    }
  }

  lemma NoDuesBeforeRestart(w: World, lane: Lane)
    requires Restarts(w, lane) && LoansWellFormed(w) && WatchesKept(w)
    ensures Sum(w.loans, DueOn(lane)) == 0
  {
    forall p | 0 <= p < |w.loans| ensures DueOn(lane)(w.loans[p]) == 0 {
      assert w.loans[p].WellFormed(w.clock);
    }
    SumZero(w.loans, DueOn(lane));
  }

  lemma BorrowKeepsPayouts(w: World, h: Audit, t: Borrowing.Terms, passed: seq<nat>)
    requires Sound(w) && PayoutsHold(w, h) && DoBorrow(w, t, passed).Ok?
    ensures PayoutsHold(DoBorrow(w, t, passed).value, BorrowAudit(w, h, (t.operator, t.rewardMint)))
  {
    BorrowLends(w, t, passed);
    LentKeepsPayouts(w, DoBorrow(w, t, passed).value, h, (t.operator, t.rewardMint));
  }

  lemma LentKeepsPayouts(w: World, v: World, h: Audit, lane: Lane)
    requires Sound(w) && PayoutsHold(w, h) && Lent(w, v, lane)
    ensures PayoutsHold(v, BorrowAudit(w, h, lane))
  {
    var k := BorrowAudit(w, h, lane);
    forall other: Lane ensures LaneHolds(v, k, other) {
      assert At(h.taken, other) >= 0;
      LentKeepsLane(w, v, h, lane, other);
    }
  }

  // ----- Every other step -------------------------------------------------------------------

  /** A step that leaves every loan due no more than it was, and every balance moved by exactly what
      arrived and was spent. */
  ghost predicate Passes(w: World, v: World, h: Audit, k: Audit) {
    && v.watches == w.watches
    && DuesOnlyFall(w, v)
    && k == h.(arrived := k.arrived, spent := k.spent)
    && BalancesMove(w, v, h, k)
  }

  predicate DuesOnlyFall(w: World, v: World) {
    && |v.loans| == |w.loans|
    && forall p :: 0 <= p < |w.loans| ==>
         && SameLoan(w.loans[p], v.loans[p]) && v.loans[p].rewardDue <= w.loans[p].rewardDue
         && (v.loans[p].IsOpen() ==> w.loans[p].IsOpen())
  }

  ghost predicate BalancesMove(w: World, v: World, h: Audit, k: Audit) {
    forall lane: Lane {:trigger v.Rewards(lane)} :: BalanceMoves(w, v, h, k, lane)
  }

  predicate BalanceMoves(w: World, v: World, h: Audit, k: Audit, lane: Lane) {
    && v.Rewards(lane).amount - w.Rewards(lane).amount
       == At(k.arrived, lane) - At(h.arrived, lane) - (At(k.spent, lane) - At(h.spent, lane))
    && At(k.arrived, lane) >= At(h.arrived, lane) && At(k.spent, lane) >= At(h.spent, lane)
  }

  lemma {:induction false} DuesFall(before: seq<LoanState>, after: seq<LoanState>, f: LoanState -> int)
    requires |after| == |before| && forall p :: 0 <= p < |before| ==> f(after[p]) <= f(before[p])
    ensures Sum(after, f) <= Sum(before, f)
  {
    if before == [] {
    } else {
      DuesFall(before[..|before| - 1], after[..|before| - 1], f);
    }
  }

  lemma PassingKeepsPayouts(w: World, v: World, h: Audit, k: Audit)
    requires PayoutsHold(w, h) && Passes(w, v, h, k)
    ensures PayoutsHold(v, k)
  {
    forall lane: Lane ensures LaneHolds(v, k, lane) {
      assert At(h.taken, lane) >= 0;
      DuesFall(w.loans, v.loans, DueOn(lane));
      assert v.Rewards(lane).amount >= 0 && BalanceMoves(w, v, h, k, lane);
    }
  }

  lemma SameBalances(w: World, v: World, h: Audit)
    requires v.watches == w.watches && DuesOnlyFall(w, v)
    requires forall lane: Lane :: v.Rewards(lane).amount == w.Rewards(lane).amount
    ensures Passes(w, v, h, h)
  {
    forall lane: Lane ensures BalanceMoves(w, v, h, h, lane) {
      assert v.Rewards(lane).amount == w.Rewards(lane).amount;
    }
  }

  lemma SameRewards(w: World, v: World)
    requires v.rewards == w.rewards
    ensures forall lane: Lane :: v.Rewards(lane).amount == w.Rewards(lane).amount
  {
  }

  lemma RepayLeavesDues(w: World, loan: nat, maxAmount: u64)
    requires Sound(w) && DoRepay(w, loan, maxAmount).Ok?
    ensures var v := DoRepay(w, loan, maxAmount).value;
            DuesOnlyFall(w, v) && v.rewards == w.rewards && v.watches == w.watches
  {
    var l := w.loans[loan];
    SettleMoves(w.pool, w.Account(l.operator), l, w.clock, maxAmount);
  }

  lemma RepayPasses(w: World, h: Audit, loan: nat, maxAmount: u64)
    requires Sound(w) && DoRepay(w, loan, maxAmount).Ok?
    ensures Passes(w, DoRepay(w, loan, maxAmount).value, h, h)
  {
    RepayLeavesDues(w, loan, maxAmount);
    SameRewards(w, DoRepay(w, loan, maxAmount).value);
    SameBalances(w, DoRepay(w, loan, maxAmount).value, h);
  }

  lemma ReceivePasses(w: World, h: Audit, lane: Lane, amount: u64)
    requires Step(w, Receive(lane, amount)).Ok?
    ensures Passes(w, Step(w, Receive(lane, amount)).value, h, h.(arrived := Add(h.arrived, lane, amount)))
  {
    var v := Step(w, Receive(lane, amount)).value;
    var k := h.(arrived := Add(h.arrived, lane, amount));
    forall other: Lane ensures BalanceMoves(w, v, h, k, other) {
      if other == lane {
        assert v.Rewards(other).amount == w.Rewards(other).amount + amount;
      }
    }
    assert v.loans == w.loans && v.watches == w.watches;
  }

  lemma SpendPasses(w: World, h: Audit, lane: Lane, amount: u64)
    requires Step(w, Spend(lane, amount)).Ok?
    ensures Passes(w, Step(w, Spend(lane, amount)).value, h, h.(spent := Add(h.spent, lane, amount)))
  {
    var v := Step(w, Spend(lane, amount)).value;
    var k := h.(spent := Add(h.spent, lane, amount));
    forall other: Lane ensures BalanceMoves(w, v, h, k, other) {
      if other == lane {
        assert v.Rewards(other).amount == w.Rewards(other).amount - amount;
      }
    }
    assert v.loans == w.loans && v.watches == w.watches;
  }

  predicate LeavesLoansAlone(a: Action) {
    !a.Borrow? && !a.Repay? && !a.Sweep? && !a.Receive? && !a.Spend?
  }

  lemma OthersPass(w: World, h: Audit, a: Action)
    requires LeavesLoansAlone(a) && Step(w, a).Ok?
    ensures Passes(w, Step(w, a).value, h, h)
  {
    var v := Step(w, a).value;
    assert v.loans == w.loans && v.watches == w.watches;
    if a.Delegate? {
      forall lane: Lane ensures v.Rewards(lane).amount == w.Rewards(lane).amount {}
    } else {
      assert v.rewards == w.rewards;
      SameRewards(w, v);
    }
    SameBalances(w, v, h);
  }

  lemma StepPasses(w: World, h: Audit, a: Action)
    requires Sound(w) && |h.agreed| == |h.withheld| == |w.loans| && !a.Borrow? && !a.Sweep? && Step(w, a).Ok?
    ensures Passes(w, Step(w, a).value, h, Noted(w, h, a))
  {
    match a
    case Repay(loan, maxAmount) => RepayPasses(w, h, loan, maxAmount);
    case Receive(lane, amount) => ReceivePasses(w, h, lane, amount);
    case Spend(lane, amount) => SpendPasses(w, h, lane, amount);
    case _ => OthersPass(w, h, a);
  }

  lemma StepKeepsPayouts(w: World, h: Audit, a: Action)
    requires Sound(w) && PayoutsHold(w, h) && Step(w, a).Ok?
    ensures PayoutsHold(Step(w, a).value, Noted(w, h, a))
  {
    match a
    case Borrow(t, passed) => BorrowKeepsPayouts(w, h, t, passed);
    case Sweep(operator, mint, rate, passed) => SweepKeepsPayouts(w, h, operator, mint, rate, passed);
    case _ =>
      StepPasses(w, h, a);
      PassingKeepsPayouts(w, Step(w, a).value, h, Noted(w, h, a));
  }

  lemma LoansAfter(w: World, a: Action)
    ensures Step(w, a).Ok? ==> |Step(w, a).value.loans| == |w.loans| + (if a.Borrow? then 1 else 0)
  {
  }

  /** The audit of a run from a world without loans. */
  function AuditOf(w: World, actions: seq<Action>): (h: Audit)
    requires w.loans == []
    ensures |h.agreed| == |h.withheld| == |Run(w, actions).loans|
  {
    if actions == [] then NOTHING_SEEN else
    var n := |actions| - 1;
    var before, h := Run(w, actions[..n]), AuditOf(w, actions[..n]);
    LoansAfter(before, actions[n]);
    if Step(before, actions[n]).Ok? then Noted(before, h, actions[n]) else h
  }

  lemma NothingSeenHolds(clock: i64, baseAprBps: u16, slopeAprBps: u16)
    ensures PayoutsHold(NewWorld(clock, baseAprBps, slopeAprBps), NOTHING_SEEN)
  {
  }

  /** In every run: each loan's tokens withheld and still due stay within its agreed shares of the
      payouts measured while it was open; and over all the loans of a reward account, those stay
      within the payouts measured since its watch started, which stay within the tokens that
      arrived since. No token is counted as a payout twice. */
  lemma {:induction false} RunKeepsPayouts(clock: i64, baseAprBps: u16, slopeAprBps: u16, actions: seq<Action>)
    requires 0 <= clock && baseAprBps + slopeAprBps <= U16_MAX
    ensures PayoutsHold(Run(NewWorld(clock, baseAprBps, slopeAprBps), actions),
                        AuditOf(NewWorld(clock, baseAprBps, slopeAprBps), actions))
  {
    var w := NewWorld(clock, baseAprBps, slopeAprBps);
    if actions == [] {
      NothingSeenHolds(clock, baseAprBps, slopeAprBps);
    } else {
      var n := |actions| - 1;
      RunKeepsPayouts(clock, baseAprBps, slopeAprBps, actions[..n]);
      RunKeepsSound(clock, baseAprBps, slopeAprBps, actions[..n]);
      if Step(Run(w, actions[..n]), actions[n]).Ok? {
        StepKeepsPayouts(Run(w, actions[..n]), AuditOf(w, actions[..n]), actions[n]);
      }
    }
  }

  // ----- Nothing is forgotten ---------------------------------------------------------------

  /** The balance over the watch is exactly what arrived and was neither spent nor measured, but for
      what sweeps found missing, which was spent. */
  predicate AllCounted(w: World, h: Audit, lane: Lane) {
    lane in w.watches ==>
      && w.Rewards(lane).amount - w.watches[lane]
         == At(h.arrived, lane) - At(h.spent, lane) - At(h.measured, lane) + At(h.missed, lane)
      && At(h.missed, lane) <= At(h.spent, lane)
  }

  ghost predicate CountsHold(w: World, h: Audit) {
    forall lane: Lane {:trigger At(h.spent, lane)} :: AllCounted(w, h, lane)
  }

  lemma DuesNotNegative(w: World, lane: Lane)
    ensures Sum(w.loans, DueOn(lane)) >= 0
  {
    SumAtMost(w.loans, (l: LoanState) => 0, DueOn(lane));
    SumZero(w.loans, (l: LoanState) => 0);
  }

  /** The counts before and after a sweep of a balance against its watch. */
  lemma SweptCount(balance: nat, watch: nat, arrived: nat, spent: nat, measured: nat, missed: nat)
    requires balance - watch == arrived - spent - measured + missed && missed <= spent
    requires measured + Max(balance - watch, 0) <= arrived
    ensures 0 == arrived - spent - (measured + Max(balance - watch, 0)) + (missed + Max(watch - balance, 0))
    ensures missed + Max(watch - balance, 0) <= spent
  {
  }

  lemma CountsAfterSweep(w: World, h: Audit, lane: Lane, at: seq<nat>, payout: u64, o: Sweeping.Swept, other: Lane)
    requires |h.agreed| == |h.withheld| == |w.loans| && Present(w.loans, at) && |o.measured.withheld| == |at|
    requires lane in w.watches && payout == PayoutOf(w, lane)
    ensures var k := SweptAudit(w, h, lane, at, payout, o);
            && At(k.arrived, other) == At(h.arrived, other) && At(k.spent, other) == At(h.spent, other)
            && At(k.measured, other)
               == At(h.measured, other)
                  + (if other == lane then Max(w.Rewards(lane).amount - w.watches[lane], 0) else 0)
            && At(k.missed, other)
               == At(h.missed, other)
                  + (if other == lane then Max(w.watches[lane] - w.Rewards(lane).amount, 0) else 0)
  {
  }

  lemma SweptCounts(w: World, v: World, h: Audit, lane: Lane, at: seq<nat>, payout: u64, o: Sweeping.Swept, other: Lane)
    requires SharesHold(w, h) && AllCounted(w, h, other) && LaneHolds(w, h, other)
    requires Audited(w, v, lane, at, payout, o)
    ensures AllCounted(v, SweptAudit(w, h, lane, at, payout, o), other)
  {
    CountsAfterSweep(w, h, lane, at, payout, o, other);
    if other == lane {
      DuesNotNegative(w, lane);
      SweptCount(w.Rewards(lane).amount, w.watches[lane], At(h.arrived, lane), At(h.spent, lane), At(h.measured, lane),
                 At(h.missed, lane));
      assert v.Rewards(lane) == o.reward && v.watches[lane] == o.reward.amount;
    } else {
      assert v.Rewards(other) == w.Rewards(other);
    }
  }

  lemma SweepKeepsCounts(w: World, h: Audit, operator: nat, mint: nat, rate: u64, passed: seq<nat>)
    requires Sound(w) && PayoutsHold(w, h) && CountsHold(w, h) && DoSweep(w, operator, mint, rate, passed).Ok?
    ensures CountsHold(DoSweep(w, operator, mint, rate, passed).value,
                       SweepNoted(w, h, operator, mint, rate, passed))
  {
    SweepIsAudited(w, operator, mint, rate, passed);
    AuditedKeepsCounts(w, DoSweep(w, operator, mint, rate, passed).value, h, (operator, mint),
                       Swept(w, operator, mint, passed).value, PayoutOf(w, (operator, mint)),
                       OutcomeOf(w, operator, mint, rate, passed));
  }

  lemma AuditedKeepsCounts(w: World, v: World, h: Audit, lane: Lane, at: seq<nat>, payout: u64, o: Sweeping.Swept)
    requires PayoutsHold(w, h) && CountsHold(w, h) && Audited(w, v, lane, at, payout, o)
    ensures CountsHold(v, SweptAudit(w, h, lane, at, payout, o))
  {
    var k := SweptAudit(w, h, lane, at, payout, o);
    forall other: Lane ensures AllCounted(v, k, other) {
      assert At(h.taken, other) >= 0 && At(h.spent, other) >= 0;
      SweptCounts(w, v, h, lane, at, payout, o, other);
    }
  }

  lemma LentCounts(w: World, v: World, h: Audit, lane: Lane, other: Lane)
    requires AllCounted(w, h, other) && Lent(w, v, lane)
    ensures AllCounted(v, BorrowAudit(w, h, lane), other)
  {
    CountsAfterBorrow(w, h, lane, other);
    assert v.Rewards(other).amount == w.Rewards(other).amount;
  }

  lemma LentKeepsCounts(w: World, v: World, h: Audit, lane: Lane)
    requires CountsHold(w, h) && Lent(w, v, lane)
    ensures CountsHold(v, BorrowAudit(w, h, lane))
  {
    var k := BorrowAudit(w, h, lane);
    forall other: Lane ensures AllCounted(v, k, other) {
      assert At(h.spent, other) >= 0;
      LentCounts(w, v, h, lane, other);
    }
  }

  lemma PassingKeepsCounts(w: World, v: World, h: Audit, k: Audit)
    requires CountsHold(w, h) && Passes(w, v, h, k)
    ensures CountsHold(v, k)
  {
    forall lane: Lane ensures AllCounted(v, k, lane) {
      assert At(h.spent, lane) >= 0 && v.Rewards(lane).amount >= 0 && BalanceMoves(w, v, h, k, lane);
    }
  }

  lemma StepKeepsCounts(w: World, h: Audit, a: Action)
    requires Sound(w) && PayoutsHold(w, h) && CountsHold(w, h) && Step(w, a).Ok?
    ensures CountsHold(Step(w, a).value, Noted(w, h, a))
  {
    match a
    case Borrow(t, passed) =>
      BorrowLends(w, t, passed);
      LentKeepsCounts(w, Step(w, a).value, h, (t.operator, t.rewardMint));
    case Sweep(operator, mint, rate, passed) => SweepKeepsCounts(w, h, operator, mint, rate, passed);
    case _ =>
      StepPasses(w, h, a);
      PassingKeepsCounts(w, Step(w, a).value, h, Noted(w, h, a));
  }

  /** In every run, for every reward account: what is over its watch is exactly what arrived since the
      watch started and was neither spent nor measured as a payout, but for what sweeps found missing,
      and no more is ever missing than was spent. */
  lemma {:induction false} RunCountsAll(clock: i64, baseAprBps: u16, slopeAprBps: u16, actions: seq<Action>)
    requires 0 <= clock && baseAprBps + slopeAprBps <= U16_MAX
    ensures CountsHold(Run(NewWorld(clock, baseAprBps, slopeAprBps), actions),
                       AuditOf(NewWorld(clock, baseAprBps, slopeAprBps), actions))
  {
    var w := NewWorld(clock, baseAprBps, slopeAprBps);
    if actions == [] {
    } else {
      var n := |actions| - 1;
      RunCountsAll(clock, baseAprBps, slopeAprBps, actions[..n]);
      RunKeepsPayouts(clock, baseAprBps, slopeAprBps, actions[..n]);
      RunKeepsSound(clock, baseAprBps, slopeAprBps, actions[..n]);
      if Step(Run(w, actions[..n]), actions[n]).Ok? {
        StepKeepsCounts(Run(w, actions[..n]), AuditOf(w, actions[..n]), actions[n]);
      }
    }
  }

  /** In every run: if nothing of a reward account was spent since its watch started, every token that
      arrived and was not yet measured is still over the watch, for the next sweep to measure. */
  lemma {:induction false} NothingIsForgotten(clock: i64, baseAprBps: u16, slopeAprBps: u16, actions: seq<Action>,
                                              lane: Lane)
    requires 0 <= clock && baseAprBps + slopeAprBps <= U16_MAX
    requires lane in Run(NewWorld(clock, baseAprBps, slopeAprBps), actions).watches
    requires At(AuditOf(NewWorld(clock, baseAprBps, slopeAprBps), actions).spent, lane) == 0
    ensures var w := Run(NewWorld(clock, baseAprBps, slopeAprBps), actions);
            var h := AuditOf(NewWorld(clock, baseAprBps, slopeAprBps), actions);
            At(h.arrived, lane) - At(h.measured, lane) == w.Rewards(lane).amount - w.watches[lane]
  {
    RunCountsAll(clock, baseAprBps, slopeAprBps, actions);
  }

  /** A sweep measures all that is over the watch, and leaves the watch on what is left. */
  lemma SweepMeasuresTheSurplus(w: World, h: Audit, operator: nat, mint: nat, rate: u64, passed: seq<nat>)
    requires |h.agreed| == |h.withheld| == |w.loans|
    requires Sound(w) && DoSweep(w, operator, mint, rate, passed).Ok?
    ensures var lane, v := (operator, mint), DoSweep(w, operator, mint, rate, passed).value;
            && lane in w.watches && lane in v.watches && v.watches[lane] == v.Rewards(lane).amount
            && At(SweepNoted(w, h, operator, mint, rate, passed).measured, lane)
               == At(h.measured, lane) + Max(w.Rewards(lane).amount - w.watches[lane], 0)
  {
    SweepIsAudited(w, operator, mint, rate, passed);
    CountsAfterSweep(w, h, (operator, mint), Swept(w, operator, mint, passed).value, PayoutOf(w, (operator, mint)),
                     OutcomeOf(w, operator, mint, rate, passed), (operator, mint));
  }
}
