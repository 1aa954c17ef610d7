/** The books over every run: each running sum is the sum it stands for, in every reachable state. */
module Ledger {
  import opened Outcomes
  import opened Numbers
  import opened Sums
  import opened Loans
  import opened Operators
  import opened Settlement
  import opened Protocol
  import Borrowing
  import Sweeping
  import SweepFacts
  import OpenLoans

  /** What one operator's loans add up to. */
  function DebtOwedBy(operator: nat): LoanState -> int {
    (l: LoanState) => if l.operator == operator then l.Debt() else 0
  }

  function OpenLoansOf(operator: nat): LoanState -> int {
    (l: LoanState) => if l.operator == operator then OpenCount(l) else 0
  }

  /** The pool's five sums over the loans, the lenders' shares and the cash in the vault. */
  predicate PoolBalances(w: World) {
    && w.pool.totalBorrowed == Sum(w.loans, Outstanding)
    && w.pool.accruedInterest == Sum(w.loans, Accrued)
    && w.pool.accrualRate == Sum(w.loans, RateOf)
    && w.pool.accrualRateTime == Sum(w.loans, RateTimeOf)
    && w.pool.accrualRemainders == Sum(w.loans, RemainderOf)
    && w.pool.totalShares == Total(w.lenders)
    && w.vault == w.pool.totalDeposits - w.pool.totalBorrowed
  }

  ghost predicate OperatorsBalance(w: World) {
    forall operator: nat {:trigger w.Account(operator)} ::
      && w.Account(operator).totalDebt == Sum(w.loans, DebtOwedBy(operator))
      && w.Account(operator).openLoans == Sum(w.loans, OpenLoansOf(operator))
  }

  predicate LoansWellFormed(w: World) {
    forall i :: 0 <= i < |w.loans| ==> w.loans[i].WellFormed(w.clock)
  }

  ghost predicate Sound(w: World) {
    && 0 <= w.clock
    && LoansWellFormed(w)
    && PoolBalances(w)
    && OperatorsBalance(w)
    && w.pool.baseAprBps + w.pool.slopeAprBps <= U16_MAX
    && (forall mint :: mint in w.conversions ==> w.conversions[mint].terms.Accepted())
  }

  // ----- Writing loans back -----------------------------------------------------------------

  predicate DistinctPlaces(at: seq<nat>) {
    forall i, j :: 0 <= i < j < |at| ==> at[i] != at[j]
  }

  lemma {:induction false} ScatterElsewhere(loans: seq<LoanState>, at: seq<nat>, mine: seq<LoanState>, p: nat)
    requires |mine| == |at| && Present(loans, at) && p < |loans| && p !in at
    ensures Scatter(loans, at, mine)[p] == loans[p]
  {
    if at == [] {
    } else {
      ScatterElsewhere(loans, at[..|at| - 1], mine[..|at| - 1], p);
    }
  }

  lemma {:induction false} ScatterThere(loans: seq<LoanState>, at: seq<nat>, mine: seq<LoanState>, i: nat)
    requires |mine| == |at| && Present(loans, at) && DistinctPlaces(at) && i < |at|
    ensures Scatter(loans, at, mine)[at[i]] == mine[i]
  {
    var n := |at| - 1;
    if i == n {
    } else {
      ScatterThere(loans, at[..n], mine[..n], i);
    }
  }

  lemma {:induction false} ScatterSum(loans: seq<LoanState>, at: seq<nat>, mine: seq<LoanState>, f: LoanState -> int)
    requires |mine| == |at| && Present(loans, at) && DistinctPlaces(at)
    ensures Sum(Scatter(loans, at, mine), f) == Sum(loans, f) - Sum(Gather(loans, at), f) + Sum(mine, f)
  {
    if at == [] {
    } else {
      var n := |at| - 1;
      ScatterSum(loans, at[..n], mine[..n], f);
      ScatterElsewhere(loans, at[..n], mine[..n], at[n]);
      assert Gather(loans, at)[..n] == Gather(loans, at[..n]);
      SumUpdate(Scatter(loans, at[..n], mine[..n]), at[n], mine[n], f);
    }
  }

  /** Every loan of the result is one written back or one left alone. */
  lemma ScatterCovers(loans: seq<LoanState>, at: seq<nat>, mine: seq<LoanState>, p: nat) returns (i: int)
    requires |mine| == |at| && Present(loans, at) && DistinctPlaces(at) && p < |loans|
    ensures -1 <= i < |at|
    ensures i == -1 ==> p !in at && Scatter(loans, at, mine)[p] == loans[p]
    ensures i >= 0 ==> at[i] == p && Scatter(loans, at, mine)[p] == mine[i]
  {
    if p in at {
      i :| 0 <= i < |at| && at[i] == p;
      ScatterThere(loans, at, mine, i);
    } else {
      i := -1;
      ScatterElsewhere(loans, at, mine, p);
    }
  }

  // ----- One operator's loans move ----------------------------------------------------------

  predicate AllOf(loans: seq<LoanState>, operator: nat) {
    forall i :: 0 <= i < |loans| ==> loans[i].operator == operator
  }

  lemma {:induction false} OwnSums(loans: seq<LoanState>, operator: nat, other: nat)
    requires AllOf(loans, operator)
    ensures Sum(loans, DebtOwedBy(other)) == if other == operator then Sum(loans, Debt) else 0
    ensures Sum(loans, OpenLoansOf(other)) == if other == operator then Sum(loans, OpenCount) else 0
  {
    if other == operator {
      SumAtMost(loans, DebtOwedBy(other), Debt);
      SumAtMost(loans, Debt, DebtOwedBy(other));
      SumAtMost(loans, OpenLoansOf(other), OpenCount);
      SumAtMost(loans, OpenCount, OpenLoansOf(other));
    } else {
      SumZero(loans, DebtOwedBy(other));
      SumZero(loans, OpenLoansOf(other));
    }
  }

  /** A transaction that touched one operator's loans `at`, leaving them as `mine`, and appended
      `issued`; `paid` stablecoin came into the vault. */
  ghost predicate Moved(w: World, v: World, operator: nat, at: seq<nat>, mine: seq<LoanState>, issued: seq<LoanState>,
                        paid: int) {
    && |mine| == |at| && Present(w.loans, at) && DistinctPlaces(at)
    && AllOf(Gather(w.loans, at), operator) && AllOf(mine, operator) && AllOf(issued, operator)
    && v.loans == Scatter(w.loans, at, mine) + issued
    && v.operators == w.operators[operator := v.Account(operator)]
    && v.vault == w.vault + paid
    && v.lenders == w.lenders && v.clock == w.clock
    && exists account: OperatorState ::
         && account.totalDebt == w.Account(operator).totalDebt && account.openLoans == w.Account(operator).openLoans
         && BooksFollow(Books(w.pool, account, Gather(w.loans, at)),
                   Books(v.pool, v.Account(operator), mine + issued), paid)
  }

  lemma {:induction false} MovedSum(w: World, v: World, operator: nat, at: seq<nat>, mine: seq<LoanState>,
                                    issued: seq<LoanState>, paid: int, f: LoanState -> int)
    requires Moved(w, v, operator, at, mine, issued, paid)
    ensures Sum(v.loans, f) == Sum(w.loans, f) + Sum(mine + issued, f) - Sum(Gather(w.loans, at), f)
  {
    ScatterSum(w.loans, at, mine, f);
    SumConcat(Scatter(w.loans, at, mine), issued, f);
    SumConcat(mine, issued, f);
  }

  lemma MovedKeepsPool(w: World, v: World, operator: nat, at: seq<nat>, mine: seq<LoanState>, issued: seq<LoanState>,
                       paid: int)
    requires PoolBalances(w) && Moved(w, v, operator, at, mine, issued, paid)
    ensures PoolBalances(v)
  {
    MovedSum(w, v, operator, at, mine, issued, paid, Outstanding);
    MovedSum(w, v, operator, at, mine, issued, paid, Accrued);
    MovedSum(w, v, operator, at, mine, issued, paid, RateOf);
    MovedSum(w, v, operator, at, mine, issued, paid, RateTimeOf);
    MovedSum(w, v, operator, at, mine, issued, paid, RemainderOf);
  }

  lemma MovedKeepsOperators(w: World, v: World, operator: nat, at: seq<nat>, mine: seq<LoanState>,
                            issued: seq<LoanState>, paid: int)
    requires OperatorsBalance(w) && Moved(w, v, operator, at, mine, issued, paid)
    ensures OperatorsBalance(v)
  {
    forall other: nat
      ensures v.Account(other).totalDebt == Sum(v.loans, DebtOwedBy(other))
      ensures v.Account(other).openLoans == Sum(v.loans, OpenLoansOf(other))
    {
      MovedSum(w, v, operator, at, mine, issued, paid, DebtOwedBy(other));
      MovedSum(w, v, operator, at, mine, issued, paid, OpenLoansOf(other));
      OwnSums(Gather(w.loans, at), operator, other);
      OwnSums(mine + issued, operator, other);
      assert w.Account(other).totalDebt == Sum(w.loans, DebtOwedBy(other));
    }
  }

  lemma MovedKeepsLoans(w: World, v: World, operator: nat, at: seq<nat>, mine: seq<LoanState>, issued: seq<LoanState>,
                        paid: int)
    requires LoansWellFormed(w) && Moved(w, v, operator, at, mine, issued, paid)
    requires forall i :: 0 <= i < |mine| ==> mine[i].WellFormed(w.clock)
    requires forall i :: 0 <= i < |issued| ==> issued[i].WellFormed(w.clock)
    ensures LoansWellFormed(v)
  {
    forall p | 0 <= p < |v.loans| ensures v.loans[p].WellFormed(v.clock) {
      if p < |w.loans| {
        var i := ScatterCovers(w.loans, at, mine, p);
      }
    }
  }

  /** A soundness-keeping move: all a transaction on loans has to show. */
  ghost predicate SoundMove(w: World, v: World, operator: nat, at: seq<nat>, mine: seq<LoanState>,
                            issued: seq<LoanState>, paid: int) {
    && Moved(w, v, operator, at, mine, issued, paid)
    && (forall i :: 0 <= i < |mine| ==> mine[i].WellFormed(w.clock))
    && (forall i :: 0 <= i < |issued| ==> issued[i].WellFormed(w.clock))
  }

  lemma SoundMoveKeeps(w: World, v: World, operator: nat, at: seq<nat>, mine: seq<LoanState>, issued: seq<LoanState>,
                       paid: int)
    requires Sound(w) && SoundMove(w, v, operator, at, mine, issued, paid)
    requires forall mint :: mint in v.conversions ==>
      mint in w.conversions && v.conversions[mint].terms == w.conversions[mint].terms
    ensures Sound(v)
  {
    MovedKeepsLoans(w, v, operator, at, mine, issued, paid);
    MovedKeepsPool(w, v, operator, at, mine, issued, paid);
    MovedKeepsOperators(w, v, operator, at, mine, issued, paid);
  }

  // ----- The transactions -------------------------------------------------------------------

  lemma BooksFollowHere(b: Books)
    ensures BooksFollow(b, b, 0)
  {
  }

  lemma RepayMoves(w: World, loan: nat, maxAmount: u64)
    requires Sound(w) && DoRepay(w, loan, maxAmount).Ok?
    ensures var v := DoRepay(w, loan, maxAmount).value;
            && loan < |w.loans| == |v.loans| && v.vault >= w.vault
            && SoundMove(w, v, w.loans[loan].operator, [loan], [v.loans[loan]], [], v.vault - w.vault)
  {
    var v := DoRepay(w, loan, maxAmount).value;
    var l, operator := w.loans[loan], w.loans[loan].operator;
    var s := Settle(w.pool, w.Account(operator), l, w.clock, maxAmount).value;
    SettleMoves(w.pool, w.Account(operator), l, w.clock, maxAmount);
    var b, d := Books(w.pool, w.Account(operator), [l]), Books(s.pool, s.account, [s.loan]);
    assert Gather(w.loans, [loan]) == [l];
    BooksFollowHere(b);
    assert d.loans == b.loans[0 := d.loans[0]];
    FollowOne(b, b, 0, 0, s.paid, d);
    assert [s.loan] + [] == [s.loan];
    assert Scatter(w.loans, [loan], [s.loan]) == w.loans[loan := s.loan] by {
      assert [loan][..0] == [] && [s.loan][..0] == [];
      assert Scatter(w.loans, [], []) == w.loans;
    }
  }

  /** What a borrow that went through computed. */
  function IssueOf(w: World, t: Borrowing.Terms, passed: seq<nat>): Borrowing.Borrowed
    requires DoBorrow(w, t, passed).Ok?
  {
    var lane := (t.operator, t.rewardMint);
    Borrowing.Borrow(Books(w.pool, w.Account(t.operator), Gather(w.loans, passed)), passed, t,
                     w.Watch(lane), w.Rewards(lane).amount, w.clock).value
  }

  /** The world after a borrow's outcome `r` is written back. */
  predicate PaidOut(w: World, v: World, t: Borrowing.Terms, passed: seq<nat>, r: Borrowing.Borrowed) {
    var lane := (t.operator, t.rewardMint);
    && Present(w.loans, passed) && |r.books.loans| == |passed|
    && v.loans == Scatter(w.loans, passed, r.books.loans) + [r.loan]
    && v.pool == r.books.pool
    && v.operators == w.operators[t.operator := r.books.account]
    && v.rewards == w.rewards[lane := Sweeping.RewardAccount(w.Rewards(lane).amount, Some(r.allowance))]
    && v.watches == w.watches[lane := r.watch]
    && v.vault == w.vault - t.amount
    && v.lenders == w.lenders && v.clock == w.clock && v.conversions == w.conversions
  }

  lemma BorrowPaysOut(w: World, t: Borrowing.Terms, passed: seq<nat>)
    requires DoBorrow(w, t, passed).Ok?
    ensures PaidOut(w, DoBorrow(w, t, passed).value, t, passed, IssueOf(w, t, passed))
  {
  }

  /** What a borrow guarantees of the loans handed over. */
  predicate BorrowKept(w: World, t: Borrowing.Terms, passed: seq<nat>, r: Borrowing.Borrowed)
    requires Present(w.loans, passed)
  {
    Borrowing.BorrowHolds(Books(w.pool, w.Account(t.operator), Gather(w.loans, passed)), passed, t, r, w.clock)
  }

  lemma BorrowIsKept(w: World, t: Borrowing.Terms, passed: seq<nat>)
    requires Sound(w) && DoBorrow(w, t, passed).Ok?
    ensures Present(w.loans, passed) && BorrowKept(w, t, passed, IssueOf(w, t, passed))
  {
    var lane := (t.operator, t.rewardMint);
    Borrowing.BorrowKeeps(Books(w.pool, w.Account(t.operator), Gather(w.loans, passed)), passed, t, w.Watch(lane),
                          w.Rewards(lane).amount, w.clock);
  }

  lemma PaidOutMoves(w: World, v: World, t: Borrowing.Terms, passed: seq<nat>, r: Borrowing.Borrowed)
    requires PaidOut(w, v, t, passed, r) && BorrowKept(w, t, passed, r)
    ensures SoundMove(w, v, t.operator, passed, r.books.loans, [r.loan], -(t.amount as int))
  {
    var b := Books(w.pool, w.Account(t.operator), Gather(w.loans, passed));
    ListedLoans(b, passed, t, r, w.clock);
    var account := b.account.(window := r.books.account.window);
    assert BooksFollow(Books(w.pool, account, b.loans), Books(v.pool, v.Account(t.operator), r.books.loans + [r.loan]),
                       -(t.amount as int));
  }

  lemma BorrowMoves(w: World, t: Borrowing.Terms, passed: seq<nat>)
    requires Sound(w) && DoBorrow(w, t, passed).Ok?
    ensures var v, r := DoBorrow(w, t, passed).value, IssueOf(w, t, passed);
            && PaidOut(w, v, t, passed, r)
            && BorrowKept(w, t, passed, r)
            && SoundMove(w, v, t.operator, passed, r.books.loans, [r.loan], -(t.amount as int))
  {
    BorrowPaysOut(w, t, passed);
    BorrowIsKept(w, t, passed);
    PaidOutMoves(w, DoBorrow(w, t, passed).value, t, passed, IssueOf(w, t, passed));
  }

  lemma ListedLoans(b: Books, passed: seq<nat>, t: Borrowing.Terms, r: Borrowing.Borrowed, now: i64)
    requires |passed| == |b.loans| && Borrowing.BorrowHolds(b, passed, t, r, now)
    ensures DistinctPlaces(passed) && AllOf(b.loans, t.operator) && AllOf(r.books.loans, t.operator)
    ensures forall i :: 0 <= i < |b.loans| ==> b.loans[i].IsOpen() && r.books.loans[i].WellFormed(now)
  {
    forall i | 0 <= i < |passed|
      ensures Borrowing.ListedOnce(passed, b.loans, t.operator, i)
      ensures Borrowing.OnlyAccrued(b.loans[i], r.books.loans[i], now)
    {
      assert Borrowing.BroughtUp(passed, b.loans, t.operator, i, r.books.loans[i], now);
    }
    forall i, j | 0 <= i < j < |passed| ensures passed[i] != passed[j] {
      assert Borrowing.ListedOnce(passed, b.loans, t.operator, j);
      assert passed[i] in passed[..j];
    }
  }

  /** Every loan handed over is a different open loan of the operator. */
  predicate AllHandedOver(loans: seq<LoanState>, passed: seq<nat>, operator: nat) {
    && Present(loans, passed) && DistinctPlaces(passed)
    && forall p :: p in passed ==> p < |loans| && loans[p].operator == operator && loans[p].IsOpen()
  }

  lemma HandedOver(loans: seq<LoanState>, passed: seq<nat>, operator: nat)
    requires Present(loans, passed) && OpenLoans.AllOpenOf(passed, Gather(loans, passed), operator)
    ensures AllHandedOver(loans, passed, operator)
  {
    var mine := Gather(loans, passed);
    forall i, j | 0 <= i < j < |passed| ensures passed[i] != passed[j] {
      assert passed[j] !in passed[..j];
      assert passed[i] in passed[..j];
    }
    forall p | p in passed ensures p < |loans| && loans[p].operator == operator && loans[p].IsOpen() {
      var k :| 0 <= k < |passed| && passed[k] == p;
      assert mine[k] == loans[p];
    }
  }

  /** The places picked are those of the token's loans among them. */
  lemma PickedPlaces(loans: seq<LoanState>, passed: seq<nat>, operator: nat, mint: nat, order: seq<nat>)
    requires AllHandedOver(loans, passed, operator) && OpenLoans.InRange(order, |passed|)
    requires forall k :: k in order <==> 0 <= k < |passed| && Gather(loans, passed)[k].rewardMint == mint
    requires forall i, j :: 0 <= i < j < |order| ==> order[i] != order[j]
    ensures var at := Pick(passed, order);
            && DistinctPlaces(at)
            && (forall i :: 0 <= i < |at| ==>
                  && at[i] < |loans| && loans[at[i]].operator == operator && loans[at[i]].IsOpen()
                  && loans[at[i]].rewardMint == mint)
            && (forall p :: p in passed && loans[p].rewardMint == mint ==> p in at)
  {
    var mine, at := Gather(loans, passed), Pick(passed, order);
    forall i | 0 <= i < |at|
      ensures loans[at[i]].operator == operator && loans[at[i]].IsOpen() && loans[at[i]].rewardMint == mint
    {
      assert order[i] in order;
      assert mine[order[i]] == loans[at[i]] && at[i] in passed;
    }
    forall p | p in passed && loans[p].rewardMint == mint ensures p in at {
      var k :| 0 <= k < |passed| && passed[k] == p;
      assert mine[k] == loans[p] && k in order;
      var i :| 0 <= i < |order| && order[i] == k;
      assert at[i] == p;
    }
  }

  lemma SweptPlaces(w: World, operator: nat, mint: nat, passed: seq<nat>)
    requires Swept(w, operator, mint, passed).Ok?
    ensures var at := Swept(w, operator, mint, passed).value;
            && DistinctPlaces(at)
            && (forall i :: 0 <= i < |at| ==>
                  w.loans[at[i]].operator == operator && w.loans[at[i]].IsOpen() && w.loans[at[i]].rewardMint == mint)
            && Present(w.loans, passed) && DistinctPlaces(passed)
            && |passed| == w.Account(operator).openLoans
            && (forall p :: p in passed ==> p < |w.loans| && w.loans[p].operator == operator && w.loans[p].IsOpen())
            && (forall p :: p in passed && w.loans[p].rewardMint == mint ==> p in at)
  {
    var mine := Gather(w.loans, passed);
    var openLoans := w.Account(operator).openLoans;
    OpenLoans.OldestFirstIsComplete(passed, mine, operator, openLoans, mint);
    HandedOver(w.loans, passed, operator);
    PickedPlaces(w.loans, passed, operator, mint,
                 OpenLoans.OldestFirst(passed, mine, operator, openLoans, mint).value);
  }

  /** What a sweep that went through computed. */
  function OutcomeOf(w: World, operator: nat, mint: nat, rate: u64, passed: seq<nat>): Sweeping.Swept
    requires DoSweep(w, operator, mint, rate, passed).Ok?
  {
    var at := Swept(w, operator, mint, passed).value;
    Sweeping.Sweep(Books(w.pool, w.Account(operator), Gather(w.loans, at)), w.Rewards((operator, mint)),
                   w.watches[(operator, mint)], w.conversions[mint].terms, w.conversions[mint].stable, rate,
                   w.clock).value
  }

  /** The market gave stablecoin and got rewards; no other market and no terms moved. */
  predicate MarketTrades(w: World, v: World, mint: nat, paid: nat, withheld: nat)
    requires mint in w.conversions
  {
    && v.conversions.Keys == w.conversions.Keys
    && v.conversions[mint].stable == w.conversions[mint].stable - paid
    && v.conversions[mint].rewards == w.conversions[mint].rewards + withheld
    && v.conversions[mint].terms == w.conversions[mint].terms
    && forall m :: m in w.conversions && m != mint ==> v.conversions[m] == w.conversions[m]
  }

  /** The operator's loans at `at` after a sweep's outcome `o` is written back. */
  predicate WrittenBack(w: World, v: World, operator: nat, mint: nat, at: seq<nat>, o: Sweeping.Swept) {
    && Present(w.loans, at) && |o.books.loans| == |at|
    && v.loans == Scatter(w.loans, at, o.books.loans)
    && v.pool == o.books.pool
    && v.operators == w.operators[operator := o.books.account]
    && v.rewards == w.rewards[(operator, mint) := o.reward]
    && v.watches == w.watches[(operator, mint) := o.watch]
    && v.vault == w.vault + o.paid
    && v.lenders == w.lenders && v.clock == w.clock
    && mint in w.conversions && MarketTrades(w, v, mint, o.paid, o.withheld)
  }

  /** What a sweep guarantees of the loans it worked on. */
  predicate SweepKept(w: World, operator: nat, mint: nat, rate: u64, at: seq<nat>, o: Sweeping.Swept)
    requires Present(w.loans, at) && (operator, mint) in w.watches && mint in w.conversions
  {
    SweepFacts.SweepHolds(Books(w.pool, w.Account(operator), Gather(w.loans, at)), w.Rewards((operator, mint)),
                          w.watches[(operator, mint)], w.conversions[mint].terms, rate, o, w.clock)
  }

  lemma SweepWritesBack(w: World, operator: nat, mint: nat, rate: u64, passed: seq<nat>)
    requires DoSweep(w, operator, mint, rate, passed).Ok?
    ensures WrittenBack(w, DoSweep(w, operator, mint, rate, passed).value, operator, mint,
                        Swept(w, operator, mint, passed).value, OutcomeOf(w, operator, mint, rate, passed))
  {
  }

  lemma SweepIsKept(w: World, operator: nat, mint: nat, rate: u64, passed: seq<nat>)
    requires Sound(w) && DoSweep(w, operator, mint, rate, passed).Ok?
    ensures SweepKept(w, operator, mint, rate, Swept(w, operator, mint, passed).value,
                      OutcomeOf(w, operator, mint, rate, passed))
  {
    var at := Swept(w, operator, mint, passed).value;
    SweptPlaces(w, operator, mint, passed);
    SweepFacts.SweepKeeps(Books(w.pool, w.Account(operator), Gather(w.loans, at)), w.Rewards((operator, mint)),
                          w.watches[(operator, mint)], w.conversions[mint].terms, w.conversions[mint].stable, rate,
                          w.clock);
  }

  lemma WrittenBackMoves(w: World, v: World, operator: nat, mint: nat, rate: u64, at: seq<nat>, o: Sweeping.Swept)
    requires WrittenBack(w, v, operator, mint, at, o) && (operator, mint) in w.watches
    requires SweepKept(w, operator, mint, rate, at, o)
    requires DistinctPlaces(at) && AllOf(Gather(w.loans, at), operator)
    ensures SoundMove(w, v, operator, at, o.books.loans, [], o.paid)
  {
    var b := Books(w.pool, w.Account(operator), Gather(w.loans, at));
    var payout := Sweeping.Payout(w.Rewards((operator, mint)), w.watches[(operator, mint)]);
    forall i | 0 <= i < |at| ensures o.books.loans[i].operator == operator && o.books.loans[i].WellFormed(w.clock) {
      assert SweepFacts.LoanSwept(b.loans[i], o, i, payout, w.clock);
    }
    assert o.books.loans + [] == o.books.loans && v.loans + [] == v.loans;
    assert BooksFollow(b, Books(v.pool, v.Account(operator), o.books.loans + []), o.paid);
  }

  lemma SweepMoves(w: World, operator: nat, mint: nat, rate: u64, passed: seq<nat>)
    requires Sound(w) && DoSweep(w, operator, mint, rate, passed).Ok?
    ensures var v := DoSweep(w, operator, mint, rate, passed).value;
            var at := Swept(w, operator, mint, passed).value;
            var o := OutcomeOf(w, operator, mint, rate, passed);
            && WrittenBack(w, v, operator, mint, at, o)
            && SweepKept(w, operator, mint, rate, at, o)
            && SoundMove(w, v, operator, at, o.books.loans, [], o.paid)
  {
    var v := DoSweep(w, operator, mint, rate, passed).value;
    var at := Swept(w, operator, mint, passed).value;
    var o := OutcomeOf(w, operator, mint, rate, passed);
    SweptPlaces(w, operator, mint, passed);
    SweepWritesBack(w, operator, mint, rate, passed);
    SweepIsKept(w, operator, mint, rate, passed);
    WrittenBackMoves(w, v, operator, mint, rate, at, o);
  }

  lemma DepositKeepsSound(w: World, lender: nat, amount: u64)
    requires Sound(w) && DoDeposit(w, lender, amount).Ok?
    ensures Sound(DoDeposit(w, lender, amount).value)
  {
    var v := DoDeposit(w, lender, amount).value;
    var lenders: seq<u64> := if lender == |w.lenders| then w.lenders + [0] else w.lenders;
    TotalAppend(w.lenders, 0);
    TotalUpdate(lenders, lender, v.lenders[lender]);
    SameOperators(w, v);
  }

  lemma WithdrawKeepsSound(w: World, lender: nat, maxAmount: u64)
    requires Sound(w) && DoWithdraw(w, lender, maxAmount).Ok?
    ensures Sound(DoWithdraw(w, lender, maxAmount).value)
  {
    var v := DoWithdraw(w, lender, maxAmount).value;
    TotalUpdate(w.lenders, lender, v.lenders[lender]);
    SameOperators(w, v);
  }

  lemma SameOperators(w: World, v: World)
    requires OperatorsBalance(w) && v.operators == w.operators && v.loans == w.loans
    ensures OperatorsBalance(v)
  {
    forall operator: nat
      ensures v.Account(operator).totalDebt == Sum(v.loans, DebtOwedBy(operator))
      ensures v.Account(operator).openLoans == Sum(v.loans, OpenLoansOf(operator))
    {
      assert v.Account(operator) == w.Account(operator);
    }
  }

  lemma OlderStayWellFormed(w: World, v: World)
    requires LoansWellFormed(w) && v.loans == w.loans && w.clock <= v.clock
    ensures LoansWellFormed(v)
  {
    forall i | 0 <= i < |v.loans| ensures v.loans[i].WellFormed(v.clock) {
      assert w.loans[i].WellFormed(w.clock);
    }
  }

  lemma BorrowKeepsSound(w: World, t: Borrowing.Terms, passed: seq<nat>)
    requires Sound(w) && DoBorrow(w, t, passed).Ok?
    ensures Sound(DoBorrow(w, t, passed).value)
  {
    var r := IssueOf(w, t, passed);
    BorrowMoves(w, t, passed);
    SoundMoveKeeps(w, DoBorrow(w, t, passed).value, t.operator, passed, r.books.loans, [r.loan], -(t.amount as int));
  }

  lemma RepayKeepsSound(w: World, loan: nat, maxAmount: u64)
    requires Sound(w) && DoRepay(w, loan, maxAmount).Ok?
    ensures Sound(DoRepay(w, loan, maxAmount).value)
  {
    var v := DoRepay(w, loan, maxAmount).value;
    RepayMoves(w, loan, maxAmount);
    SoundMoveKeeps(w, v, w.loans[loan].operator, [loan], [v.loans[loan]], [], v.vault - w.vault);
  }

  lemma SweepKeepsSound(w: World, operator: nat, mint: nat, rate: u64, passed: seq<nat>)
    requires Sound(w) && DoSweep(w, operator, mint, rate, passed).Ok?
    ensures Sound(DoSweep(w, operator, mint, rate, passed).value)
  {
    var o := OutcomeOf(w, operator, mint, rate, passed);
    SweepMoves(w, operator, mint, rate, passed);
    SoundMoveKeeps(w, DoSweep(w, operator, mint, rate, passed).value, operator, Swept(w, operator, mint, passed).value,
                   o.books.loans, [], o.paid);
  }

  /** A step that touches no book: the clock, a market, or a reward account outside the program. */
  predicate TouchesNoBook(a: Action) {
    a.Tick? || a.OpenConversion? || a.FundConversion? || a.Receive? || a.Spend? || a.Delegate?
  }

  lemma OutsideKeepsSound(w: World, a: Action)
    requires Sound(w) && TouchesNoBook(a) && Step(w, a).Ok?
    ensures Sound(Step(w, a).value)
  {
    SameOperators(w, Step(w, a).value);
    OlderStayWellFormed(w, Step(w, a).value);
  }

  /** Every transaction keeps the books sound. */
  lemma StepKeepsSound(w: World, a: Action)
    requires Sound(w) && Step(w, a).Ok?
    ensures Sound(Step(w, a).value)
  {
    match a
    case Deposit(lender, amount) => DepositKeepsSound(w, lender, amount);
    case Withdraw(lender, maxAmount) => WithdrawKeepsSound(w, lender, maxAmount);
    case Borrow(t, passed) => BorrowKeepsSound(w, t, passed);
    case Repay(loan, maxAmount) => RepayKeepsSound(w, loan, maxAmount);
    case Sweep(operator, mint, rate, passed) => SweepKeepsSound(w, operator, mint, rate, passed);
    case _ => OutsideKeepsSound(w, a);
  }

  lemma NewWorldIsSound(clock: i64, baseAprBps: u16, slopeAprBps: u16)
    requires 0 <= clock && baseAprBps + slopeAprBps <= U16_MAX
    ensures Sound(NewWorld(clock, baseAprBps, slopeAprBps))
  {
  }

  /** After any run of transactions from an empty pool, refused ones included, every book is what
      it stands for: the five pool sums over the loans, each operator's debt and open loans over
      theirs, the shares over the lenders, and the vault's cash. */
  lemma {:induction false} RunKeepsSound(clock: i64, baseAprBps: u16, slopeAprBps: u16, actions: seq<Action>)
    requires 0 <= clock && baseAprBps + slopeAprBps <= U16_MAX
    ensures Sound(Run(NewWorld(clock, baseAprBps, slopeAprBps), actions))
  {
    if actions == [] {
      NewWorldIsSound(clock, baseAprBps, slopeAprBps);
    } else {
      var n := |actions| - 1;
      RunKeepsSound(clock, baseAprBps, slopeAprBps, actions[..n]);
      var before := Run(NewWorld(clock, baseAprBps, slopeAprBps), actions[..n]);
      if Step(before, actions[n]).Ok? {
        StepKeepsSound(before, actions[n]);
      }
    }
  }
}
