/** No nonce is ever spent twice in any run, so an operator's loans are told apart by theirs, and a
    sweep comes out the same in whatever order its caller lists the loans. */
module Nonces {
  import opened Outcomes
  import opened Numbers
  import opened Sorting
  import opened Loans
  import opened Operators
  import opened Settlement
  import opened Protocol
  import opened Ledger
  import opened Solvency
  import Borrowing
  import Sweeping
  import SweepFacts
  import OpenLoans

  // ----- A window only ever remembers more --------------------------------------------------

  /** What the window refuses: below its floor, or marked. */
  predicate Spent(window: NonceWindow, nonce: nat) {
    nonce < window.floor || (nonce < window.floor + NONCE_WINDOW && Marked(window.words, nonce - window.floor))
  }

  lemma SlideKeepsSpent(window: NonceWindow, nonce: u64, n: nat)
    requires nonce >= window.floor && Spent(window, n)
    ensures Spent(window.SlideTo(nonce), n)
  {
    var slid := window.SlideTo(nonce);
    if slid != window && n >= slid.floor {
      ShiftedMarks(window.words, slid.floor - window.floor, n - slid.floor);
    }
  }

  /** An accepted nonce is refused from then on, and so is every nonce refused before. */
  lemma ConsumeSpends(window: NonceWindow, nonce: u64, n: nat)
    requires window.Consume(nonce).Ok?
    ensures var after := window.Consume(nonce).value;
            Spent(after, nonce) && (Spent(window, n) ==> Spent(after, n))
  {
    var slid := window.SlideTo(nonce);
    MarkedAfterMark(slid.words, nonce - slid.floor, nonce - slid.floor);
    if Spent(window, n) {
      SlideKeepsSpent(window, nonce, n);
      if n >= slid.floor {
        MarkedAfterMark(slid.words, nonce - slid.floor, n - slid.floor);
      }
    }
  }

  lemma SpentIsRefused(window: NonceWindow, nonce: u64)
    requires Spent(window, nonce)
    ensures window.Consume(nonce).Err?
  {
    if nonce >= window.floor {
      SlideKeepsSpent(window, nonce, nonce);
    }
  }

  // ----- Loans keep what they are -----------------------------------------------------------

  /** Every loan is the one it was, and at most new ones came after. */
  predicate Continues(before: seq<LoanState>, after: seq<LoanState>) {
    |before| <= |after| && forall i :: 0 <= i < |before| ==> SameLoan(before[i], after[i])
  }

  lemma {:induction false} ScatterContinues(loans: seq<LoanState>, at: seq<nat>, mine: seq<LoanState>)
    requires |mine| == |at| && Present(loans, at) && DistinctPlaces(at)
    requires forall i :: 0 <= i < |at| ==> SameLoan(loans[at[i]], mine[i])
    ensures Continues(loans, Scatter(loans, at, mine))
  {
    forall p | 0 <= p < |loans| ensures SameLoan(loans[p], Scatter(loans, at, mine)[p]) {
      var i := ScatterCovers(loans, at, mine, p);
    }
  }

  /** The windows after a step are the ones before it, but for the borrower's. */
  ghost predicate WindowsKept(w: World, v: World) {
    forall operator: nat {:trigger v.Account(operator)} :: v.Account(operator).window == w.Account(operator).window
  }

  lemma RepayContinues(w: World, loan: nat, maxAmount: u64)
    requires Sound(w) && DoRepay(w, loan, maxAmount).Ok?
    ensures var v := DoRepay(w, loan, maxAmount).value;
            Continues(w.loans, v.loans) && |v.loans| == |w.loans| && WindowsKept(w, v)
  {
    var l := w.loans[loan];
    SettleMoves(w.pool, w.Account(l.operator), l, w.clock, maxAmount);
  }

  lemma SweepContinues(w: World, operator: nat, mint: nat, rate: u64, passed: seq<nat>)
    requires Sound(w) && DoSweep(w, operator, mint, rate, passed).Ok?
    ensures var v := DoSweep(w, operator, mint, rate, passed).value;
            Continues(w.loans, v.loans) && |v.loans| == |w.loans| && WindowsKept(w, v)
  {
    var v := DoSweep(w, operator, mint, rate, passed).value;
    var at := Swept(w, operator, mint, passed).value;
    var o := OutcomeOf(w, operator, mint, rate, passed);
    SweepMoves(w, operator, mint, rate, passed);
    SweptContinue(w, v, operator, mint, rate, at, o);
  }

  lemma SweptContinue(w: World, v: World, operator: nat, mint: nat, rate: u64, at: seq<nat>, o: Sweeping.Swept)
    requires WrittenBack(w, v, operator, mint, at, o) && (operator, mint) in w.watches && DistinctPlaces(at)
    requires SweepKept(w, operator, mint, rate, at, o)
    ensures Continues(w.loans, v.loans) && |v.loans| == |w.loans| && WindowsKept(w, v)
  {
    var payout := Sweeping.Payout(w.Rewards((operator, mint)), w.watches[(operator, mint)]);
    forall i | 0 <= i < |at| ensures SameLoan(w.loans[at[i]], o.books.loans[i]) {
      assert SweepFacts.LoanSwept(Gather(w.loans, at)[i], o, i, payout, w.clock);
    }
    ScatterContinues(w.loans, at, o.books.loans);
  }

  /** A borrow appends one loan, spends its nonce, and touches no other operator's account. */
  ghost predicate Appends(w: World, v: World, operator: nat, nonce: u64) {
    && Continues(w.loans, v.loans) && |v.loans| == |w.loans| + 1
    && v.loans[|w.loans|].operator == operator && v.loans[|w.loans|].nonce == nonce
    && w.Account(operator).window.Consume(nonce) == Ok(v.Account(operator).window)
    && forall other: nat {:trigger v.Account(other)} :: other != operator ==> v.Account(other) == w.Account(other)
  }

  lemma PaidOutAppends(w: World, v: World, t: Borrowing.Terms, passed: seq<nat>, r: Borrowing.Borrowed)
    requires PaidOut(w, v, t, passed, r) && BorrowKept(w, t, passed, r) && DistinctPlaces(passed)
    ensures Appends(w, v, t.operator, t.nonce)
  {
    forall i | 0 <= i < |passed| ensures SameLoan(w.loans[passed[i]], r.books.loans[i]) {
      assert Borrowing.BroughtUp(passed, Gather(w.loans, passed), t.operator, i, r.books.loans[i], w.clock);
    }
    ScatterContinues(w.loans, passed, r.books.loans);
  }

  lemma BorrowContinues(w: World, t: Borrowing.Terms, passed: seq<nat>)
    requires Sound(w) && DoBorrow(w, t, passed).Ok?
    ensures Appends(w, DoBorrow(w, t, passed).value, t.operator, t.nonce)
  {
    BorrowMoves(w, t, passed);
    PaidOutAppends(w, DoBorrow(w, t, passed).value, t, passed, IssueOf(w, t, passed));
  }

  // ----- Over every run ---------------------------------------------------------------------

  /** Each loan's nonce is spent on its operator's account, and no two loans of one operator share
      one. */
  predicate NoncesHold(w: World) {
    && (forall i :: 0 <= i < |w.loans| ==> Spent(w.Account(w.loans[i].operator).window, w.loans[i].nonce))
    && (forall i, j :: 0 <= i < j < |w.loans| && w.loans[i].operator == w.loans[j].operator ==>
          w.loans[i].nonce != w.loans[j].nonce)
  }

  lemma ContinuingKeepsNonces(w: World, v: World)
    requires NoncesHold(w) && Continues(w.loans, v.loans) && |v.loans| == |w.loans| && WindowsKept(w, v)
    ensures NoncesHold(v)
  {
  }

  lemma BorrowKeepsNonces(w: World, t: Borrowing.Terms, passed: seq<nat>)
    requires Sound(w) && NoncesHold(w) && DoBorrow(w, t, passed).Ok?
    ensures NoncesHold(DoBorrow(w, t, passed).value)
  {
    BorrowContinues(w, t, passed);
    IssuedKeepsNonces(w, DoBorrow(w, t, passed).value, t.operator, t.nonce);
  }

  lemma IssuedKeepsNonces(w: World, v: World, operator: nat, nonce: u64)
    requires NoncesHold(w) && Appends(w, v, operator, nonce)
    ensures NoncesHold(v)
  {
    var window := w.Account(operator).window;
    forall i | 0 <= i < |v.loans|
      ensures Spent(v.Account(v.loans[i].operator).window, v.loans[i].nonce)
      ensures i < |w.loans| && v.loans[i].operator == operator ==> v.loans[i].nonce != nonce
    {
      ConsumeSpends(window, nonce, v.loans[i].nonce);
      if i < |w.loans| && v.loans[i].operator == operator && v.loans[i].nonce == nonce {
        SpentIsRefused(window, nonce);
      }
    }
  }

  lemma OthersKeepNonces(w: World, a: Action)
    requires NoncesHold(w) && !a.Borrow? && !a.Repay? && !a.Sweep? && Step(w, a).Ok?
    ensures NoncesHold(Step(w, a).value)
  {
    assert Step(w, a).value.loans == w.loans && Step(w, a).value.operators == w.operators;
  }

  lemma StepKeepsNonces(w: World, a: Action)
    requires Sound(w) && NoncesHold(w) && Step(w, a).Ok?
    ensures NoncesHold(Step(w, a).value)
  {
    match a
    case Borrow(t, passed) => BorrowKeepsNonces(w, t, passed);
    case Repay(loan, maxAmount) =>
      RepayContinues(w, loan, maxAmount);
      ContinuingKeepsNonces(w, Step(w, a).value);
    case Sweep(operator, mint, rate, passed) =>
      SweepContinues(w, operator, mint, rate, passed);
      ContinuingKeepsNonces(w, Step(w, a).value);
    case _ => OthersKeepNonces(w, a);
  }

  /** In every run, an operator's loans all have different nonces, none of which it can spend
      again. */
  lemma {:induction false} RunKeepsNonces(clock: i64, baseAprBps: u16, slopeAprBps: u16, actions: seq<Action>)
    requires 0 <= clock && baseAprBps + slopeAprBps <= U16_MAX
    ensures NoncesHold(Run(NewWorld(clock, baseAprBps, slopeAprBps), actions))
  {
    if actions == [] {
    } else {
      var n := |actions| - 1;
      RunKeepsNonces(clock, baseAprBps, slopeAprBps, actions[..n]);
      RunKeepsSound(clock, baseAprBps, slopeAprBps, actions[..n]);
      var before := Run(NewWorld(clock, baseAprBps, slopeAprBps), actions[..n]);
      if Step(before, actions[n]).Ok? {
        StepKeepsNonces(before, actions[n]);
      }
    }
  }

  // ----- The caller's order does not show ---------------------------------------------------

  /** The loans at `at` with what they are ordered by. */
  function Ages(w: World, at: seq<nat>): seq<OpenLoans.Aged>
    requires Present(w.loans, at)
  {
    seq(|at|, i requires 0 <= i < |at| => OpenLoans.Aged(at[i], w.loans[at[i]].openedAt, w.loans[at[i]].nonce))
  }

  lemma SameElementsOnce<T>(xs: seq<T>, ys: seq<T>)
    requires forall x :: x in xs <==> x in ys
    requires forall i, j :: 0 <= i < j < |xs| ==> xs[i] != xs[j]
    requires forall i, j :: 0 <= i < j < |ys| ==> ys[i] != ys[j]
    ensures multiset(xs) == multiset(ys)
  {
    forall x ensures multiset(xs)[x] == multiset(ys)[x] {
      OccursOnce(xs, x);
      OccursOnce(ys, x);
      assert x in multiset(xs) <==> x in xs;
      assert x in multiset(ys) <==> x in ys;
    }
  }

  /** What a sweep works on: exactly the operator's open loans repaid from the token, each once, no
      loan before an older one. */
  predicate Canonical(w: World, operator: nat, mint: nat, at: seq<nat>) {
    && Present(w.loans, at) && DistinctPlaces(at)
    && (forall p :: 0 <= p < |w.loans| ==>
          (p in at <==> w.loans[p].operator == operator && w.loans[p].IsOpen() && w.loans[p].rewardMint == mint))
    && (forall i, j :: 0 <= i < j < |at| ==> OpenLoans.NoYounger(w.loans[at[i]], w.loans[at[j]]))
  }

  lemma SweptInOrder(w: World, operator: nat, mint: nat, passed: seq<nat>)
    requires Swept(w, operator, mint, passed).Ok?
    ensures var at := Swept(w, operator, mint, passed).value;
            forall i, j :: 0 <= i < j < |at| ==> OpenLoans.NoYounger(w.loans[at[i]], w.loans[at[j]])
  {
    var mine := Gather(w.loans, passed);
    var order := OpenLoans.OldestFirst(passed, mine, operator, w.Account(operator).openLoans, mint).value;
    OpenLoans.OldestFirstIsComplete(passed, mine, operator, w.Account(operator).openLoans, mint);
    var at := Swept(w, operator, mint, passed).value;
    forall i, j | 0 <= i < j < |at| ensures OpenLoans.NoYounger(w.loans[at[i]], w.loans[at[j]]) {
      assert OpenLoans.NoYounger(mine[order[i]], mine[order[j]]);
    }
  }

  lemma SweptIsCanonical(w: World, operator: nat, mint: nat, passed: seq<nat>)
    requires Sound(w) && Swept(w, operator, mint, passed).Ok?
    ensures Canonical(w, operator, mint, Swept(w, operator, mint, passed).value)
  {
    var at := Swept(w, operator, mint, passed).value;
    SweptPlaces(w, operator, mint, passed);
    SweptInOrder(w, operator, mint, passed);
    forall p |
      0 <= p < |w.loans| && w.loans[p].operator == operator && w.loans[p].IsOpen() && w.loans[p].rewardMint == mint
      ensures p in at
    {
      PassedIsEveryOpenLoan(w, operator, passed, p);
    }
    forall p | p in at ensures w.loans[p].operator == operator && w.loans[p].IsOpen() && w.loans[p].rewardMint == mint {
      var i :| 0 <= i < |at| && at[i] == p;
    }
  }

  lemma SameAges(w: World, operator: nat, mint: nat, at: seq<nat>, other: seq<nat>)
    requires Canonical(w, operator, mint, at) && Canonical(w, operator, mint, other)
    ensures forall a :: a in Ages(w, at) ==> a in Ages(w, other)
  {
    forall a | a in Ages(w, at) ensures a in Ages(w, other) {
      var i :| 0 <= i < |at| && Ages(w, at)[i] == a;
      assert at[i] in at;
      var j :| 0 <= j < |other| && other[j] == at[i];
      assert Ages(w, other)[j] == a;
    }
  }

  lemma AgesAreStrict(w: World, operator: nat, mint: nat, at: seq<nat>)
    requires NoncesHold(w) && Canonical(w, operator, mint, at)
    ensures Strict(Ages(w, at), OpenLoans.Older) && Ordered(Ages(w, at), OpenLoans.Older)
  {
    var ages := Ages(w, at);
    forall a, b | a in ages && b in ages && OpenLoans.Older(a, b) && OpenLoans.Older(b, a) ensures a == b {
      var i :| 0 <= i < |at| && ages[i] == a;
      var j :| 0 <= j < |at| && ages[j] == b;
      assert at[i] in at && at[j] in at;
      assert w.loans[at[i]].operator == w.loans[at[j]].operator;
    }
    forall i, j | 0 <= i < j < |ages| ensures OpenLoans.Older(ages[i], ages[j]) {
      assert OpenLoans.NoYounger(w.loans[at[i]], w.loans[at[j]]);
    }
  }

  lemma CanonicalIsUnique(w: World, operator: nat, mint: nat, at: seq<nat>, other: seq<nat>)
    requires NoncesHold(w) && Canonical(w, operator, mint, at) && Canonical(w, operator, mint, other)
    ensures at == other
  {
    var xs, ys := Ages(w, at), Ages(w, other);
    SameAges(w, operator, mint, at, other);
    SameAges(w, operator, mint, other, at);
    SameElementsOnce(xs, ys);
    AgesAreStrict(w, operator, mint, at);
    AgesAreStrict(w, operator, mint, other);
    OrderedIsUnique(xs, ys, OpenLoans.Older);
    assert |at| == |xs| && |other| == |ys|;
    forall i | 0 <= i < |at| ensures at[i] == other[i] {
      assert xs[i].position == ys[i].position;
    }
  }

  /** Anyone may send a sweep, but in whatever order they list the operator's loans, it does the
      same. */
  lemma CallerCannotPickTheOrder(w: World, operator: nat, mint: nat, rate: u64, passed: seq<nat>, other: seq<nat>)
    requires Sound(w) && NoncesHold(w)
    requires Swept(w, operator, mint, passed).Ok? && Swept(w, operator, mint, other).Ok?
    ensures DoSweep(w, operator, mint, rate, passed) == DoSweep(w, operator, mint, rate, other)
  {
    SweptIsCanonical(w, operator, mint, passed);
    SweptIsCanonical(w, operator, mint, other);
    CanonicalIsUnique(w, operator, mint, Swept(w, operator, mint, passed).value, Swept(w, operator, mint, other).value);
  }
}
