/** The price of a share over whole runs: no transaction dilutes, and only closing loans rounds. */
module PriceRuns {
  import opened Numbers
  import opened Sums
  import opened Loans
  import opened Pools
  import opened Settlement
  import opened SharePrice
  import opened Protocol
  import opened Ledger
  import opened Solvency
  import opened FastForm
  import Lenders
  import Borrowing
  import Sweeping
  import SweepFacts
  import Conversions

  function ValueOf(w: World): int {
    w.pool.WorthAt(w.clock)
  }

  /** The loans a step closed: what was open, and what it issued, less what is open after it. */
  function Closed(w: World, v: World): int {
    Sum(w.loans, OpenCount) + (|v.loans| - |w.loans|) - Sum(v.loans, OpenCount)
  }

  /** The value of the pool at this second dropped by at most one unit per closed loan, and rose
      by nothing. */
  predicate ValueStays(w: World, v: World) {
    && v.clock == w.clock && v.pool.totalShares == w.pool.totalShares
    && Closed(w, v) >= 0
    && ValueOf(w) - Closed(w, v) <= ValueOf(v) <= ValueOf(w)
  }

  lemma KeptValueStays(w: World, v: World)
    requires Sound(w) && Sound(v) && v.clock == w.clock && v.pool.totalShares == w.pool.totalShares
    requires Closed(w, v) >= 0 && ValueKept(w.pool, v.pool, w.clock, Closed(w, v))
    ensures ValueStays(w, v)
  {
    EarnedIsTheLoans(w);
    EarnedIsTheLoans(v);
    WorthDropsByClosed(w.pool, v.pool, w.clock, Closed(w, v));
  }

  lemma OneCount(l: LoanState)
    ensures Sum([l], OpenCount) == OpenCount(l)
  {
    assert [l][..0] == [];
  }

  lemma RepayValueStays(w: World, loan: nat, maxAmount: u64)
    requires Sound(w) && DoRepay(w, loan, maxAmount).Ok?
    ensures var v := DoRepay(w, loan, maxAmount).value;
            && ValueStays(w, v) && Closed(w, v) == (if v.loans[loan].IsOpen() then 0 else 1)
  {
    var v := DoRepay(w, loan, maxAmount).value;
    var l := w.loans[loan];
    RepayKeepsSound(w, loan, maxAmount);
    SettleMoves(w.pool, w.Account(l.operator), l, w.clock, maxAmount);
    SettleKeepsValue(w.pool, w.Account(l.operator), l, w.clock, maxAmount);
    SumUpdate(w.loans, loan, v.loans[loan], OpenCount);
    KeptValueStays(w, v);
  }

  lemma {:induction false} OneMoreOpen(mine: seq<LoanState>, before: seq<LoanState>, issued: LoanState)
    requires Sum(mine, OpenCount) == Sum(before, OpenCount) && issued.IsOpen()
    ensures Sum(mine + [issued], OpenCount) == Sum(before, OpenCount) + 1
  {
    SumConcat(mine, [issued], OpenCount);
    OneCount(issued);
  }

  lemma IssuedClosesNothing(w: World, v: World, t: Borrowing.Terms, passed: seq<nat>, r: Borrowing.Borrowed)
    requires Present(w.loans, passed) && BorrowKept(w, t, passed, r)
    requires Moved(w, v, t.operator, passed, r.books.loans, [r.loan], -(t.amount as int))
    ensures Closed(w, v) == 0
  {
    AllStillOpen(Gather(w.loans, passed), passed, t, r, w.clock);
    OneMoreOpen(r.books.loans, Gather(w.loans, passed), r.loan);
    MovedSum(w, v, t.operator, passed, r.books.loans, [r.loan], -(t.amount as int), OpenCount);
  }

  lemma BorrowClosesNothing(w: World, t: Borrowing.Terms, passed: seq<nat>)
    requires Sound(w) && DoBorrow(w, t, passed).Ok?
    ensures Closed(w, DoBorrow(w, t, passed).value) == 0
  {
    BorrowMoves(w, t, passed);
    IssuedClosesNothing(w, DoBorrow(w, t, passed).value, t, passed, IssueOf(w, t, passed));
  }

  lemma BorrowValueStays(w: World, t: Borrowing.Terms, passed: seq<nat>)
    requires Sound(w) && DoBorrow(w, t, passed).Ok?
    ensures var v := DoBorrow(w, t, passed).value;
            && ValueStays(w, v) && Closed(w, v) == 0
  {
    BorrowClosesNothing(w, t, passed);
    BorrowMoves(w, t, passed);
    BorrowKeepsSound(w, t, passed);
    KeptValueStays(w, DoBorrow(w, t, passed).value);
  }

  lemma {:induction false} AllStillOpen(loans: seq<LoanState>, passed: seq<nat>, t: Borrowing.Terms,
                                        r: Borrowing.Borrowed, now: i64)
    requires |passed| == |loans| == |r.books.loans|
    requires forall i :: 0 <= i < |loans| ==> Borrowing.BroughtUp(passed, loans, t.operator, i, r.books.loans[i], now)
    ensures Sum(r.books.loans, OpenCount) == Sum(loans, OpenCount)
  {
    forall i | 0 <= i < |loans| ensures OpenCount(r.books.loans[i]) == OpenCount(loans[i]) {
      assert Borrowing.BroughtUp(passed, loans, t.operator, i, r.books.loans[i], now);
    }
    SumSame(r.books.loans, loans, OpenCount);
  }

  /** A sweep of open loans closes what is no longer open of them. */
  lemma {:induction false} SweptClosed(loans: seq<LoanState>, at: seq<nat>, mine: seq<LoanState>)
    requires |mine| == |at| && Present(loans, at) && DistinctPlaces(at)
    requires forall i :: 0 <= i < |at| ==> loans[at[i]].IsOpen()
    ensures var closed := Sum(loans, OpenCount) - Sum(Scatter(loans, at, mine), OpenCount);
            closed == Sum(Gather(loans, at), OpenCount) - Sum(mine, OpenCount) >= 0
  {
    ScatterSum(loans, at, mine, OpenCount);
    SumOfOnes(Gather(loans, at), OpenCount);
    SumAtMost(mine, OpenCount, (l: LoanState) => 1);
    SumOfOnes(mine, (l: LoanState) => 1);
  }

  lemma SweptKeptValue(w: World, operator: nat, mint: nat, rate: u64, at: seq<nat>, o: Sweeping.Swept)
    requires Present(w.loans, at) && (operator, mint) in w.watches && mint in w.conversions
    requires SweepKept(w, operator, mint, rate, at, o)
    ensures o.books.pool.totalShares == w.pool.totalShares
    ensures ValueKept(w.pool, o.books.pool, w.clock,
                      Sum(Gather(w.loans, at), OpenCount) - Sum(o.books.loans, OpenCount))
  {
    SweptFacts(Books(w.pool, w.Account(operator), Gather(w.loans, at)), w.Rewards((operator, mint)),
               w.watches[(operator, mint)], w.conversions[mint].terms, rate, o, w.clock);
  }

  lemma SweptFacts(b: Books, reward: Sweeping.RewardAccount, watch: u64, terms: Conversions.ConversionTerms, rate: u64,
                   o: Sweeping.Swept, now: int)
    requires SweepFacts.SweepHolds(b, reward, watch, terms, rate, o, now)
    ensures o.books.pool.totalShares == b.pool.totalShares
    ensures ValueKept(b.pool, o.books.pool, now, Sum(b.loans, OpenCount) - Sum(o.books.loans, OpenCount))
  {
  }

  lemma SweptStays(w: World, v: World, operator: nat, mint: nat, at: seq<nat>, o: Sweeping.Swept)
    requires Sound(w) && Sound(v) && WrittenBack(w, v, operator, mint, at, o)
    requires DistinctPlaces(at) && forall i :: 0 <= i < |at| ==> w.loans[at[i]].IsOpen()
    requires o.books.pool.totalShares == w.pool.totalShares
    requires ValueKept(w.pool, o.books.pool, w.clock,
                       Sum(Gather(w.loans, at), OpenCount) - Sum(o.books.loans, OpenCount))
    ensures ValueStays(w, v)
  {
    SweptClosed(w.loans, at, o.books.loans);
    KeptValueStays(w, v);
  }

  lemma SweepValueStays(w: World, operator: nat, mint: nat, rate: u64, passed: seq<nat>)
    requires Sound(w) && DoSweep(w, operator, mint, rate, passed).Ok?
    ensures ValueStays(w, DoSweep(w, operator, mint, rate, passed).value)
  {
    var at := Swept(w, operator, mint, passed).value;
    var o := OutcomeOf(w, operator, mint, rate, passed);
    SweepKeepsSound(w, operator, mint, rate, passed);
    SweepMoves(w, operator, mint, rate, passed);
    SweptPlaces(w, operator, mint, passed);
    SweptKeptValue(w, operator, mint, rate, at, o);
    SweptStays(w, DoSweep(w, operator, mint, rate, passed).value, operator, mint, at, o);
  }

  // ----- No dilution ------------------------------------------------------------------------

  /** No step takes from those who hold shares: per share the value is kept, but for one unit per
      loan the step closed. */
  predicate PriceKept(w: World, v: World) {
    ValueOf(v) * w.pool.totalShares >= (ValueOf(w) - Closed(w, v)) * v.pool.totalShares
  }

  lemma StaysKeepsPrice(w: World, v: World)
    requires ValueStays(w, v)
    ensures PriceKept(w, v)
  {
    MulMonotone(ValueOf(w) - Closed(w, v), ValueOf(v), w.pool.totalShares);
  }

  lemma LenderStepKeepsPrice(w: World, a: Action)
    requires Sound(w) && w.pool.totalShares > 0 && (a.Deposit? || a.Withdraw?) && Step(w, a).Ok?
    ensures PriceKept(w, Step(w, a).value) && Closed(w, Step(w, a).value) == 0
  {
    match a
    case Deposit(lender, amount) =>
      var lenders: seq<u64> := if lender == |w.lenders| then w.lenders + [0] else w.lenders;
      Lenders.DepositKeepsPrice(w.pool, lenders[lender], amount, w.clock);
    case Withdraw(lender, maxAmount) =>
      Lenders.WithdrawalKeepsPrice(w.pool, w.lenders[lender], maxAmount, w.clock);
  }

  lemma OutsideKeepsPrice(w: World, a: Action)
    requires Sound(w) && TouchesNoBook(a) && Step(w, a).Ok?
    ensures PriceKept(w, Step(w, a).value) && Closed(w, Step(w, a).value) == 0
  {
    var v := Step(w, a).value;
    TimeRaisesWorth(w.pool, w.clock, v.clock);
    MulMonotone(ValueOf(w), ValueOf(v), w.pool.totalShares);
  }

  /** Every step of every kind, the passing of time included. */
  lemma StepKeepsPrice(w: World, a: Action)
    requires Sound(w) && w.pool.totalShares > 0 && Step(w, a).Ok?
    ensures PriceKept(w, Step(w, a).value) && Closed(w, Step(w, a).value) >= 0
  {
    match a
    case Borrow(t, passed) =>
      BorrowValueStays(w, t, passed);
      StaysKeepsPrice(w, Step(w, a).value);
    case Repay(loan, maxAmount) =>
      RepayValueStays(w, loan, maxAmount);
      StaysKeepsPrice(w, Step(w, a).value);
    case Sweep(operator, mint, rate, passed) =>
      SweepValueStays(w, operator, mint, rate, passed);
      StaysKeepsPrice(w, Step(w, a).value);
    case _ =>
      if TouchesNoBook(a) { OutsideKeepsPrice(w, a); } else { LenderStepKeepsPrice(w, a); }
  }

  // ----- Over a run -------------------------------------------------------------------------

  function Price(w: World): real
    requires w.pool.totalShares > 0
  {
    ValueOf(w) as real / w.pool.totalShares as real
  }

  function After(w: World, a: Action): World {
    if Step(w, a).Ok? then Step(w, a).value else w
  }

  /** Some lender holds a share all along. */
  predicate AlwaysShares(w: World, actions: seq<Action>) {
    && Run(w, actions).pool.totalShares > 0
    && (actions != [] ==> AlwaysShares(w, actions[..|actions| - 1]))
  }

  /** What closing loans may have cost a share: for each step, a unit per loan it closed, split
      over the shares there were. */
  function RoundingLoss(w: World, actions: seq<Action>): real
    requires AlwaysShares(w, actions)
  {
    if actions == [] then 0.0 else
    var n := |actions| - 1;
    var before := Run(w, actions[..n]);
    RoundingLoss(w, actions[..n]) + Closed(before, After(before, actions[n])) as real / before.pool.totalShares as real
  }

  lemma PriceInReals(v: int, s: int, k: int, v': int, s': int)
    requires s > 0 && s' > 0 && v' * s >= (v - k) * s'
    ensures v' as real / s' as real >= v as real / s as real - k as real / s as real
  {
    var x, y := v' as real / s' as real, (v - k) as real / s as real;
    assert x * s' as real == v' as real && y * s as real == (v - k) as real;
    assert (v' * s) as real == v' as real * s as real && ((v - k) * s') as real == (v - k) as real * s' as real;
    assert (x - y) * (s as real * s' as real) >= 0.0;
    assert s as real * s' as real > 0.0;
    assert y == v as real / s as real - k as real / s as real;
  }

  lemma AfterKeepsPrice(w: World, a: Action)
    requires Sound(w) && w.pool.totalShares > 0
    ensures PriceKept(w, After(w, a))
  {
    if Step(w, a).Ok? {
      StepKeepsPrice(w, a);
    }
  }

  lemma StepPrice(w: World, v: World)
    requires w.pool.totalShares > 0 && v.pool.totalShares > 0 && PriceKept(w, v)
    ensures Price(v) >= Price(w) - Closed(w, v) as real / w.pool.totalShares as real
  {
    PriceInReals(ValueOf(w), w.pool.totalShares, Closed(w, v), ValueOf(v), v.pool.totalShares);
  }

  lemma {:induction false} LastStep(w: World, actions: seq<Action>)
    requires actions != []
    ensures Run(w, actions) == After(Run(w, actions[..|actions| - 1]), actions[|actions| - 1])
  {
  }

  lemma {:induction false} RunStaysSound(w: World, actions: seq<Action>)
    requires Sound(w)
    ensures Sound(Run(w, actions))
  {
    if actions == [] {
    } else {
      var n := |actions| - 1;
      RunStaysSound(w, actions[..n]);
      LastStep(w, actions);
      if Step(Run(w, actions[..n]), actions[n]).Ok? {
        StepKeepsSound(Run(w, actions[..n]), actions[n]);
      }
    }
  }

  /** Over any run in which shares are out all along, the price of a share falls by no more than
      the closed loans' roundings: by nothing at all if no loan is closed. */
  lemma {:induction false} RunKeepsPrice(w: World, actions: seq<Action>)
    requires Sound(w) && w.pool.totalShares > 0 && AlwaysShares(w, actions)
    ensures Price(Run(w, actions)) >= Price(w) - RoundingLoss(w, actions)
  {
    if actions == [] {
    } else {
      var n := |actions| - 1;
      RunKeepsPrice(w, actions[..n]);
      RunStaysSound(w, actions[..n]);
      LastStep(w, actions);
      AfterKeepsPrice(Run(w, actions[..n]), actions[n]);
      StepPrice(Run(w, actions[..n]), Run(w, actions));
    }
  }

  // ----- Split among the lenders ------------------------------------------------------------

  /** What each lender's shares are worth. */
  function Worths(pool: PoolBook, lenders: seq<u64>, now: int): seq<int>
    requires pool.totalShares > 0
  {
    seq(|lenders|, i requires 0 <= i < |lenders| => Lenders.WorthOf(pool, lenders[i], now))
  }

  /** `n` lenders hold `shares` of `total`, worth `worths` together: no more than their part of the
      value, and less by under one unit each. */
  predicate SplitOf(value: int, total: int, shares: int, worths: int, n: int) {
    total * worths <= shares * value <= total * worths + (total - 1) * n
  }

  lemma OneMoreLender(value: int, total: int, shares: int, worths: int, n: int, share: int)
    requires total > 0 && SplitOf(value, total, shares, worths, n)
    ensures SplitOf(value, total, shares + share, worths + share * value / total, n + 1)
  {
    var worth := share * value / total;
    DivBounds(share * value, total);
    assert (shares + share) * value == shares * value + share * value;
    assert total * (worths + worth) == total * worths + total * worth;
    assert (total - 1) * (n + 1) == (total - 1) * n + (total - 1);
  }

  lemma FirstLenders(pool: PoolBook, lenders: seq<u64>, worths: seq<int>, now: int, n: nat)
    requires pool.totalShares > 0 && n <= |lenders| && worths == Worths(pool, lenders, now)
    ensures SplitOf(pool.WorthAt(now), pool.totalShares, Total(lenders[..n]), Total(worths[..n]), n)
  {
    if n == 0 {
    } else {
      FirstLenders(pool, lenders, worths, now, n - 1);
      TotalStep(lenders, n - 1);
      TotalStep(worths, n - 1);
      OneMoreLender(pool.WorthAt(now), pool.totalShares, Total(lenders[..n - 1]), Total(worths[..n - 1]), n - 1,
                    lenders[n - 1]);
    }
  }

  /** In every sound world with shares out, the lenders' shares are together worth no more than the
      pool, and less by fewer units than there are lenders. */
  lemma LendersShareTheWorth(w: World)
    requires Sound(w) && w.pool.totalShares > 0
    ensures var all := Total(Worths(w.pool, w.lenders, w.clock));
            all <= ValueOf(w) < all + |w.lenders|
  {
    var n, worths := |w.lenders|, Worths(w.pool, w.lenders, w.clock);
    FirstLenders(w.pool, w.lenders, worths, w.clock, n);
    assert w.lenders[..n] == w.lenders && worths[..n] == worths && n > 0;
    ShortOfWorth(ValueOf(w), w.pool.totalShares, Total(worths), n);
  }

  lemma ShortOfWorth(value: int, total: int, worths: int, n: int)
    requires total > 0 && n > 0 && SplitOf(value, total, total, worths, n)
    ensures worths <= value < worths + n
  {
    assert total * (worths + n) == total * worths + (total - 1) * n + n;
    if value < worths {
      MulStrict(value, worths, total);
    } else if value >= worths + n {
      MulMonotone(worths + n, value, total);
    }
  }
}
