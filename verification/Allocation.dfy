/** One amount split across an operator's loans, in the order their payments are shown. */
module Allocation {
  import opened Outcomes
  import opened Numbers
  import opened Sums
  import opened Sorting
  import opened Loans
  import opened Positions

  const REPAY_ALL_MARGIN_SECONDS: int := 600

  /** Threw stands for the page's exception on a loan that is not open. */
  datatype Allocation = Allocated(perLoan: seq<int>) | Nothing | OverDebt(max: int) | Threw

  /** The most one repayment can take from the loan: its debt a little later. */
  function Cap(l: LoanState, now: int): int {
    l.outstanding + AccrueTo(l, now + REPAY_ALL_MARGIN_SECONDS).0
  }

  function CapAt(now: int): LoanState -> int {
    (l: LoanState) => Cap(l, now)
  }

  function RepayAllAmount(loans: seq<LoanState>, now: int): int {
    Sum(loans, CapAt(now))
  }

  predicate Shown(l: LoanState) {
    l.outstanding > 0 && l.Periods() > 0
  }

  predicate AllShown(loans: seq<LoanState>) {
    forall i :: 0 <= i < |loans| ==> Shown(loans[i])
  }

  function NextOf(l: LoanState, now: int): NextPayment
    requires Shown(l)
  {
    PositionOf(l, now).next
  }

  /** A loan's next payment, no more than one repayment can take. */
  function DueOf(l: LoanState, now: int): int
    requires Shown(l)
  {
    Min(NextOf(l, now).Amount(), Cap(l, now))
  }

  /** A loan that can be shown has principal left: its next payment and what one repayment can take
      are always something. */
  lemma ShownIsPayable(l: LoanState, now: int)
    requires Shown(l)
    ensures 0 < DueOf(l, now) <= NextOf(l, now).Amount() && DueOf(l, now) <= Cap(l, now)
  {
    var k := FirstFrom(l, 1);
    FirstFromFinds(l, 1);
    AccruesNonNegative(l, now);
    AccruesNonNegative(l, now + REPAY_ALL_MARGIN_SECONDS);
    AccruesNonNegative(l, l.openedAt + k * REPAYMENT_PERIOD);
    if l.openedAt + k * REPAYMENT_PERIOD <= now {
      DivAtLeast(now - l.openedAt, REPAYMENT_PERIOD, k);
      DueAfterGrows(l, l.Periods(), k, Min(DivTrunc(now - l.openedAt, REPAYMENT_PERIOD), l.Periods()));
    }
  }

  // ----- What a fair split is ---------------------------------------------------------------

  /** The order payments are shown in, the loans' own where two payments tie. */
  predicate Before(loans: seq<LoanState>, now: int, i: nat, j: nat)
    requires i < |loans| && j < |loans| && AllShown(loans)
  {
    var a, b := NextOf(loans[i], now), NextOf(loans[j], now);
    NoLater(a, b) && (!NoLater(b, a) || i < j)
  }

  predicate WithinCap(loans: seq<LoanState>, now: int, perLoan: seq<int>, i: nat)
    requires i < |loans| == |perLoan|
  {
    0 <= perLoan[i] <= Cap(loans[i], now)
  }

  /** The loan's next payment is met. */
  predicate Met(loans: seq<LoanState>, now: int, perLoan: seq<int>, i: nat)
    requires i < |loans| == |perLoan| && Shown(loans[i])
  {
    perLoan[i] >= DueOf(loans[i], now)
  }

  predicate PaidAhead(loans: seq<LoanState>, now: int, perLoan: seq<int>, i: nat)
    requires i < |loans| == |perLoan| && Shown(loans[i])
  {
    perLoan[i] > DueOf(loans[i], now)
  }

  /** The whole amount, each loan within its cap; no loan ahead of its next payment while another's
      is unmet; nothing for a loan while one whose payment comes before it is unmet; and no loan ahead
      of its payment while one before it could take more. */
  predicate Fair(loans: seq<LoanState>, now: int, amount: int, perLoan: seq<int>)
    requires AllShown(loans)
  {
    && |perLoan| == |loans|
    && Total(perLoan) == amount
    && (forall i :: 0 <= i < |loans| ==> WithinCap(loans, now, perLoan, i))
    && (forall i, j :: 0 <= i < |loans| && 0 <= j < |loans| && PaidAhead(loans, now, perLoan, i) ==>
          Met(loans, now, perLoan, j))
    && (forall i, j :: 0 <= i < |loans| && 0 <= j < |loans| && perLoan[j] > 0 && Before(loans, now, i, j) ==>
          Met(loans, now, perLoan, i))
    && (forall i, j ::
          0 <= i < |loans| && 0 <= j < |loans| && PaidAhead(loans, now, perLoan, j) && Before(loans, now, i, j) ==>
            perLoan[i] == Cap(loans[i], now))
  }

  // ----- The queue --------------------------------------------------------------------------

  datatype Entry = Entry(index: nat, next: NextPayment, cap: int, due: int)

  function EntryFor(loans: seq<LoanState>, now: int, i: nat): Entry
    requires i < |loans| && AllShown(loans)
  {
    Entry(i, NextOf(loans[i], now), Cap(loans[i], now), DueOf(loans[i], now))
  }

  predicate Sooner(a: Entry, b: Entry) {
    NoLater(a.next, b.next)
  }

  function Entries(loans: seq<LoanState>, now: int): seq<Entry>
    requires AllShown(loans)
  {
    seq(|loans|, i requires 0 <= i < |loans| => EntryFor(loans, now, i))
  }

  function IndexOf(e: Entry): nat { e.index }

  /** The queue has each loan exactly once, the sooner payment before the later and ties in the order
      of the loans. */
  ghost predicate Queued(loans: seq<LoanState>, now: int, queue: seq<Entry>)
    requires AllShown(loans)
  {
    EachOnce(Entries(loans, now), queue, IndexOf) && Ordered(queue, Sooner) && Stable(queue, Sooner, IndexOf)
  }

  lemma SoonerIsTotal()
    ensures TotalPreorder(Sooner)
  {
  }

  lemma SortedIsQueued(loans: seq<LoanState>, now: int)
    requires AllShown(loans)
    ensures Queued(loans, now, Sort(Entries(loans, now), Sooner))
  {
    var entries := Entries(loans, now);
    SortKeepsEach(entries, Sooner, IndexOf);
    SoonerIsTotal();
    SortOrders(entries, Sooner);
    SortStable(entries, Sooner, IndexOf);
  }

  // ----- The two passes ---------------------------------------------------------------------

  /** Different loans, each with a payment within its cap. */
  predicate Pourable(queue: seq<Entry>, loans: nat) {
    && (forall p :: 0 <= p < |queue| ==> queue[p].index < loans && 0 <= queue[p].due <= queue[p].cap)
    && (forall p, q :: 0 <= p < q < |queue| ==> queue[p].index != queue[q].index)
  }

  lemma QueuedIsPourable(loans: seq<LoanState>, now: int, queue: seq<Entry>)
    requires AllShown(loans) && Queued(loans, now, queue)
    ensures Pourable(queue, |loans|)
  {
    forall p | 0 <= p < |queue| ensures queue[p].index < |loans| && 0 <= queue[p].due <= queue[p].cap {
      assert IndexOf(queue[p]) < |loans| && queue[p] == Entries(loans, now)[IndexOf(queue[p])];
      ShownIsPayable(loans[queue[p].index], now);
    }
    forall p, q | 0 <= p < q < |queue| ensures queue[p].index != queue[q].index {
      assert IndexOf(queue[p]) != IndexOf(queue[q]);
    }
  }

  function GivenTo(queue: seq<Entry>, perLoan: seq<int>, p: nat): int
    requires p < |queue| && Pourable(queue, |perLoan|)
  {
    perLoan[queue[p].index]
  }

  /** After the first pass reached entry `n`: nothing past it, no entry above its payment, all of
      them met while any is left, and an entry given anything only after those before it. */
  ghost predicate DuePass(queue: seq<Entry>, perLoan: seq<int>, left: int, n: nat)
    requires n <= |queue| && Pourable(queue, |perLoan|)
  {
    && left >= 0
    && (forall p :: 0 <= p < |queue| ==> 0 <= GivenTo(queue, perLoan, p) <= queue[p].due)
    && (forall p :: n <= p < |queue| ==> GivenTo(queue, perLoan, p) == 0)
    && (forall p :: 0 <= p < n && left > 0 ==> GivenTo(queue, perLoan, p) == queue[p].due)
    && (forall p, q :: 0 <= p < q < |queue| && GivenTo(queue, perLoan, q) > 0 ==>
          GivenTo(queue, perLoan, p) == queue[p].due)
  }

  /** After the second pass reached entry `n`: every payment met, none past it paid ahead, no entry
      above its cap, those passed at it while any is left, and an entry paid ahead only after those
      before it are at theirs. */
  ghost predicate CapPass(queue: seq<Entry>, perLoan: seq<int>, left: int, n: nat)
    requires n <= |queue| && Pourable(queue, |perLoan|)
  {
    && left >= 0
    && (forall p :: 0 <= p < |queue| ==> queue[p].due <= GivenTo(queue, perLoan, p) <= queue[p].cap)
    && (forall p :: n <= p < |queue| ==> GivenTo(queue, perLoan, p) == queue[p].due)
    && (forall p :: 0 <= p < n && left > 0 ==> GivenTo(queue, perLoan, p) == queue[p].cap)
    && (forall p, q :: 0 <= p < q < |queue| && GivenTo(queue, perLoan, q) > queue[q].due ==>
          GivenTo(queue, perLoan, p) == queue[p].cap)
  }

  /** What one entry takes of what is left, up to its target. */
  function Poured(queue: seq<Entry>, perLoan: seq<int>, n: nat, target: int, left: int): (seq<int>, int)
    requires n < |queue| && Pourable(queue, |perLoan|)
  {
    var take := Max(Min(target - GivenTo(queue, perLoan, n), left), 0);
    (perLoan[queue[n].index := GivenTo(queue, perLoan, n) + take], left - take)
  }

  lemma OtherIndex(queue: seq<Entry>, loans: nat, p: nat, q: nat)
    requires Pourable(queue, loans) && p < |queue| && q < |queue| && p != q
    ensures queue[p].index != queue[q].index
  {
    assert p < q || q < p;
  }

  lemma {:induction false} PouredElsewhere(queue: seq<Entry>, perLoan: seq<int>, n: nat, target: int, left: int)
    requires n < |queue| && Pourable(queue, |perLoan|)
    ensures var (after, rest) := Poured(queue, perLoan, n, target, left);
            && |after| == |perLoan|
            && Total(after) + rest == Total(perLoan) + left
            && (forall p :: 0 <= p < |queue| && p != n ==> GivenTo(queue, after, p) == GivenTo(queue, perLoan, p))
            && GivenTo(queue, after, n) == GivenTo(queue, perLoan, n) + (left - rest)
  {
    var (after, rest) := Poured(queue, perLoan, n, target, left);
    var i := queue[n].index;
    assert after == perLoan[i := perLoan[i] + (left - rest)];
    assert Total(after) + rest == Total(perLoan) + left by {
      TotalUpdate(perLoan, i, perLoan[i] + (left - rest));
    }
    forall p | 0 <= p < |queue| && p != n ensures GivenTo(queue, after, p) == GivenTo(queue, perLoan, p) {
      OtherIndex(queue, |perLoan|, p, n);
    }
  }

  lemma {:induction false} DueStep(queue: seq<Entry>, perLoan: seq<int>, left: int, n: nat)
    requires n < |queue| && Pourable(queue, |perLoan|) && DuePass(queue, perLoan, left, n)
    ensures var (after, rest) := Poured(queue, perLoan, n, queue[n].due, left);
            |after| == |perLoan| && Total(after) + rest == Total(perLoan) + left && DuePass(queue, after, rest, n + 1)
  {
    PouredElsewhere(queue, perLoan, n, queue[n].due, left);
  }

  lemma {:induction false} CapStep(queue: seq<Entry>, perLoan: seq<int>, left: int, n: nat)
    requires n < |queue| && Pourable(queue, |perLoan|)
    ensures var (after, rest) := Poured(queue, perLoan, n, queue[n].cap, left);
            && |after| == |perLoan| && Total(after) + rest == Total(perLoan) + left
            && (CapPass(queue, perLoan, left, n) ==> CapPass(queue, after, rest, n + 1))
            && (left == 0 ==> after == perLoan && rest == 0)
  {
    PouredElsewhere(queue, perLoan, n, queue[n].cap, left);
  }

  lemma ZerosTotal(n: nat)
    ensures Total(seq(n, i => 0)) == 0
  {
    if n == 0 {
    } else {
      ZerosTotal(n - 1);
      assert seq(n, i => 0)[..n - 1] == seq(n - 1, i => 0);
    }
  }

  /** Either the payments took it all, in their order, or they are all met and the caps took it. */
  ghost predicate AllPoured(queue: seq<Entry>, perLoan: seq<int>, left: int)
    requires Pourable(queue, |perLoan|)
  {
    (left == 0 && DuePass(queue, perLoan, 0, |queue|)) || CapPass(queue, perLoan, left, |queue|)
  }

  /** The page's two passes over the queue. */
  method PourAll(loans: nat, amount: int, queue: seq<Entry>) returns (perLoan: seq<int>, left: int)
    requires Pourable(queue, loans) && amount > 0
    ensures |perLoan| == loans && Total(perLoan) + left == amount
    ensures AllPoured(queue, perLoan, left)
  {
    perLoan := seq(loans, i => 0);
    left := amount;
    ZerosTotal(loans);
    for n := 0 to |queue|
      invariant |perLoan| == loans && Total(perLoan) + left == amount
      invariant DuePass(queue, perLoan, left, n)
    {
      DueStep(queue, perLoan, left, n);
      perLoan, left := PourInto(perLoan, queue, n, queue[n].due, left);
    }
    for n := 0 to |queue|
      invariant |perLoan| == loans && Total(perLoan) + left == amount
      invariant (left == 0 && DuePass(queue, perLoan, 0, |queue|)) || CapPass(queue, perLoan, left, n)
    {
      CapStep(queue, perLoan, left, n);
      perLoan, left := PourInto(perLoan, queue, n, queue[n].cap, left);
    }
  }

  method PourInto(perLoan: seq<int>, queue: seq<Entry>, n: nat, target: int, left: int) returns (after: seq<int>,
                  rest: int)
    requires n < |queue| && Pourable(queue, |perLoan|)
    ensures (after, rest) == Poured(queue, perLoan, n, target, left)
  {
    var given := perLoan[queue[n].index];
    var room := target - given;
    var take := if room < left then room else left;
    if take <= 0 {
      assert perLoan[queue[n].index := given] == perLoan;
      return perLoan, left;
    }
    return perLoan[queue[n].index := given + take], left - take;
  }

  // ----- The allocation ---------------------------------------------------------------------

  lemma {:induction false} CapsTotal(loans: seq<LoanState>, now: int, perLoan: seq<int>)
    requires |perLoan| == |loans| && forall i :: 0 <= i < |loans| ==> perLoan[i] == Cap(loans[i], now)
    ensures Total(perLoan) == RepayAllAmount(loans, now)
  {
    if loans == [] {
    } else {
      CapsTotal(loans[..|loans| - 1], now, perLoan[..|loans| - 1]);
    }
  }

  lemma QueuedPlace(loans: seq<LoanState>, now: int, queue: seq<Entry>, i: nat) returns (p: nat)
    requires AllShown(loans) && Queued(loans, now, queue) && i < |loans|
    ensures p < |queue| && queue[p] == EntryFor(loans, now, i)
  {
    p := PlaceOf(Entries(loans, now), queue, IndexOf, i);
  }

  /** Within what one repayment can take, the caps always take the rest. */
  lemma {:induction false} NothingLeft(loans: seq<LoanState>, now: int, queue: seq<Entry>, perLoan: seq<int>, left: int)
    requires AllShown(loans) && Queued(loans, now, queue) && |perLoan| == |loans| && Pourable(queue, |loans|)
    requires AllPoured(queue, perLoan, left) && Total(perLoan) + left <= RepayAllAmount(loans, now)
    ensures left == 0
  {
    if left > 0 {
      forall i | 0 <= i < |loans| ensures perLoan[i] == Cap(loans[i], now) {
        var p := QueuedPlace(loans, now, queue, i);
        assert GivenTo(queue, perLoan, p) == queue[p].cap;
      }
      CapsTotal(loans, now, perLoan);
    }
  }

  lemma {:induction false} PouredIsFair(loans: seq<LoanState>, now: int, amount: int, queue: seq<Entry>,
                                        perLoan: seq<int>)
    requires AllShown(loans) && Queued(loans, now, queue) && |perLoan| == |loans| && Pourable(queue, |loans|)
    requires AllPoured(queue, perLoan, 0) && Total(perLoan) == amount
    ensures Fair(loans, now, amount, perLoan)
  {
    forall i | 0 <= i < |loans| ensures WithinCap(loans, now, perLoan, i) {
      var p := QueuedPlace(loans, now, queue, i);
      assert 0 <= GivenTo(queue, perLoan, p) <= queue[p].cap;
    }
    forall i, j | 0 <= i < |loans| && 0 <= j < |loans| && PaidAhead(loans, now, perLoan, i)
      ensures Met(loans, now, perLoan, j)
    {
      var p := QueuedPlace(loans, now, queue, i);
      var q := QueuedPlace(loans, now, queue, j);
      assert GivenTo(queue, perLoan, p) > queue[p].due;
      assert GivenTo(queue, perLoan, q) >= queue[q].due;
    }
    forall i, j | 0 <= i < |loans| && 0 <= j < |loans| && perLoan[j] > 0 && Before(loans, now, i, j)
      ensures Met(loans, now, perLoan, i)
    {
      var p := QueuedPlace(loans, now, queue, i);
      var q := QueuedPlace(loans, now, queue, j);
      SoonerIsEarlier(loans, now, queue, p, q);
      assert GivenTo(queue, perLoan, q) > 0;
      assert GivenTo(queue, perLoan, p) >= queue[p].due;
    }
    forall i, j | 0 <= i < |loans| && 0 <= j < |loans| && PaidAhead(loans, now, perLoan, j) && Before(loans, now, i, j)
      ensures perLoan[i] == Cap(loans[i], now)
    {
      var p := QueuedPlace(loans, now, queue, i);
      var q := QueuedPlace(loans, now, queue, j);
      SoonerIsEarlier(loans, now, queue, p, q);
      assert GivenTo(queue, perLoan, q) > queue[q].due;
      assert GivenTo(queue, perLoan, p) == queue[p].cap;
    }
  }

  lemma SoonerIsEarlier(loans: seq<LoanState>, now: int, queue: seq<Entry>, p: nat, q: nat)
    requires AllShown(loans) && Queued(loans, now, queue) && p < |queue| && q < |queue|
    requires queue[p].index < |loans| && queue[q].index < |loans|
    requires queue[p] == EntryFor(loans, now, queue[p].index) && queue[q] == EntryFor(loans, now, queue[q].index)
    requires Before(loans, now, queue[p].index, queue[q].index)
    ensures p < q
  {
    assert q < p ==> Sooner(queue[q], queue[p]);
  }

  /** What `allocateRepayment` answers. */
  predicate Answers(loans: seq<LoanState>, amount: int, now: int, r: Allocation) {
    var max := RepayAllAmount(loans, now);
    && (r.Nothing? <==> amount <= 0)
    && (r.OverDebt? <==> amount > 0 && amount > max)
    && (r.OverDebt? ==> r.max == max)
    && (r.Threw? <==> 0 < amount <= max && !AllShown(loans))
    && (r.Allocated? ==> AllShown(loans) && Fair(loans, now, amount, r.perLoan))
  }

  /** `allocateRepayment`. */
  method Allocate(loans: seq<LoanState>, amount: int, now: int) returns (r: Allocation)
    ensures Answers(loans, amount, now, r)
  {
    if amount <= 0 {
      return Nothing;
    }
    var max := RepayAllAmount(loans, now);
    if amount > max {
      return OverDebt(max);
    }
    var positions := ComputePositions(loans, now);
    if positions.None? {
      return Threw;
    }
    assert AllShown(loans);
    var queue := Sort(Entries(loans, now), Sooner);
    SortedIsQueued(loans, now);
    QueuedIsPourable(loans, now, queue);
    var perLoan, left := PourAll(|loans|, amount, queue);
    NothingLeft(loans, now, queue, perLoan, left);
    PouredIsFair(loans, now, amount, queue, perLoan);
    return Allocated(perLoan);
  }

  // ----- One answer -------------------------------------------------------------------------

  /** What a fair split says of two loans in order. */
  lemma FairInOrder(loans: seq<LoanState>, now: int, amount: int, xs: seq<int>, i: nat, j: nat)
    requires AllShown(loans) && Fair(loans, now, amount, xs) && i < |loans| && j < |loans| && Before(loans, now, i, j)
    ensures 0 <= xs[i] <= Cap(loans[i], now) && 0 <= xs[j]
    ensures xs[i] > DueOf(loans[i], now) ==> xs[j] >= DueOf(loans[j], now)
    ensures xs[j] > 0 ==> xs[i] >= DueOf(loans[i], now)
    ensures xs[j] > DueOf(loans[j], now) ==> xs[i] == Cap(loans[i], now)
  {
    assert WithinCap(loans, now, xs, i) && WithinCap(loans, now, xs, j);
    assert PaidAhead(loans, now, xs, i) ==> Met(loans, now, xs, j);
    assert xs[j] > 0 ==> Met(loans, now, xs, i);
    assert PaidAhead(loans, now, xs, j) ==> xs[i] == Cap(loans[i], now);
  }

  lemma NotBothWays(loans: seq<LoanState>, now: int, amount: int, xs: seq<int>, ys: seq<int>, i: nat, j: nat)
    requires AllShown(loans) && Fair(loans, now, amount, xs) && Fair(loans, now, amount, ys)
    requires i < |loans| && j < |loans| && Before(loans, now, i, j) && ys[j] > xs[j]
    ensures xs[i] <= ys[i]
  {
    FairInOrder(loans, now, amount, xs, i, j);
    FairInOrder(loans, now, amount, ys, i, j);
  }

  /** There is only one fair split of an amount. */
  lemma FairIsUnique(loans: seq<LoanState>, now: int, amount: int, xs: seq<int>, ys: seq<int>)
    requires AllShown(loans) && Fair(loans, now, amount, xs) && Fair(loans, now, amount, ys)
    ensures xs == ys
  {
    if i :| 0 <= i < |loans| && xs[i] > ys[i] {
      forall j | 0 <= j < |loans| ensures ys[j] <= xs[j] {
        if ys[j] > xs[j] {
          if Before(loans, now, i, j) {
            NotBothWays(loans, now, amount, xs, ys, i, j);
          } else {
            NotBothWays(loans, now, amount, ys, xs, j, i);
          }
        }
      }
      TotalsOfLess(ys, xs);
    } else {
      TotalsOfLess(xs, ys);
    }
  }

  /** Whatever it is asked, the page has one answer. */
  lemma AnswerIsUnique(loans: seq<LoanState>, amount: int, now: int, r: Allocation, s: Allocation)
    requires Answers(loans, amount, now, r) && Answers(loans, amount, now, s)
    ensures r == s
  {
    if r.Allocated? {
      FairIsUnique(loans, now, amount, r.perLoan, s.perLoan);
    }
  }

  // ----- Repaying everything ----------------------------------------------------------------

  /** Asked for the most it takes, the page gives each loan the most one repayment can take of it. */
  lemma RepayAllGivesCaps(loans: seq<LoanState>, now: int, r: Allocation)
    requires AllShown(loans) && loans != [] && Answers(loans, RepayAllAmount(loans, now), now, r)
    ensures r == Allocated(seq(|loans|, i requires 0 <= i < |loans| => Cap(loans[i], now)))
  {
    var caps := seq(|loans|, i requires 0 <= i < |loans| => Cap(loans[i], now));
    var none := seq(|loans|, i => 0);
    forall i | 0 <= i < |loans| ensures none[i] <= caps[i] {
      ShownIsPayable(loans[i], now);
    }
    CapsTotal(loans, now, caps);
    ZerosTotal(|loans|);
    TotalsOfLess(none, caps);
    ShownIsPayable(loans[0], now);
    assert caps[0] > none[0];
    assert r.Allocated?;
    forall i | 0 <= i < |loans| ensures r.perLoan[i] <= caps[i] {
      assert WithinCap(loans, now, r.perLoan, i);
    }
    TotalsOfLess(r.perLoan, caps);
  }

  /** And that closes the loan whenever the transaction lands within ten minutes. */
  lemma CapClosesTheLoan(l: LoanState, now: i64, at: i64, cap: u64)
    requires l.WellFormed(now) && l.IsOpen() && now <= at <= now + 600 && cap == Cap(l, now)
    ensures l.Accrue(at).Ok?
    ensures var paid := l.Accrue(at).value.0.ApplyRepayment(cap); paid.Ok? && paid.value.0.status == Repaid
  {
    AccruesNonNegative(l, now + REPAY_ALL_MARGIN_SECONDS);
    AccrueToGrows(l, at, now + REPAY_ALL_MARGIN_SECONDS);
    if at > l.lastAccrualAt {
      AccrualFitsExactly(l, at);
    }
    AccrueToIsAccrue(l, at);
  }

  // ----- Paying the next payment as it is shown ---------------------------------------------

  /** What is due now is within what one repayment can take: only an instalment is ever clipped. */
  lemma DueNowIsNeverClipped(l: LoanState, now: int)
    requires l.WellFormed(now) && l.IsOpen() && NextOf(l, now).DueNow?
    ensures DueOf(l, now) == NextOf(l, now).Amount()
  {
    DueNowExactlyWhenBehind(l, now);
    AccrueToGrows(l, now, now + REPAY_ALL_MARGIN_SECONDS);
  }

  function PositionsOf(loans: seq<LoanState>, now: int): seq<LoanPosition>
    requires AllShown(loans)
  {
    seq(|loans|, i requires 0 <= i < |loans| => PositionOf(loans[i], now))
  }

  /** Each loan's part of the payment shown: its own next payment if it is one of those paid
      together. */
  function PartOf(lead: NextPayment, next: NextPayment): int {
    if Together(lead, next) then next.Amount() else 0
  }

  function Parts(loans: seq<LoanState>, now: int, lead: NextPayment): seq<int>
    requires AllShown(loans)
  {
    seq(|loans|, i requires 0 <= i < |loans| => PartOf(lead, NextOf(loans[i], now)))
  }

  lemma {:induction false} PartsAddUp(positions: seq<LoanPosition>, lead: NextPayment, parts: seq<int>)
    requires |parts| == |positions| && forall i :: 0 <= i < |parts| ==> parts[i] == PartOf(lead, positions[i].next)
    ensures Total(parts) == Sum(positions, PrincipalTogether(lead)) + Sum(positions, InterestTogether(lead))
  {
    if parts == [] {
    } else {
      var n := |parts| - 1;
      PartsAddUp(positions[..n], lead, parts[..n]);
    }
  }

  lemma {:induction false} TotalsOfLess(xs: seq<int>, ys: seq<int>)
    requires |xs| == |ys| && forall i :: 0 <= i < |xs| ==> xs[i] <= ys[i]
    ensures Total(xs) <= Total(ys)
    ensures Total(xs) == Total(ys) ==> xs == ys
  {
    if xs == [] {
    } else {
      var n := |xs| - 1;
      TotalsOfLess(xs[..n], ys[..n]);
      if Total(xs) == Total(ys) {
        assert xs == xs[..n] + [xs[n]] && ys == ys[..n] + [ys[n]];
      }
    }
  }

  lemma LeadGroupIsFirst(loans: seq<LoanState>, now: int, lead: NextPayment, i: nat, j: nat)
    requires AllShown(loans) && Leads(PositionsOf(loans, now), lead) && i < |loans| && j < |loans|
    requires Together(lead, NextOf(loans[i], now)) && !Together(lead, NextOf(loans[j], now))
    ensures Before(loans, now, i, j)
  {
    assert NoLater(lead, PositionsOf(loans, now)[j].next);
    assert NoLater(lead, PositionsOf(loans, now)[i].next);
  }

  /** None of the payments shown is clipped by its loan's cap. */
  predicate NoneClipped(loans: seq<LoanState>, now: int, lead: NextPayment)
    requires AllShown(loans)
  {
    forall i :: 0 <= i < |loans| && Together(lead, NextOf(loans[i], now)) ==>
      DueOf(loans[i], now) == NextOf(loans[i], now).Amount()
  }

  lemma NoneBeyondTheGroup(loans: seq<LoanState>, now: int, lead: NextPayment, amount: int, perLoan: seq<int>, j: nat)
    requires AllShown(loans) && Fair(loans, now, amount, perLoan) && Leads(PositionsOf(loans, now), lead)
    requires NoneClipped(loans, now, lead) && amount == Total(Parts(loans, now, lead))
    requires j < |loans| && !Together(lead, NextOf(loans[j], now))
    ensures perLoan[j] == 0
  {
    assert WithinCap(loans, now, perLoan, j);
    if perLoan[j] > 0 {
      var parts := Parts(loans, now, lead);
      forall i | 0 <= i < |loans| ensures parts[i] <= perLoan[i] {
        assert WithinCap(loans, now, perLoan, i);
        if Together(lead, NextOf(loans[i], now)) {
          LeadGroupIsFirst(loans, now, lead, i, j);
          assert Met(loans, now, perLoan, i);
        }
      }
      assert parts[j] == 0;
      TotalsOfLess(parts, perLoan);
    }
  }

  lemma NoneAheadInTheGroup(loans: seq<LoanState>, now: int, lead: NextPayment, amount: int, perLoan: seq<int>, i: nat)
    requires AllShown(loans) && Fair(loans, now, amount, perLoan)
    requires NoneClipped(loans, now, lead) && amount == Total(Parts(loans, now, lead))
    requires i < |loans| && Together(lead, NextOf(loans[i], now))
    ensures perLoan[i] <= NextOf(loans[i], now).Amount()
  {
    if PaidAhead(loans, now, perLoan, i) {
      var parts := Parts(loans, now, lead);
      forall j | 0 <= j < |loans| ensures parts[j] <= perLoan[j] {
        assert WithinCap(loans, now, perLoan, j) && Met(loans, now, perLoan, j);
      }
      assert parts[i] == NextOf(loans[i], now).Amount();
      TotalsOfLess(parts, perLoan);
    }
  }

  lemma UnclippedIsExact(loans: seq<LoanState>, now: int, lead: NextPayment, amount: int, perLoan: seq<int>)
    requires AllShown(loans) && Fair(loans, now, amount, perLoan) && Leads(PositionsOf(loans, now), lead)
    requires NoneClipped(loans, now, lead) && amount == Total(Parts(loans, now, lead))
    ensures perLoan == Parts(loans, now, lead)
  {
    var parts := Parts(loans, now, lead);
    forall i | 0 <= i < |loans| ensures perLoan[i] <= parts[i] {
      if Together(lead, NextOf(loans[i], now)) {
        NoneAheadInTheGroup(loans, now, lead, amount, perLoan, i);
      } else {
        NoneBeyondTheGroup(loans, now, lead, amount, perLoan, i);
      }
    }
    TotalsOfLess(perLoan, parts);
  }

  /** Asked for what the payments shown come to, a fair split pays exactly them and nothing else, if
      and only if none of them is clipped. */
  lemma FairPaysTheGroupExactly(loans: seq<LoanState>, now: int, lead: NextPayment, perLoan: seq<int>)
    requires AllShown(loans) && Leads(PositionsOf(loans, now), lead)
    requires Fair(loans, now, Total(Parts(loans, now, lead)), perLoan)
    ensures perLoan == Parts(loans, now, lead) <==> NoneClipped(loans, now, lead)
  {
    if NoneClipped(loans, now, lead) {
      UnclippedIsExact(loans, now, lead, Total(Parts(loans, now, lead)), perLoan);
    }
    if perLoan == Parts(loans, now, lead) {
      forall i | 0 <= i < |loans| && Together(lead, NextOf(loans[i], now))
        ensures DueOf(loans[i], now) == NextOf(loans[i], now).Amount()
      {
        assert WithinCap(loans, now, perLoan, i);
        assert perLoan[i] == Parts(loans, now, lead)[i];
      }
    }
  }

  /** What is shown is something, and within what repaying everything takes if nothing is clipped. */
  lemma GroupIsPayable(loans: seq<LoanState>, now: int, lead: NextPayment)
    requires AllShown(loans) && Leads(PositionsOf(loans, now), lead)
    ensures 0 < Total(Parts(loans, now, lead))
    ensures NoneClipped(loans, now, lead) ==> Total(Parts(loans, now, lead)) <= RepayAllAmount(loans, now)
  {
    var parts := Parts(loans, now, lead);
    var none := seq(|loans|, i => 0);
    var caps := seq(|loans|, i requires 0 <= i < |loans| => Cap(loans[i], now));
    forall i | 0 <= i < |loans| ensures 0 <= parts[i] && (NoneClipped(loans, now, lead) ==> parts[i] <= caps[i]) {
      ShownIsPayable(loans[i], now);
    }
    ZerosTotal(|loans|);
    TotalsOfLess(none, parts);
    var i :| 0 <= i < |loans| && PositionsOf(loans, now)[i].next == lead;
    ShownIsPayable(loans[i], now);
    assert parts[i] > 0 == none[i];
    CapsTotal(loans, now, caps);
    if NoneClipped(loans, now, lead) {
      TotalsOfLess(parts, caps);
    }
  }

  /** The payment shown is paid with the same loans as the one it is dated by. */
  lemma RewordedGroup(loans: seq<LoanState>, now: int, lead: NextPayment, principal: int, interest: int)
    requires AllShown(loans)
    ensures var shown := Reworded(lead, principal, interest);
            && Parts(loans, now, shown) == Parts(loans, now, lead)
            && (NoneClipped(loans, now, shown) <==> NoneClipped(loans, now, lead))
  {
    var shown := Reworded(lead, principal, interest);
    forall i | 0 <= i < |loans|
      ensures Together(shown, NextOf(loans[i], now)) <==> Together(lead, NextOf(loans[i], now)) {}
  }

  /** The promise of the page: asked for exactly the next payment it shows, it answers with each
      loan's part of that payment and nothing else, if and only if no part is more than one repayment
      can take. */
  lemma NextPaymentIsRepaidExactly(loans: seq<LoanState>, now: int, shown: OperatorPosition, r: Allocation)
    requires AllShown(loans) && Shows(PositionsOf(loans, now), shown) && shown.next.Some?
    requires Answers(loans, shown.next.value.Amount(), now, r)
    ensures r == Allocated(Parts(loans, now, shown.next.value)) <==> NoneClipped(loans, now, shown.next.value)
  {
    var positions := PositionsOf(loans, now);
    var lead :| Leads(positions, lead) && shown.next.value == Lead(positions, lead);
    var parts := Parts(loans, now, lead);
    PartsAddUp(positions, lead, parts);
    RewordedGroup(loans, now, lead, Sum(positions, PrincipalTogether(lead)), Sum(positions, InterestTogether(lead)));
    GroupIsPayable(loans, now, lead);
    if r.Allocated? {
      FairPaysTheGroupExactly(loans, now, lead, r.perLoan);
    }
  }

  /** A hundred just borrowed for one period, at a hundred percent a year. */
  const ONE_PERIOD_LOAN: LoanState :=
    LoanState(0, 0, 0, 100, 100, 0, 0, 0, REPAYMENT_PERIOD, 0, 10_000, 1, Active, 0, None)

  lemma OnePeriodShown()
    ensures ONE_PERIOD_LOAN.WellFormed(0)
    ensures NextOf(ONE_PERIOD_LOAN, 0) == Instalment(REPAYMENT_PERIOD, 100, 8)
  {
    assert ONE_PERIOD_LOAN.Periods() == 1;
    FirstFromIs(ONE_PERIOD_LOAN, 1);
  }

  lemma OnePeriodRepaid()
    ensures RepayAllAmount([ONE_PERIOD_LOAN], 0) == 100
  {
    assert AccrueTo(ONE_PERIOD_LOAN, REPAY_ALL_MARGIN_SECONDS).0 == 0;
    assert [ONE_PERIOD_LOAN] == [] + [ONE_PERIOD_LOAN];
    SumAppend([], ONE_PERIOD_LOAN, CapAt(0));
  }

  /** With the interest to its day the only instalment is 108, more than repaying everything within
      ten minutes can take: asked for the payment it shows, the page refuses. */
  lemma LastInstalmentIsRefused(r: Allocation)
    requires Answers([ONE_PERIOD_LOAN], 108, 0, r)
    ensures ONE_PERIOD_LOAN.WellFormed(0) && NextOf(ONE_PERIOD_LOAN, 0) == Instalment(REPAYMENT_PERIOD, 100, 8)
    ensures r == OverDebt(100)
  {
    OnePeriodShown();
    OnePeriodRepaid();
  }

  // ----- A repayment without writing anything back ------------------------------------------

  /** `applyRepayment`: the loan after a repayment, None once it is repaid. The page reads no status
      and no integer widths. */
  function AfterRepayment(l: LoanState, maxAmount: nat, at: int): Option<(int, int, int, int)> {
    if maxAmount == 0 then Some((l.outstanding, l.accruedInterest, l.interestRemainder, l.lastAccrualAt)) else
    var (accrued, remainder) := AccrueTo(l, at);
    var paid := Min(maxAmount, l.outstanding + accrued);
    var interest := Min(paid, accrued);
    var outstanding := l.outstanding - (paid - interest);
    if outstanding == 0 && accrued == interest then None
    else Some((outstanding, accrued - interest, remainder, Max(at, l.lastAccrualAt)))
  }

  /** Wherever the program goes through, the page shows the loan it leaves. */
  lemma AfterRepaymentIsTheProgram(l: LoanState, maxAmount: u64, at: i64)
    requires maxAmount > 0 && l.Accrue(at).Ok? && l.Accrue(at).value.0.ApplyRepayment(maxAmount).Ok?
    ensures var m := l.Accrue(at).value.0.ApplyRepayment(maxAmount).value.0;
            AfterRepayment(l, maxAmount, at)
            == if m.IsOpen() then Some((m.outstanding, m.accruedInterest, m.interestRemainder, m.lastAccrualAt))
               else None
  {
    AccrueToIsAccrue(l, at);
    AccrualLosesNothing(l, at);
  }
}
