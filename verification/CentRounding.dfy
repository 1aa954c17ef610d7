/** Table rows rounded to cents so that they add up to the total rounded up. */
module CentRounding {
  import opened Numbers
  import opened Sums
  import opened Sorting

  const CENT: int := 10_000

  /** The total of the rows, rounded up to a cent. */
  function RoundedTotal(rows: seq<nat>): int {
    DivCeil(Total(rows), CENT)
  }

  function Floors(rows: seq<nat>): seq<int> {
    seq(|rows|, i requires 0 <= i < |rows| => rows[i] / CENT)
  }

  datatype Part = Part(index: nat, remainder: int)

  predicate MoreFirst(a: Part, b: Part) {
    a.remainder >= b.remainder
  }

  function PartsOf(rows: seq<nat>): seq<Part> {
    seq(|rows|, i requires 0 <= i < |rows| => Part(i, rows[i] % CENT))
  }

  // ----- What the rounding promises ---------------------------------------------------------

  predicate Raised(rows: seq<nat>, cents: seq<int>, i: nat)
    requires i < |rows| == |cents|
  {
    cents[i] == rows[i] / CENT + 1
  }

  /** The rows add up to the total rounded up; each is its floor or one more; and a cent, ten thousand of
      the smallest units, goes only to rows that lost something, to none before one that lost more or
      that lost as much and is listed before it. */
  predicate WellRounded(rows: seq<nat>, cents: seq<int>) {
    && |cents| == |rows|
    && Total(cents) == RoundedTotal(rows)
    && (forall i :: 0 <= i < |rows| ==> cents[i] == rows[i] / CENT || Raised(rows, cents, i))
    && (forall i :: 0 <= i < |rows| && Raised(rows, cents, i) ==> rows[i] % CENT > 0)
    && (forall i, j :: 0 <= i < |rows| && 0 <= j < |rows| && Raised(rows, cents, i) && !Raised(rows, cents, j) ==>
          rows[i] % 10_000 > rows[j] % 10_000 || (rows[i] % 10_000 == rows[j] % 10_000 && i < j))
  }

  // ----- The queue --------------------------------------------------------------------------

  function RemainderIn(p: Part): int { p.remainder }

  lemma {:induction false} SumOfInsert(xs: seq<Part>, x: Part)
    ensures Sum(Insert(xs, x, MoreFirst), RemainderIn) == Sum(xs, RemainderIn) + RemainderIn(x)
  {
    if xs == [] || MoreFirst(xs[|xs| - 1], x) {
      SumAppend(xs, x, RemainderIn);
    } else {
      SumOfInsert(xs[..|xs| - 1], x);
      SumAppend(Insert(xs[..|xs| - 1], x, MoreFirst), xs[|xs| - 1], RemainderIn);
    }
  }

  lemma {:induction false} SumOfSort(xs: seq<Part>)
    ensures Sum(Sort(xs, MoreFirst), RemainderIn) == Sum(xs, RemainderIn)
  {
    if xs == [] {
    } else {
      SumOfSort(xs[..|xs| - 1]);
      SumOfInsert(Sort(xs[..|xs| - 1], MoreFirst), xs[|xs| - 1]);
    }
  }

  /** What the floors leave of the total is what the rows lost. */
  lemma {:induction false} RowsSplit(rows: seq<nat>)
    ensures Total(rows) == CENT * Total(Floors(rows)) + Sum(PartsOf(rows), RemainderIn)
  {
    if rows == [] {
    } else {
      var n := |rows| - 1;
      RowsSplit(rows[..n]);
      assert Floors(rows)[..n] == Floors(rows[..n]) && PartsOf(rows)[..n] == PartsOf(rows[..n]);
      DivBounds(rows[n], CENT);
    }
  }

  function IndexOf(p: Part): nat { p.index }

  /** Each row once, the one that lost the most first, and together all that was lost. */
  ghost predicate Queued(rows: seq<nat>, queue: seq<Part>) {
    && EachOnce(PartsOf(rows), queue, IndexOf)
    && Ordered(queue, MoreFirst) && Stable(queue, MoreFirst, IndexOf)
    && Sum(queue, RemainderIn) == Total(rows) - CENT * Total(Floors(rows))
  }

  lemma SortedIsQueued(rows: seq<nat>)
    ensures Queued(rows, Sort(PartsOf(rows), MoreFirst))
  {
    var parts := PartsOf(rows);
    SortKeepsEach(parts, MoreFirst, IndexOf);
    SortOrders(parts, MoreFirst);
    SortStable(parts, MoreFirst, IndexOf);
    SumOfSort(parts);
    RowsSplit(rows);
  }

  // ----- The extra cents --------------------------------------------------------------------

  lemma QueuedPart(rows: seq<nat>, queue: seq<Part>, p: nat)
    requires Queued(rows, queue) && p < |queue|
    ensures queue[p].index < |rows| && queue[p].remainder == rows[queue[p].index] % CENT
  {
    assert IndexOf(queue[p]) < |PartsOf(rows)| && queue[p] == PartsOf(rows)[IndexOf(queue[p])];
  }

  lemma {:induction false} LostWithin(parts: seq<Part>)
    requires forall p :: 0 <= p < |parts| ==> 0 <= parts[p].remainder < CENT
    ensures 0 <= Sum(parts, RemainderIn) <= (CENT - 1) * |parts|
  {
    if parts == [] {
    } else {
      LostWithin(parts[..|parts| - 1]);
    }
  }

  lemma {:induction false} LostByFirst(rows: seq<nat>, queue: seq<Part>, p: nat)
    requires Queued(rows, queue) && p <= |queue|
    requires forall q :: p <= q < |queue| ==> queue[q].remainder == 0
    ensures 0 <= Sum(queue, RemainderIn) <= (CENT - 1) * p
  {
    assert queue == queue[..p] + queue[p..];
    SumConcat(queue[..p], queue[p..], RemainderIn);
    SumZero(queue[p..], RemainderIn);
    forall q | 0 <= q < p ensures 0 <= queue[..p][q].remainder < CENT {
      QueuedPart(rows, queue, q);
    }
    LostWithin(queue[..p]);
  }

  lemma CentsFor(lost: int, floors: int, p: nat)
    requires 0 <= lost <= (CENT - 1) * p
    ensures 0 <= DivCeil(CENT * floors + lost, CENT) - floors <= p
  {
    DivShift(lost + CENT - 1, CENT, floors);
    DivCeilAtMost(lost, CENT, p);
    DivCeilAtMost(lost, CENT, -1);
  }

  /** If no row from the `p`-th on lost anything, at most `p` cents are missing. */
  lemma MissingAtMost(rows: seq<nat>, queue: seq<Part>, p: nat)
    requires Queued(rows, queue) && p <= |queue|
    requires forall q :: p <= q < |queue| ==> queue[q].remainder == 0
    ensures 0 <= RoundedTotal(rows) - Total(Floors(rows)) <= p
  {
    LostByFirst(rows, queue, p);
    CentsFor(Sum(queue, RemainderIn), Total(Floors(rows)), p);
  }

  /** While cents are missing, the next row in the queue lost something. */
  lemma NextLostSomething(rows: seq<nat>, queue: seq<Part>, n: nat)
    requires Queued(rows, queue) && n < RoundedTotal(rows) - Total(Floors(rows))
    ensures n < |queue| && queue[n].remainder > 0
  {
    MissingAtMost(rows, queue, |queue|);
    if queue[n].remainder == 0 {
      forall q | n <= q < |queue| ensures queue[q].remainder == 0 {
        assert n < q ==> MoreFirst(queue[n], queue[q]);
      }
      MissingAtMost(rows, queue, n);
    }
  }

  /** The first `n` rows of the queue have their extra cent. */
  ghost predicate RaisedFirst(rows: seq<nat>, queue: seq<Part>, cents: seq<int>, n: nat)
    requires n <= |queue| && forall p :: 0 <= p < |queue| ==> queue[p].index < |rows| == |cents|
  {
    forall p :: 0 <= p < |queue| ==>
      cents[queue[p].index] == rows[queue[p].index] / CENT + (if p < n then 1 else 0)
  }

  predicate LostSomething(queue: seq<Part>, n: nat)
    requires n <= |queue|
  {
    forall p :: 0 <= p < n ==> queue[p].remainder > 0
  }

  lemma {:induction false} RaisedIsWellRounded(rows: seq<nat>, queue: seq<Part>, cents: seq<int>, n: nat)
    requires Queued(rows, queue) && |cents| == |rows| && n <= |queue| && RaisedFirst(rows, queue, cents, n)
    requires Total(cents) == RoundedTotal(rows)
    requires LostSomething(queue, n)
    ensures WellRounded(rows, cents)
  {
    forall i | 0 <= i < |rows|
      ensures cents[i] == rows[i] / CENT || Raised(rows, cents, i)
      ensures Raised(rows, cents, i) ==> rows[i] % CENT > 0
    {
      var p := PlaceOf(PartsOf(rows), queue, IndexOf, i);
    }
    forall i, j | 0 <= i < |rows| && 0 <= j < |rows| && Raised(rows, cents, i) && !Raised(rows, cents, j)
      ensures rows[i] % CENT > rows[j] % CENT || (rows[i] % CENT == rows[j] % CENT && i < j)
    {
      var p := PlaceOf(PartsOf(rows), queue, IndexOf, i);
      var q := PlaceOf(PartsOf(rows), queue, IndexOf, j);
      assert MoreFirst(queue[p], queue[q]);
      assert MoreFirst(queue[q], queue[p]) ==> IndexOf(queue[p]) < IndexOf(queue[q]);
    }
  }

  /** The first `n` rows of the queue raised, `extra` cents still to give. */
  ghost predicate Rounding(rows: seq<nat>, queue: seq<Part>, cents: seq<int>, n: nat, extra: int)
    requires Queued(rows, queue)
  {
    && |cents| == |rows| && n <= n + extra <= |queue|
    && Total(cents) + extra == RoundedTotal(rows)
    && n + extra == RoundedTotal(rows) - Total(Floors(rows))
    && RaisedFirst(rows, queue, cents, n) && LostSomething(queue, n)
  }

  lemma RoundingStarts(rows: seq<nat>, queue: seq<Part>)
    requires Queued(rows, queue)
    ensures Rounding(rows, queue, Floors(rows), 0, RoundedTotal(rows) - Total(Floors(rows)))
  {
    MissingAtMost(rows, queue, |queue|);
  }

  lemma NextToRaise(rows: seq<nat>, queue: seq<Part>, cents: seq<int>, n: nat, extra: int)
    requires Queued(rows, queue) && Rounding(rows, queue, cents, n, extra) && extra > 0
    ensures n < |queue| && queue[n].index < |cents|
  {
    NextLostSomething(rows, queue, n);
  }

  lemma RoundingGoesOn(rows: seq<nat>, queue: seq<Part>, cents: seq<int>, n: nat, extra: int, raised: seq<int>)
    requires Queued(rows, queue) && Rounding(rows, queue, cents, n, extra) && extra > 0
    requires n < |queue| && queue[n].index < |cents|
    requires raised == cents[queue[n].index := cents[queue[n].index] + 1]
    ensures Rounding(rows, queue, raised, n + 1, extra - 1)
  {
    NextLostSomething(rows, queue, n);
    TotalUpdate(cents, queue[n].index, cents[queue[n].index] + 1);
    forall p | 0 <= p < |queue| && p != n ensures queue[p].index != queue[n].index {
      assert p < n ==> IndexOf(queue[p]) != IndexOf(queue[n]);
      assert n < p ==> IndexOf(queue[n]) != IndexOf(queue[p]);
    }
  }

  lemma RoundingEnds(rows: seq<nat>, queue: seq<Part>, cents: seq<int>, n: nat, extra: int)
    requires Queued(rows, queue) && Rounding(rows, queue, cents, n, extra) && (n >= |queue| || extra == 0)
    ensures WellRounded(rows, cents)
  {
    RaisedIsWellRounded(rows, queue, cents, n);
  }

  /** The loop that gives the extra cents, down the queue. */
  method GiveCents(rows: seq<nat>, queue: seq<Part>, floors: seq<int>, missing: int) returns (cents: seq<int>)
    requires Queued(rows, queue) && Rounding(rows, queue, floors, 0, missing)
    ensures WellRounded(rows, cents)
  {
    cents := floors;
    var extra, n := missing, 0;
    while n < |queue| && extra != 0
      invariant 0 <= n && Rounding(rows, queue, cents, n, extra)
    {
      NextToRaise(rows, queue, cents, n, extra);
      var index := queue[n].index;
      var raised := cents[index := cents[index] + 1];
      RoundingGoesOn(rows, queue, cents, n, extra, raised);
      cents, extra, n := raised, extra - 1, n + 1;
    }
    RoundingEnds(rows, queue, cents, n, extra);
  }

  /** `roundRowsToCents`. */
  method RoundRowsToCents(rows: seq<nat>) returns (cents: seq<int>)
    ensures WellRounded(rows, cents)
  {
    var floors := Floors(rows);
    var queue := Sort(PartsOf(rows), MoreFirst);
    SortedIsQueued(rows);
    RoundingStarts(rows, queue);
    cents := GiveCents(rows, queue, floors, DivCeil(Total(rows), CENT) - Total(floors));
  }
}
