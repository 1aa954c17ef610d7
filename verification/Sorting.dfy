/** A stable sort, as the libraries of the program and of the page provide it. */
module Sorting {

  ghost predicate TotalPreorder<T(!new)>(le: (T, T) -> bool) {
    && (forall x, y :: le(x, y) || le(y, x))
    && (forall x, y, z :: le(x, y) && le(y, z) ==> le(x, z))
  }

  ghost predicate Ordered<T>(xs: seq<T>, le: (T, T) -> bool) {
    forall i, j :: 0 <= i < j < |xs| ==> le(xs[i], xs[j])
  }

  /** `x` placed after every element it does not come before. */
  function Insert<T>(xs: seq<T>, x: T, le: (T, T) -> bool): seq<T> {
    if xs == [] || le(xs[|xs| - 1], x) then xs + [x]
    else Insert(xs[..|xs| - 1], x, le) + [xs[|xs| - 1]]
  }

  function Sort<T>(xs: seq<T>, le: (T, T) -> bool): seq<T> {
    if xs == [] then [] else Insert(Sort(xs[..|xs| - 1], le), xs[|xs| - 1], le)
  }

  lemma {:induction false} InsertKeeps<T>(xs: seq<T>, x: T, le: (T, T) -> bool)
    ensures multiset(Insert(xs, x, le)) == multiset(xs) + multiset{x}
    ensures |Insert(xs, x, le)| == |xs| + 1
  {
    if xs == [] || le(xs[|xs| - 1], x) {
    } else {
      InsertKeeps(xs[..|xs| - 1], x, le);
      assert xs == xs[..|xs| - 1] + [xs[|xs| - 1]];
    }
  }

  lemma {:induction false} SortKeeps<T>(xs: seq<T>, le: (T, T) -> bool)
    ensures multiset(Sort(xs, le)) == multiset(xs)
    ensures |Sort(xs, le)| == |xs|
  {
    if xs == [] {
    } else {
      SortKeeps(xs[..|xs| - 1], le);
      InsertKeeps(Sort(xs[..|xs| - 1], le), xs[|xs| - 1], le);
      assert xs == xs[..|xs| - 1] + [xs[|xs| - 1]];
    }
  }

  lemma {:induction false} InsertOrders<T(!new)>(xs: seq<T>, x: T, le: (T, T) -> bool)
    requires TotalPreorder(le) && Ordered(xs, le)
    ensures Ordered(Insert(xs, x, le), le)
  {
    var n := |xs| - 1;
    if xs != [] && !le(xs[n], x) {
      InsertOrders(xs[..n], x, le);
      var head := Insert(xs[..n], x, le);
      InsertKeeps(xs[..n], x, le);
      forall i | 0 <= i < |head| ensures le(head[i], xs[n]) {
        assert head[i] in multiset(head);
        assert head[i] in xs[..n] || head[i] == x;
      }
    } else if xs != [] {
      forall i | 0 <= i <= n ensures le(xs[i], x) {
        assert i == n || le(xs[i], xs[n]);
      }
    }
  }

  /** The sorted list is ordered. */
  lemma {:induction false} SortOrders<T(!new)>(xs: seq<T>, le: (T, T) -> bool)
    requires TotalPreorder(le)
    ensures Ordered(Sort(xs, le), le)
  {
    if xs == [] {
    } else {
      SortOrders(xs[..|xs| - 1], le);
      InsertOrders(Sort(xs[..|xs| - 1], le), xs[|xs| - 1], le);
    }
  }

  /** The relation tells any two different elements of the list apart. */
  ghost predicate Strict<T>(xs: seq<T>, le: (T, T) -> bool) {
    forall x, y :: x in xs && y in xs && le(x, y) && le(y, x) ==> x == y
  }

  lemma WithoutLast<T>(xs: seq<T>)
    requires xs != []
    ensures multiset(xs[..|xs| - 1]) == multiset(xs) - multiset{xs[|xs| - 1]}
  {
    assert xs == xs[..|xs| - 1] + [xs[|xs| - 1]];
  }

  lemma SameLast<T(!new)>(xs: seq<T>, ys: seq<T>, le: (T, T) -> bool)
    requires Ordered(xs, le) && Ordered(ys, le) && multiset(xs) == multiset(ys)
    requires Strict(xs, le) && xs != [] && ys != []
    ensures xs[|xs| - 1] == ys[|ys| - 1]
  {
    var x, y := xs[|xs| - 1], ys[|ys| - 1];
    assert y in multiset(xs) && x in multiset(ys);
    var i :| 0 <= i < |xs| && xs[i] == y;
    var j :| 0 <= j < |ys| && ys[j] == x;
    assert i == |xs| - 1 || le(xs[i], xs[|xs| - 1]);
    assert j == |ys| - 1 || le(ys[j], ys[|ys| - 1]);
  }

  ghost predicate SameOrdered<T>(xs: seq<T>, ys: seq<T>, le: (T, T) -> bool) {
    Ordered(xs, le) && Ordered(ys, le) && multiset(xs) == multiset(ys) && Strict(xs, le)
  }

  lemma ShorterSameOrdered<T(!new)>(xs: seq<T>, ys: seq<T>, le: (T, T) -> bool)
    requires SameOrdered(xs, ys, le) && xs != [] && ys != []
    ensures SameOrdered(xs[..|xs| - 1], ys[..|ys| - 1], le)
    ensures xs[|xs| - 1] == ys[|ys| - 1]
  {
    SameLast(xs, ys, le);
    WithoutLast(xs);
    WithoutLast(ys);
    forall x | x in xs[..|xs| - 1] ensures x in xs {}
  }

  lemma SameLength<T>(xs: seq<T>, ys: seq<T>)
    requires multiset(xs) == multiset(ys)
    ensures |xs| == |ys|
  {
    assert |xs| == |multiset(xs)| && |ys| == |multiset(ys)|;
  }

  /** Two orderings of the same elements by a relation that tells them apart are one: the order
      the elements were handed over in does not show. */
  lemma OrderedIsUnique<T(!new)>(xs: seq<T>, ys: seq<T>, le: (T, T) -> bool)
    requires SameOrdered(xs, ys, le)
    ensures xs == ys
  {
    SameLength(xs, ys);
    if xs == [] {
    } else {
      var n := |xs| - 1;
      ShorterSameOrdered(xs, ys, le);
      OrderedIsUnique(xs[..n], ys[..n], le);
      assert xs == xs[..n] + [xs[n]] && ys == ys[..n] + [ys[n]];
    }
  }

  // ----- The same elements ------------------------------------------------------------------

  lemma SameElements<T>(xs: seq<T>, ys: seq<T>)
    requires multiset(xs) == multiset(ys)
    ensures forall x :: x in ys <==> x in xs
  {
    forall x | x in xs || x in ys ensures x in ys <==> x in xs {
      assert x in multiset(ys) <==> x in multiset(xs);
    }
  }

  lemma DistinctByMultiset<T>(xs: seq<T>, ys: seq<T>)
    requires multiset(xs) == multiset(ys)
    requires forall i, j :: 0 <= i < j < |xs| ==> xs[i] != xs[j]
    ensures forall i, j :: 0 <= i < j < |ys| ==> ys[i] != ys[j]
  {
    forall i, j | 0 <= i < j < |ys| ensures ys[i] != ys[j] {
      if ys[i] == ys[j] {
        OccursTwice(ys, i, j);
        OccursOnce(xs, ys[i]);
      }
    }
  }

  lemma OccursTwice<T>(ys: seq<T>, i: nat, j: nat)
    requires i < j < |ys| && ys[i] == ys[j]
    ensures multiset(ys)[ys[i]] >= 2
  {
    assert ys == ys[..j] + [ys[j]] + ys[j + 1..];
    assert ys[i] in ys[..j];
  }

  lemma OccursOnce<T>(xs: seq<T>, x: T)
    requires forall i, j :: 0 <= i < j < |xs| ==> xs[i] != xs[j]
    ensures multiset(xs)[x] <= 1
  {
    if xs == [] {
    } else {
      var n := |xs| - 1;
      OccursOnce(xs[..n], x);
      assert xs == xs[..n] + [xs[n]];
      if x == xs[n] {
        assert x !in xs[..n];
      }
    }
  }

  /** The list holds each item exactly once, `place` telling which it is. */
  ghost predicate EachOnce<T>(items: seq<T>, list: seq<T>, place: T -> nat) {
    && (forall p :: 0 <= p < |list| ==> place(list[p]) < |items| && list[p] == items[place(list[p])])
    && (forall p, q :: 0 <= p < q < |list| ==> place(list[p]) != place(list[q]))
    && (forall i :: 0 <= i < |items| ==> items[i] in list)
  }

  /** Sorting items that know their places keeps each of them, once. */
  lemma {:induction false} SortKeepsEach<T>(items: seq<T>, le: (T, T) -> bool, place: T -> nat)
    requires forall i :: 0 <= i < |items| ==> place(items[i]) == i
    ensures EachOnce(items, Sort(items, le), place)
  {
    var list := Sort(items, le);
    SortKeeps(items, le);
    SameElements(items, list);
    DistinctByMultiset(items, list);
    forall p | 0 <= p < |list| ensures place(list[p]) < |items| && list[p] == items[place(list[p])] {
      assert list[p] in multiset(list);
      assert list[p] in multiset(items);
      var i :| 0 <= i < |items| && items[i] == list[p];
    }
  }

  lemma PlaceOf<T>(items: seq<T>, list: seq<T>, place: T -> nat, i: nat) returns (p: nat)
    requires EachOnce(items, list, place) && i < |items|
    ensures p < |list| && list[p] == items[i]
  {
    assert items[i] in list;
    p :| 0 <= p < |list| && list[p] == items[i];
  }

  /** Elements neither of which comes before the other stay in the order of their places. */
  ghost predicate Stable<T>(list: seq<T>, le: (T, T) -> bool, place: T -> nat) {
    forall p, q :: 0 <= p < q < |list| && le(list[q], list[p]) ==> place(list[p]) < place(list[q])
  }

  lemma {:induction false} InsertedFrom<T>(xs: seq<T>, x: T, le: (T, T) -> bool, p: nat)
    requires p < |Insert(xs, x, le)|
    ensures Insert(xs, x, le)[p] in xs || Insert(xs, x, le)[p] == x
  {
    InsertKeeps(xs, x, le);
    assert Insert(xs, x, le)[p] in multiset(Insert(xs, x, le));
  }

  lemma {:induction false} InsertStable<T>(xs: seq<T>, x: T, le: (T, T) -> bool, place: T -> nat)
    requires Stable(xs, le, place) && forall i :: 0 <= i < |xs| ==> place(xs[i]) < place(x)
    ensures Stable(Insert(xs, x, le), le, place)
  {
    if xs == [] || le(xs[|xs| - 1], x) {
    } else {
      var n := |xs| - 1;
      InsertStable(xs[..n], x, le, place);
      var head := Insert(xs[..n], x, le);
      forall p | 0 <= p < |head| && le(xs[n], head[p]) ensures place(head[p]) < place(xs[n]) {
        InsertedFrom(xs[..n], x, le, p);
        if head[p] != x {
          var i :| 0 <= i < n && xs[i] == head[p];
        }
      }
    }
  }

  /** Sorting items that know their places leaves ties in the order they came in. */
  lemma {:induction false} SortStable<T>(items: seq<T>, le: (T, T) -> bool, place: T -> nat)
    requires forall i :: 0 <= i < |items| ==> place(items[i]) == i
    ensures Stable(Sort(items, le), le, place)
  {
    if items == [] {
    } else {
      var n := |items| - 1;
      SortStable(items[..n], le, place);
      SortKeepsEach(items[..n], le, place);
      InsertStable(Sort(items[..n], le), items[n], le, place);
    }
  }
}
