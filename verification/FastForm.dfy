/** The pool prices its interest from three sums, without touching a loan: how that compares with
    asking every loan. */
module FastForm {
  import opened Numbers
  import opened Sums
  import opened Loans
  import opened Settlement
  import opened SharePrice
  import opened Protocol
  import opened Ledger
  import opened Solvency

  function EarnedAt(now: int): LoanState -> int {
    (l: LoanState) => EarnedBy(l, now)
  }

  /** What one open loan would book if it were accrued at `now`. */
  function BookedAt(now: int): LoanState -> int {
    (l: LoanState) => if l.IsOpen() then Booked(l, now) else 0
  }

  lemma {:induction false} EarnedInSums(loans: seq<LoanState>, now: int)
    ensures Sum(loans, EarnedAt(now)) == Sum(loans, RateOf) * now - Sum(loans, RateTimeOf) + Sum(loans, RemainderOf)
  {
    if loans == [] {
    } else {
      var n := |loans| - 1;
      EarnedInSums(loans[..n], now);
      EarnedByTerms(loans[n], now);
      Distribute3(Sum(loans[..n], RateOf), RateOf(loans[n]), 0, now);
    }
  }

  /** Over all loans, the whole units each would book and the fractions each would carry on. */
  lemma {:induction false} FloorsOfLoans(loans: seq<LoanState>, now: int)
    ensures var floors, open := Sum(loans, BookedAt(now)), Sum(loans, OpenCount);
            && open >= 0
            && ACCRUAL_DENOMINATOR * floors <= Sum(loans, EarnedAt(now))
                                            <= ACCRUAL_DENOMINATOR * floors + (ACCRUAL_DENOMINATOR - 1) * open
  {
    if loans == [] {
    } else {
      var n := |loans| - 1;
      FloorsOfLoans(loans[..n], now);
      DivBounds(loans[n].Unbooked(now), ACCRUAL_DENOMINATOR);
    }
  }

  lemma FloorOfFloors(earned: int, floors: int, open: int)
    requires open >= 0
    requires ACCRUAL_DENOMINATOR * floors <= earned <= ACCRUAL_DENOMINATOR * floors + (ACCRUAL_DENOMINATOR - 1) * open
    ensures floors <= earned / ACCRUAL_DENOMINATOR <= floors + Max(open - 1, 0)
  {
    DivAtLeast(earned, ACCRUAL_DENOMINATOR, floors);
    DivAtLeast(earned, ACCRUAL_DENOMINATOR, floors + Max(open - 1, 0) + 1);
  }

  lemma EarnedByNonNegative(l: LoanState, now: int)
    requires l.WellFormed(now)
    ensures EarnedBy(l, now) >= 0
  {
    MulMonotone(0, now - l.lastAccrualAt, l.Rate());
  }

  lemma {:induction false} EarnedNonNegative(loans: seq<LoanState>, now: int)
    requires forall i :: 0 <= i < |loans| ==> loans[i].WellFormed(now)
    ensures Sum(loans, EarnedAt(now)) >= 0
  {
    forall i | 0 <= i < |loans| ensures EarnedAt(now)(loans[i]) >= 0 {
      EarnedByNonNegative(loans[i], now);
    }
    SumAtMost(loans, (l: LoanState) => 0, EarnedAt(now));
    SumZero(loans, (l: LoanState) => 0);
  }

  /** The pool's three sums count what its open loans earned and did not book, to the fraction. */
  lemma EarnedIsTheLoans(w: World)
    requires Sound(w)
    ensures Earned(w.pool, w.clock) == Sum(w.loans, EarnedAt(w.clock)) >= 0
  {
    EarnedInSums(w.loans, w.clock);
    EarnedNonNegative(w.loans, w.clock);
  }

  /** With n open loans, the interest the pool counts is at least what they would book one by one,
      and more by at most n - 1 units: the fractions add up before they are dropped. */
  lemma FastFormRefinesTheFold(w: World)
    requires Sound(w) && w.pool.UnbookedInterest(w.clock).Ok?
    ensures var unbooked := w.pool.UnbookedInterest(w.clock).value;
            var oneByOne, open := Sum(w.loans, BookedAt(w.clock)), Sum(w.loans, OpenCount);
            oneByOne <= unbooked <= oneByOne + Max(open - 1, 0)
    ensures forall i :: 0 <= i < |w.loans| && w.loans[i].IsOpen() && w.loans[i].Accrue(w.clock).Ok? ==>
              w.loans[i].Accrue(w.clock).value.1 == BookedAt(w.clock)(w.loans[i])
  {
    EarnedIsTheLoans(w);
    FloorsOfLoans(w.loans, w.clock);
    FloorOfFloors(Earned(w.pool, w.clock), Sum(w.loans, BookedAt(w.clock)), Sum(w.loans, OpenCount));
    forall i | 0 <= i < |w.loans| && w.loans[i].IsOpen() && w.loans[i].Accrue(w.clock).Ok?
      ensures w.loans[i].Accrue(w.clock).value.1 == Booked(w.loans[i], w.clock)
    {
      AccrueFitsExactly(w.loans[i], w.clock);
    }
  }
}
