/** The cost shown before a loan is signed: the schedule of its instalments, and that the program
    books exactly that. */
module Schedule {
  import opened Outcomes
  import opened Numbers
  import opened Sums
  import opened Loans
  import opened Settlement
  import Borrowing

  datatype LoanTerms = LoanTerms(principal: int, aprBps: int, termPeriods: int) {
    /** The range check of the terms; past it the page throws. */
    predicate InRange() {
      && 0 < principal <= U64_MAX
      && 0 <= aprBps <= U16_MAX
      && 1 <= termPeriods <= MAX_TERM_PERIODS
    }

    /** Principal due by the end of period `k`, rounded up. */
    function DueBy(k: nat): int
      requires InRange()
    {
      DivCeil(principal * k, termPeriods)
    }

    /** Interest of the first `k` periods if every instalment is paid on its day, as a numerator. */
    function Accrued(k: nat): int
      requires InRange()
    {
      if k == 0 then 0 else Accrued(k - 1) + PeriodInterest(k)
    }

    /** What period `k` adds to it. */
    function PeriodInterest(k: nat): int
      requires InRange() && k > 0
    {
      (principal - DueBy(k - 1)) * aprBps * REPAYMENT_PERIOD
    }

    /** Interest booked by the end of period `k`. */
    function Booked(k: nat): int
      requires InRange()
    {
      Accrued(k) / ACCRUAL_DENOMINATOR
    }

    function RowOf(k: nat): Row
      requires InRange() && k > 0
    {
      Row(k, k * REPAYMENT_PERIOD, DueBy(k) - DueBy(k - 1), Booked(k) - Booked(k - 1))
    }
  }

  datatype Row = Row(period: nat, dueAfterSeconds: int, principal: int, interest: int)

  datatype LoanCost = LoanCost(
    interestIfHeldToTerm: int, totalIfHeldToTerm: int, schedule: seq<Row>, interestOnSchedule: int,
    totalOnSchedule: int, interestPerDayPastDue: int)

  const SECONDS_PER_DAY: int := 86_400

  lemma NothingYet(t: LoanTerms)
    requires t.InRange()
    ensures t.DueBy(0) == 0 && t.Booked(0) == 0
  {
    DivUnique(t.termPeriods - 1, t.termPeriods, 0);
  }

  /** The page's loop over the periods; None where it throws. */
  method ComputeLoanCost(t: LoanTerms) returns (r: Option<LoanCost>)
    ensures r.None? <==> !t.InRange()
    ensures r.Some? ==>
      && |r.value.schedule| == t.termPeriods
      && (forall k :: 1 <= k <= t.termPeriods ==> r.value.schedule[k - 1] == t.RowOf(k))
      && r.value.interestOnSchedule == t.Booked(t.termPeriods)
      && r.value.totalOnSchedule == t.principal + r.value.interestOnSchedule
      && r.value.interestIfHeldToTerm == t.principal * t.aprBps * REPAYMENT_PERIOD * t.termPeriods / ACCRUAL_DENOMINATOR
      && r.value.totalIfHeldToTerm == t.principal + r.value.interestIfHeldToTerm
      && r.value.interestPerDayPastDue == DivCeil(t.principal * t.aprBps * SECONDS_PER_DAY, ACCRUAL_DENOMINATOR)
  {
    if !t.InRange() {
      return None;
    }
    var held := t.principal * t.aprBps * REPAYMENT_PERIOD * t.termPeriods / ACCRUAL_DENOMINATOR;
    var schedule: seq<Row> := [];
    var accrued, booked, repaid := 0, 0, 0;
    NothingYet(t);
    for k := 1 to t.termPeriods + 1
      invariant |schedule| == k - 1
      invariant forall j :: 1 <= j < k ==> schedule[j - 1] == t.RowOf(j)
      invariant accrued == t.Accrued(k - 1) && booked == t.Booked(k - 1) && repaid == t.DueBy(k - 1)
    {
      accrued := accrued + (t.principal - repaid) * t.aprBps * REPAYMENT_PERIOD;
      var interest := accrued / ACCRUAL_DENOMINATOR - booked;
      booked := booked + interest;
      var dueBy := DivCeil(t.principal * k, t.termPeriods);
      schedule := schedule + [Row(k, k * REPAYMENT_PERIOD, dueBy - repaid, interest)];
      repaid := dueBy;
    }
    return Some(LoanCost(held, t.principal + held, schedule, booked, t.principal + booked,
                         DivCeil(t.principal * t.aprBps * SECONDS_PER_DAY, ACCRUAL_DENOMINATOR)));
  }

  // ----- What the schedule adds up to -------------------------------------------------------

  lemma DueByGrows(t: LoanTerms, k: nat)
    requires t.InRange() && 1 <= k <= t.termPeriods
    ensures 0 <= t.DueBy(k - 1) <= t.DueBy(k) <= t.principal
    ensures t.DueBy(t.termPeriods) == t.principal
    ensures t.DueBy(k) > 0
  {
    var p, n := t.principal, t.termPeriods;
    MulMonotone(k - 1, k, p);
    DivMonotone(p * (k - 1) + n - 1, p * k + n - 1, n);
    MulMonotone(k, n, p);
    DivCeilAtMost(p * k, n, p);
    DivCeilAtMost(p * k, n, 0);
    MulMonotone(0, k - 1, p);
    DivCeilAtMost(p * (k - 1), n, -1);
    DivUnique(p * n + n - 1, n, p);
    MulStrict(0, k, p);
  }

  lemma DueByBounds(t: LoanTerms, k: nat)
    requires t.InRange() && k <= t.termPeriods
    ensures 0 <= t.DueBy(k) <= t.principal
  {
    NothingYet(t);
    if k > 0 {
      DueByGrows(t, k);
    }
  }

  lemma {:induction false} AccruedGrows(t: LoanTerms, k: nat)
    requires t.InRange() && k <= t.termPeriods
    ensures 0 <= t.Accrued(k) <= t.principal * t.aprBps * REPAYMENT_PERIOD * k
  {
    if k == 0 {
    } else {
      AccruedGrows(t, k - 1);
      DueByBounds(t, k - 1);
      PeriodAtMost(t.principal - t.DueBy(k - 1), t.principal, t.aprBps);
      var perPeriod := t.principal * t.aprBps * REPAYMENT_PERIOD;
      assert perPeriod * k == perPeriod * (k - 1) + perPeriod;
    }
  }

  lemma PeriodAtMost(outstanding: int, principal: int, aprBps: u16)
    requires 0 <= outstanding <= principal
    ensures 0 <= outstanding * aprBps * REPAYMENT_PERIOD <= principal * aprBps * REPAYMENT_PERIOD
  {
    MulMonotone(0, outstanding, aprBps);
    MulMonotone(outstanding, principal, aprBps);
  }

  function RowPrincipal(row: Row): int { row.principal }
  function RowInterest(row: Row): int { row.interest }

  /** The rows of the first `k` periods. */
  function Rows(t: LoanTerms, k: nat): seq<Row>
    requires t.InRange()
  {
    seq(k, i requires 0 <= i < k => t.RowOf(i + 1))
  }

  lemma RowsAddUp(t: LoanTerms, k: nat)
    requires t.InRange() && k <= t.termPeriods
    ensures Sum(Rows(t, k), RowPrincipal) == t.DueBy(k)
    ensures Sum(Rows(t, k), RowInterest) == t.Booked(k)
  {
    NothingYet(t);
    if k == 0 {
    } else {
      RowsAddUp(t, k - 1);
      assert Rows(t, k) == Rows(t, k - 1) + [t.RowOf(k)];
      SumAppend(Rows(t, k - 1), t.RowOf(k), RowPrincipal);
      SumAppend(Rows(t, k - 1), t.RowOf(k), RowInterest);
    }
  }

  /** The instalments pay back the principal exactly, their interest is the interest on the
      schedule, and that is never more than holding the whole loan to its term would cost. */
  lemma ScheduleAddsUp(t: LoanTerms)
    requires t.InRange()
    ensures Sum(Rows(t, t.termPeriods), RowPrincipal) == t.principal
    ensures Sum(Rows(t, t.termPeriods), RowInterest) == t.Booked(t.termPeriods)
    ensures t.Booked(t.termPeriods)
         <= t.principal * t.aprBps * REPAYMENT_PERIOD * t.termPeriods / ACCRUAL_DENOMINATOR
  {
    RowsAddUp(t, t.termPeriods);
    DueByGrows(t, t.termPeriods);
    AccruedGrows(t, t.termPeriods);
    DivMonotone(t.Accrued(t.termPeriods), t.principal * t.aprBps * REPAYMENT_PERIOD * t.termPeriods,
                ACCRUAL_DENOMINATOR);
  }

  // ----- Replayed through the program -------------------------------------------------------

  /** A loan on these terms the moment the program issues it. */
  predicate Issued(l: LoanState, t: LoanTerms, now: i64) {
    && t.InRange() && now >= 0
    && l.principal == l.outstanding == t.principal && l.aprBps == t.aprBps
    && l.accruedInterest == 0 && l.interestRemainder == 0
    && l.openedAt == l.lastAccrualAt == now && l.status == Active
    && l.dueAt == now + t.termPeriods * REPAYMENT_PERIOD
  }

  /** One row paid through the program, `at` being the end of its period: the loan accrued and
      repaid. A row of nothing is skipped. */
  function PayRow(l: LoanState, row: Row, at: i64): Result<(LoanState, Repayment)> {
    if row.principal + row.interest == 0 then Ok((l, Repayment(0, 0))) else
    var (accrued, _) :- l.Accrue(at);
    var amount :- U64(row.principal + row.interest);
    accrued.ApplyRepayment(amount)
  }

  /** Row `k` paid when it says it falls due. */
  function PayNext(l: LoanState, m: LoanState, t: LoanTerms, k: nat): Result<(LoanState, Repayment)>
    requires t.InRange() && k > 0
  {
    var at :- I64(l.openedAt + t.RowOf(k).dueAfterSeconds);
    PayRow(m, t.RowOf(k), at)
  }

  /** The program took exactly what the row says. */
  predicate TakesRow(r: Repayment, row: Row) {
    r.principal == row.principal && r.interest == row.interest
  }

  /** The loan after its first `k` rows, each taking exactly its principal and its interest. */
  function Replay(l: LoanState, t: LoanTerms, k: nat): Result<LoanState>
    requires t.InRange()
  {
    if k == 0 then Ok(l) else
    var before :- Replay(l, t, k - 1);
    var (after, _) :- PayNext(l, before, t, k);
    Ok(after)
  }

  /** What the loan owes at the end of period `k` fits its account. */
  predicate OwedFits(t: LoanTerms, k: nat)
    requires t.InRange() && k > 0
  {
    t.principal - t.DueBy(k - 1) + t.RowOf(k).interest <= U64_MAX
  }

  /** The loan after `k` rows: what is left of the principal, nothing accrued, and the exact
      fraction not booked. */
  predicate OnSchedule(l: LoanState, m: LoanState, t: LoanTerms, k: nat)
    requires t.InRange()
  {
    var at := l.openedAt + k * REPAYMENT_PERIOD;
    && m == l.(outstanding := m.outstanding, accruedInterest := 0, interestRemainder := m.interestRemainder,
               lastAccrualAt := m.lastAccrualAt, status := m.status, rewardDue := m.rewardDue,
               manualRepayment := m.manualRepayment)
    && m.lastAccrualAt <= at && m.interestRemainder < ACCRUAL_DENOMINATOR
    && m.outstanding == t.principal - t.DueBy(k)
    && (m.IsOpen() <==> m.outstanding > 0)
    && m.Unbooked(at) == t.Accrued(k) - ACCRUAL_DENOMINATOR * t.Booked(k)
  }

  lemma {:induction false} UnbookedAtRow(t: LoanTerms, m: LoanState, l: LoanState, k: nat)
    requires t.InRange() && k > 0 && OnSchedule(l, m, t, k - 1) && l.aprBps == t.aprBps
    ensures m.Unbooked(l.openedAt + k * REPAYMENT_PERIOD) == t.Accrued(k) - ACCRUAL_DENOMINATOR * t.Booked(k - 1)
  {
    var before := l.openedAt + (k - 1) * REPAYMENT_PERIOD;
    OnePeriodMore(m.Rate(), m.lastAccrualAt, before, before + REPAYMENT_PERIOD);
    assert m.Rate() * REPAYMENT_PERIOD == t.PeriodInterest(k);
  }

  lemma AccruedNext(t: LoanTerms, k: nat)
    requires t.InRange() && 1 <= k <= t.termPeriods
    ensures 0 <= t.Accrued(k - 1) <= t.Accrued(k)
  {
    AccruedGrows(t, k - 1);
    DueByBounds(t, k - 1);
    MulMonotone(0, t.principal - t.DueBy(k - 1), t.aprBps);
  }

  lemma RowInterestIsFloor(t: LoanTerms, m: LoanState, l: LoanState, k: nat)
    requires t.InRange() && k > 0 && k <= t.termPeriods && OnSchedule(l, m, t, k - 1) && l.aprBps == t.aprBps
    ensures var unbooked := m.Unbooked(l.openedAt + k * REPAYMENT_PERIOD);
            && unbooked == t.Accrued(k) - ACCRUAL_DENOMINATOR * t.Booked(k - 1) >= 0
            && unbooked / ACCRUAL_DENOMINATOR == t.RowOf(k).interest >= 0
            && unbooked % ACCRUAL_DENOMINATOR == t.Accrued(k) - ACCRUAL_DENOMINATOR * t.Booked(k)
  {
    UnbookedAtRow(t, m, l, k);
    AccruedNext(t, k);
    SplitDivision(t.Accrued(k - 1), t.Accrued(k), ACCRUAL_DENOMINATOR);
    DivMonotone(t.Accrued(k - 1), t.Accrued(k), ACCRUAL_DENOMINATOR);
    DivBounds(t.Accrued(k), ACCRUAL_DENOMINATOR);
  }

  lemma OnePeriodMore(rate: int, from: int, before: int, at: int)
    requires at == before + REPAYMENT_PERIOD
    ensures rate * (at - from) == rate * (before - from) + rate * REPAYMENT_PERIOD
  {
  }

  /** Paying the next row: the program takes exactly its principal and its interest, or refuses
      because what is owed does not fit. */
  lemma PayRowFollows(l: LoanState, m: LoanState, t: LoanTerms, k: nat, at: i64)
    requires t.InRange() && 1 <= k <= t.termPeriods && l.aprBps == t.aprBps && OnSchedule(l, m, t, k - 1)
    requires at == l.openedAt + k * REPAYMENT_PERIOD
    ensures PayRow(m, t.RowOf(k), at).Ok? <==> OwedFits(t, k)
    ensures PayRow(m, t.RowOf(k), at).Ok? ==>
            var (after, r) := PayRow(m, t.RowOf(k), at).value;
            TakesRow(r, t.RowOf(k)) && OnSchedule(l, after, t, k)
  {
    var row := t.RowOf(k);
    RowInterestIsFloor(t, m, l, k);
    DueByGrows(t, k);
    if row.principal + row.interest > 0 {
      OwesSomething(t, m, l, k);
      AccrualFitsExactly(m, at);
      if OwedFits(t, k) {
        PaidOnSchedule(l, Brought(m, at), m.Unbooked(at), row, t, k);
      }
    }
  }

  /** A row that asks for something asks it of a loan that is still open. */
  lemma OwesSomething(t: LoanTerms, m: LoanState, l: LoanState, k: nat)
    requires t.InRange() && 1 <= k <= t.termPeriods && OnSchedule(l, m, t, k - 1) && l.aprBps == t.aprBps
    requires t.RowOf(k).principal + t.RowOf(k).interest > 0
    ensures m.IsOpen()
  {
    DueByGrows(t, k);
  }

  lemma {:induction false} PaidOnSchedule(l: LoanState, accrued: LoanState, unbooked: int, row: Row, t: LoanTerms,
                                          k: nat)
    requires t.InRange() && 1 <= k <= t.termPeriods && row == t.RowOf(k)
    requires 0 <= row.principal <= accrued.outstanding == t.principal - t.DueBy(k - 1) && row.interest >= 0
    requires accrued.outstanding + accrued.accruedInterest <= U64_MAX && row.principal + row.interest > 0
    requires accrued.accruedInterest == row.interest && accrued.IsOpen() && accrued.outstanding > 0
    requires accrued == l.(outstanding := accrued.outstanding, accruedInterest := accrued.accruedInterest,
                           interestRemainder := accrued.interestRemainder, lastAccrualAt := accrued.lastAccrualAt,
                           status := accrued.status, rewardDue := accrued.rewardDue,
                           manualRepayment := accrued.manualRepayment)
    requires accrued.lastAccrualAt == l.openedAt + k * REPAYMENT_PERIOD
    requires accrued.interestRemainder == t.Accrued(k) - ACCRUAL_DENOMINATOR * t.Booked(k)
    requires accrued.interestRemainder < ACCRUAL_DENOMINATOR
    ensures var r := accrued.ApplyRepayment(row.principal + row.interest);
            r.Ok? && TakesRow(r.value.1, row) && OnSchedule(l, r.value.0, t, k)
  {
    var after := accrued.ApplyRepayment(row.principal + row.interest).value.0;
    assert after.Rate() * (after.lastAccrualAt - after.lastAccrualAt) == 0;
  }

  lemma PayNextFollows(l: LoanState, m: LoanState, t: LoanTerms, now: i64, k: nat)
    requires Issued(l, t, now) && 1 <= k <= t.termPeriods && OnSchedule(l, m, t, k - 1)
    ensures PayNext(l, m, t, k).Ok? <==> OwedFits(t, k)
    ensures PayNext(l, m, t, k).Ok? ==>
            var (after, r) := PayNext(l, m, t, k).value; TakesRow(r, t.RowOf(k)) && OnSchedule(l, after, t, k)
  {
    PayRowFollows(l, m, t, k, l.openedAt + k * REPAYMENT_PERIOD);
  }

  /** The ceiling the program works out before it issues a loan holds every period's debt. */
  lemma CeilingHoldsEveryRow(l: LoanState, t: LoanTerms, now: i64, k: nat)
    requires Issued(l, t, now) && l.DebtCeiling(now).Ok? && 1 <= k <= t.termPeriods
    ensures OwedFits(t, k)
  {
    AccrualFitsExactly(l, l.dueAt);
    HeldToTerm(t.principal, t.aprBps, t.termPeriods, now, l.dueAt);
    InterestWithinTerm(t, k);
    DueByBounds(t, k - 1);
  }

  /** What the whole loan earns from its opening to its due date. */
  lemma HeldToTerm(principal: int, aprBps: int, periods: int, openedAt: int, dueAt: int)
    requires dueAt == openedAt + periods * REPAYMENT_PERIOD
    ensures principal * aprBps * (dueAt - openedAt) == principal * aprBps * REPAYMENT_PERIOD * periods
  {
  }

  lemma InterestWithinTerm(t: LoanTerms, k: nat)
    requires t.InRange() && 1 <= k <= t.termPeriods
    ensures t.RowOf(k).interest <= t.principal * t.aprBps * REPAYMENT_PERIOD * t.termPeriods / ACCRUAL_DENOMINATOR
  {
    AccruedGrows(t, k - 1);
    AccruedGrows(t, k);
    MulMonotone(0, t.principal, t.aprBps);
    MulMonotone(k, t.termPeriods, t.principal * t.aprBps * REPAYMENT_PERIOD);
    DivMonotone(0, t.Accrued(k - 1), ACCRUAL_DENOMINATOR);
    DivMonotone(t.Accrued(k), t.principal * t.aprBps * REPAYMENT_PERIOD * t.termPeriods, ACCRUAL_DENOMINATOR);
  }

  lemma OnScheduleAtStart(l: LoanState, t: LoanTerms, now: i64)
    requires Issued(l, t, now)
    ensures OnSchedule(l, l, t, 0)
  {
    NothingYet(t);
    assert l.Rate() * (now - l.lastAccrualAt) == 0;
  }

  lemma {:induction false} ReplayFollows(l: LoanState, t: LoanTerms, now: i64, k: nat)
    requires Issued(l, t, now) && l.DebtCeiling(now).Ok? && k <= t.termPeriods
    ensures Replay(l, t, k).Ok? && OnSchedule(l, Replay(l, t, k).value, t, k)
  {
    if k == 0 {
      OnScheduleAtStart(l, t, now);
    } else {
      ReplayFollows(l, t, now, k - 1);
      CeilingHoldsEveryRow(l, t, now, k);
      PayNextFollows(l, Replay(l, t, k - 1).value, t, now, k);
    }
  }

  /** Row `k`, paid after the rows before it: the program takes exactly its principal and its
      interest, and a row left once the loan is closed asks for nothing. */
  predicate RowIsTaken(l: LoanState, t: LoanTerms, k: nat)
    requires t.InRange() && k > 0
  {
    && Replay(l, t, k - 1).Ok?
    && var before := Replay(l, t, k - 1).value;
    && PayNext(l, before, t, k).Ok? && TakesRow(PayNext(l, before, t, k).value.1, t.RowOf(k))
    && (!before.IsOpen() ==> t.RowOf(k).principal == t.RowOf(k).interest == 0)
  }

  lemma EachRowIsTaken(l: LoanState, t: LoanTerms, now: i64, k: nat)
    requires Issued(l, t, now) && l.DebtCeiling(now).Ok? && 1 <= k <= t.termPeriods
    ensures RowIsTaken(l, t, k)
  {
    ReplayFollows(l, t, now, k - 1);
    var before := Replay(l, t, k - 1).value;
    CeilingHoldsEveryRow(l, t, now, k);
    PayNextFollows(l, before, t, now, k);
    if !before.IsOpen() {
      ClosedOwesNothing(l, before, t, k);
    }
  }

  lemma ClosedOwesNothing(l: LoanState, m: LoanState, t: LoanTerms, k: nat)
    requires t.InRange() && 1 <= k <= t.termPeriods && OnSchedule(l, m, t, k - 1) && l.aprBps == t.aprBps && !m.IsOpen()
    ensures t.RowOf(k).principal == t.RowOf(k).interest == 0
  {
    RowInterestIsFloor(t, m, l, k);
    DueByGrows(t, k);
    if t.RowOf(k).principal + t.RowOf(k).interest > 0 {
      OwesSomething(t, m, l, k);
    }
  }

  /** A loan the program issues is one on the terms that were quoted, its ceiling worked out. */
  lemma BorrowIssues(b: Books, keys: seq<nat>, t: Borrowing.Terms, watch: Option<u64>, balance: u64, now: i64,
                     r: Borrowing.Borrowed)
    requires |keys| == |b.loans| && t.rate > 0 && Borrowing.Borrow(b, keys, t, watch, balance, now) == Ok(r)
    ensures Issued(r.loan, LoanTerms(t.amount, r.loan.aprBps, t.termPeriods), now) && r.loan.DebtCeiling(now).Ok?
  {
    var a, lent := Borrowing.BorrowSteps(b, keys, t, watch, balance, now, r);
    Borrowing.IssueSteps(lent, t, r.loan.aprBps, a.ceiling, now, Borrowing.Issuing(r.books.pool, r.loan, r.allowance));
  }

  /** The quoted schedule is what the program books: for every loan it issues, paying the rows as
      they fall due is never refused, takes exactly each row, and closes the loan by the last. */
  lemma ScheduleIsWhatTheProgramBooks(b: Books, keys: seq<nat>, t: Borrowing.Terms, watch: Option<u64>, balance: u64,
                                      now: i64, r: Borrowing.Borrowed)
    requires |keys| == |b.loans| && t.rate > 0 && Borrowing.Borrow(b, keys, t, watch, balance, now) == Ok(r)
    ensures var quoted := LoanTerms(t.amount, r.loan.aprBps, t.termPeriods);
            && quoted.InRange()
            && (forall k :: 1 <= k <= t.termPeriods ==> RowIsTaken(r.loan, quoted, k))
            && Replay(r.loan, quoted, t.termPeriods).Ok?
            && Replay(r.loan, quoted, t.termPeriods).value.status == Repaid
  {
    var quoted := LoanTerms(t.amount, r.loan.aprBps, t.termPeriods);
    BorrowIssues(b, keys, t, watch, balance, now, r);
    ReplayFollows(r.loan, quoted, now, t.termPeriods);
    DueByGrows(quoted, t.termPeriods);
    forall k | 1 <= k <= t.termPeriods ensures RowIsTaken(r.loan, quoted, k) {
      EachRowIsTaken(r.loan, quoted, now, k);
    }
  }

  /** The total of holding the loan to its term is the debt ceiling the program works out for it. */
  lemma HeldToTermIsTheCeiling(l: LoanState, t: LoanTerms, now: i64)
    requires Issued(l, t, now) && l.DebtCeiling(now).Ok?
    ensures l.DebtCeiling(now).value
         == t.principal + t.principal * t.aprBps * REPAYMENT_PERIOD * t.termPeriods / ACCRUAL_DENOMINATOR
  {
    AccrualFitsExactly(l, l.dueAt);
    HeldToTerm(t.principal, t.aprBps, t.termPeriods, now, l.dueAt);
  }

  /** A day past due costs what the page says or one unit less, whatever second it starts at. */
  lemma DayPastDueCosts(m: LoanState, t: LoanTerms, at: int)
    requires t.InRange() && m.outstanding == t.principal && m.aprBps == t.aprBps
    ensures var shown := DivCeil(t.principal * t.aprBps * SECONDS_PER_DAY, ACCRUAL_DENOMINATOR);
            shown - 1 <= DebtNow(m, at + 86_400) - DebtNow(m, at) <= shown
  {
    var from, grown := m.Unbooked(at), m.Rate() * 86_400;
    assert m.Rate() * (at + 86_400 - m.lastAccrualAt) == m.Rate() * (at - m.lastAccrualAt) + grown;
    assert grown == t.principal * t.aprBps * SECONDS_PER_DAY;
    DayBounds(from, grown);
  }

  lemma DayBounds(from: int, grown: int)
    ensures var shown := DivCeil(grown, ACCRUAL_DENOMINATOR);
            shown - 1 <= (from + grown) / ACCRUAL_DENOMINATOR - from / ACCRUAL_DENOMINATOR <= shown
  {
    var d := ACCRUAL_DENOMINATOR;
    DivBounds(from, d);
    DivBounds(from + grown, d);
    DivCeilBounds(grown, d);
  }

  /** The program's own due date arithmetic agrees with the schedule's at each period's end. */
  lemma DueByIsTheProgram(l: LoanState, t: LoanTerms, now: i64, k: nat)
    requires Issued(l, t, now) && k <= t.termPeriods
    ensures l.PrincipalDueBy(l.openedAt + k * REPAYMENT_PERIOD) == t.DueBy(k)
  {
    DivUnique(l.dueAt - l.openedAt, REPAYMENT_PERIOD, t.termPeriods);
    DivUnique(k * REPAYMENT_PERIOD, REPAYMENT_PERIOD, k);
  }
}
