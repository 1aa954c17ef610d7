/** Where an operator stands: what each loan owes at this second, and its next payment. */
module Positions {
  import opened Outcomes
  import opened Numbers
  import opened Sums
  import opened Loans
  import opened Settlement

  datatype NextPayment =
    | Instalment(dueAt: int, principal: int, interest: int)
    | DueNow(since: int, principal: int, interest: int)
  {
    /** When the payment falls or fell due. */
    function When(): int {
      match this
      case Instalment(dueAt, _, _) => dueAt
      case DueNow(since, _, _) => since
    }

    function Amount(): int {
      principal + interest
    }
  }

  datatype LoanPosition = LoanPosition(outstanding: int, interest: int, owed: int, next: NextPayment)

  datatype OperatorPosition = OperatorPosition(outstanding: int, interest: int, owed: int, next: Option<NextPayment>)

  /** The fields of a loan the page reads. */
  datatype PageLoan = PageLoan(
    principal: nat, outstanding: nat, accruedInterest: nat, interestRemainder: nat, openedAt: int, dueAt: int,
    lastAccrualAt: int, aprBps: nat)
  {
    /** `accrueTo`: the program's accrual without its integer widths; interest and fraction. */
    function AccrueTo(at: int): (int, int) {
      if at <= lastAccrualAt then (accruedInterest, interestRemainder) else
      var numerator := outstanding * aprBps * (at - lastAccrualAt) + interestRemainder;
      (accruedInterest + numerator / ACCRUAL_DENOMINATOR, numerator % ACCRUAL_DENOMINATOR)
    }
  }

  /** A loan of the program as the page reads it. */
  function Seen(l: LoanState): PageLoan {
    PageLoan(l.principal, l.outstanding, l.accruedInterest, l.interestRemainder, l.openedAt, l.dueAt, l.lastAccrualAt,
             l.aprBps)
  }

  function AccrueTo(l: LoanState, at: int): (int, int) {
    Seen(l).AccrueTo(at)
  }

  function PrincipalDueAfter(l: LoanState, periods: int, k: int): int
    requires periods > 0
  {
    DivCeil(l.principal * k, periods)
  }

  /** The page accrues as the program would, wherever the program does not overflow. */
  lemma AccrueToIsAccrue(l: LoanState, at: i64)
    requires l.Accrue(at).Ok?
    ensures var m := l.Accrue(at).value.0;
            AccrueTo(l, at) == (m.accruedInterest, m.interestRemainder)
  {
    if at > l.lastAccrualAt {
      AccrualFitsExactly(l, at);
    }
  }

  // ----- One loan ---------------------------------------------------------------------------

  function Repaid(l: LoanState): int {
    l.principal - l.outstanding
  }

  /** What the page shows for the first instalment not repaid, the `k`-th. */
  function PaymentAt(l: LoanState, now: int, k: nat): NextPayment
    requires l.Periods() > 0
  {
    var dueAt := l.openedAt + k * REPAYMENT_PERIOD;
    if dueAt > now then
      Instalment(dueAt, PrincipalDueAfter(l, l.Periods(), k) - Repaid(l), AccrueTo(l, dueAt).0)
    else
      var passed := Min(DivTrunc(now - l.openedAt, REPAYMENT_PERIOD), l.Periods());
      DueNow(dueAt, PrincipalDueAfter(l, l.Periods(), passed) - Repaid(l), AccrueTo(l, now).0)
  }

  /** The first instalment from the `k`-th on that is not repaid. */
  predicate FirstUnpaid(l: LoanState, k: nat) {
    && 1 <= k <= l.Periods()
    && PrincipalDueAfter(l, l.Periods(), k) > Repaid(l)
    && forall j :: 1 <= j < k ==> PrincipalDueAfter(l, l.Periods(), j) <= Repaid(l)
  }

  lemma DueAfterGrows(l: LoanState, periods: int, j: nat, k: nat)
    requires periods > 0 && j <= k
    ensures PrincipalDueAfter(l, periods, j) <= PrincipalDueAfter(l, periods, k)
  {
    MulMonotone(j, k, l.principal);
    DivMonotone(l.principal * j + periods - 1, l.principal * k + periods - 1, periods);
  }

  lemma AllDueAtTheEnd(l: LoanState, periods: int)
    requires periods > 0
    ensures PrincipalDueAfter(l, periods, periods) == l.principal
  {
    DivUnique(l.principal * periods + periods - 1, periods, l.principal);
  }

  /** The search from the `j`-th instalment on. */
  function FirstFrom(l: LoanState, j: nat): nat
    requires l.Periods() > 0
    decreases l.Periods() - j
  {
    if j >= l.Periods() || PrincipalDueAfter(l, l.Periods(), j) > Repaid(l) then j else FirstFrom(l, j + 1)
  }

  lemma {:induction false} FirstFromFinds(l: LoanState, j: nat)
    requires 1 <= j <= l.Periods() && l.outstanding > 0
    requires forall i :: 1 <= i < j ==> PrincipalDueAfter(l, l.Periods(), i) <= Repaid(l)
    ensures FirstUnpaid(l, FirstFrom(l, j))
    decreases l.Periods() - j
  {
    AllDueAtTheEnd(l, l.Periods());
    if j == l.Periods() || PrincipalDueAfter(l, l.Periods(), j) > Repaid(l) {
    } else {
      FirstFromFinds(l, j + 1);
    }
  }

  lemma FirstIsUnique(l: LoanState, j: nat, k: nat)
    requires FirstUnpaid(l, j) && FirstUnpaid(l, k)
    ensures j == k
  {
  }

  /** Every open loan the program can have has a next instalment: the page never throws on one. */
  lemma {:induction false} OpenLoanHasInstalment(l: LoanState, now: int)
    requires l.WellFormed(now) && l.IsOpen()
    ensures FirstUnpaid(l, FirstFrom(l, 1))
  {
    FirstFromFinds(l, 1);
  }

  /** The position of an open loan, as a value. */
  function PositionOf(l: LoanState, now: int): LoanPosition
    requires l.Periods() > 0
  {
    var interest := AccrueTo(l, now).0;
    LoanPosition(l.outstanding, interest, l.outstanding + interest, PaymentAt(l, now, FirstFrom(l, 1)))
  }

  lemma {:induction false} FirstFromIs(l: LoanState, k: nat)
    requires l.outstanding > 0 && FirstUnpaid(l, k)
    ensures FirstFrom(l, 1) == k
  {
    FirstFromFinds(l, 1);
    FirstIsUnique(l, FirstFrom(l, 1), k);
  }

  /** The page's search; None where it throws: with no principal left, or on dates less than a
      period apart. On every other loan it finds an instalment. */
  method ComputeLoanPosition(l: LoanState, now: int) returns (r: Option<LoanPosition>)
    ensures r == if l.outstanding <= 0 || l.Periods() <= 0 then None else Some(PositionOf(l, now))
  {
    if l.outstanding <= 0 {
      return None;
    }
    var interest := AccrueTo(l, now).0;
    var repaid := l.principal - l.outstanding;
    var periods := DivTrunc(l.dueAt - l.openedAt, REPAYMENT_PERIOD);
    var k := 1;
    while k <= periods
      invariant 1 <= k && periods == l.Periods() && (periods > 0 ==> k <= periods)
      invariant forall j :: 1 <= j < k ==> periods > 0 && PrincipalDueAfter(l, periods, j) <= repaid
      decreases periods - k
    {
      var dueBy := PrincipalDueAfter(l, periods, k);
      if dueBy > repaid {
        FirstFromIs(l, k);
        var dueAt := l.openedAt + k * REPAYMENT_PERIOD;
        var next;
        if dueAt > now {
          next := Instalment(dueAt, dueBy - repaid, AccrueTo(l, dueAt).0);
        } else {
          var passed := DivTrunc(now - l.openedAt, REPAYMENT_PERIOD);
          var owedBy := PrincipalDueAfter(l, periods, if passed < periods then passed else periods);
          next := DueNow(dueAt, owedBy - repaid, interest);
        }
        return Some(LoanPosition(l.outstanding, interest, l.outstanding + interest, next));
      }
      AllDueAtTheEnd(l, periods);
      k := k + 1;
    }
    return None;
  }

  lemma PeriodsPassed(l: LoanState, now: int, k: nat)
    requires l.WellFormed(now)
    ensures l.openedAt + k * REPAYMENT_PERIOD <= now <==> k <= DivTrunc(now - l.openedAt, REPAYMENT_PERIOD)
  {
    DivAtLeast(now - l.openedAt, REPAYMENT_PERIOD, k);
  }

  /** A payment is due now exactly when the program's schedule expects more repaid by now than was,
      and then it is that difference, with the interest of this second. */
  lemma DueNowExactlyWhenBehind(l: LoanState, now: int)
    requires l.WellFormed(now) && l.IsOpen()
    ensures var next := PositionOf(l, now).next;
            && (next.DueNow? <==> l.PrincipalDueBy(now) > Repaid(l))
            && (next.DueNow? ==>
                  next.principal == l.PrincipalDueBy(now) - Repaid(l) && next.interest == AccrueTo(l, now).0)
            && 0 < next.principal <= l.outstanding && next.interest >= 0
  {
    var k := FirstFrom(l, 1);
    var passed := DivTrunc(now - l.openedAt, REPAYMENT_PERIOD);
    var reached := Min(passed, l.Periods());
    OpenLoanHasInstalment(l, now);
    PeriodsPassed(l, now, k);
    PeriodsPassed(l, now, 0);
    NothingDueAtStart(l);
    if k <= passed {
      DueAfterGrows(l, l.Periods(), k, reached);
    }
    DueAfterGrows(l, l.Periods(), reached, l.Periods());
    DueAfterGrows(l, l.Periods(), k, l.Periods());
    AllDueAtTheEnd(l, l.Periods());
    AccruesNonNegative(l, now);
    AccruesNonNegative(l, l.openedAt + k * REPAYMENT_PERIOD);
  }

  lemma NothingDueAtStart(l: LoanState)
    requires l.Periods() > 0
    ensures PrincipalDueAfter(l, l.Periods(), 0) == 0
  {
    DivUnique(l.Periods() - 1, l.Periods(), 0);
  }

  lemma AccruesNonNegative(l: LoanState, at: int)
    ensures AccrueTo(l, at).0 >= l.accruedInterest
  {
    if at > l.lastAccrualAt {
      UnbookedGrows(l, l.lastAccrualAt, at);
      DivAtLeast(l.Unbooked(at), ACCRUAL_DENOMINATOR, 0);
      assert AccrueTo(l, at).0 == l.accruedInterest + l.Unbooked(at) / ACCRUAL_DENOMINATOR;
    }
  }

  lemma AccrueToGrows(l: LoanState, from: int, to: int)
    requires l.WellFormed(from) && from <= to
    ensures AccrueTo(l, from).0 <= AccrueTo(l, to).0
  {
    MulMonotone(from - l.lastAccrualAt, to - l.lastAccrualAt, l.Rate());
    DivMonotone(l.Unbooked(from), l.Unbooked(to), ACCRUAL_DENOMINATOR);
    AccruesNonNegative(l, to);
  }

  // ----- All of an operator's loans ---------------------------------------------------------

  function OutstandingIn(p: LoanPosition): int { p.outstanding }
  function InterestIn(p: LoanPosition): int { p.interest }
  function OwedIn(p: LoanPosition): int { p.owed }

  /** What is due now comes before any instalment, then the sooner before the later. */
  predicate NoLater(a: NextPayment, b: NextPayment) {
    if a.DueNow? != b.DueNow? then a.DueNow? else a.When() <= b.When()
  }

  function EarlierOf(a: NextPayment, b: NextPayment): NextPayment {
    if a.DueNow? != b.DueNow? then (if a.DueNow? then a else b)
    else if b.When() < a.When() then b else a
  }

  /** Paid together with the lead: everything due now, or all due the same second. */
  predicate Together(lead: NextPayment, p: NextPayment) {
    if lead.DueNow? then p.DueNow? else p.Instalment? && p.dueAt == lead.dueAt
  }

  function PrincipalTogether(lead: NextPayment): LoanPosition -> int {
    (p: LoanPosition) => if Together(lead, p.next) then p.next.principal else 0
  }

  function InterestTogether(lead: NextPayment): LoanPosition -> int {
    (p: LoanPosition) => if Together(lead, p.next) then p.next.interest else 0
  }

  /** One of the payments shown, and no other comes before it. */
  predicate Leads(positions: seq<LoanPosition>, lead: NextPayment) {
    && (exists i :: 0 <= i < |positions| && positions[i].next == lead)
    && forall i :: 0 <= i < |positions| ==> NoLater(lead, positions[i].next)
  }

  function Reworded(lead: NextPayment, principal: int, interest: int): NextPayment {
    match lead
    case Instalment(dueAt, _, _) => Instalment(dueAt, principal, interest)
    case DueNow(since, _, _) => DueNow(since, principal, interest)
  }

  /** Dated as the lead is, and all that is paid with it. */
  function Lead(positions: seq<LoanPosition>, lead: NextPayment): NextPayment {
    Reworded(lead, Sum(positions, PrincipalTogether(lead)), Sum(positions, InterestTogether(lead)))
  }

  /** What `operatorPosition` shows of an operator's loans. */
  ghost predicate Shows(positions: seq<LoanPosition>, r: OperatorPosition) {
    && r.outstanding == Sum(positions, OutstandingIn) && r.interest == Sum(positions, InterestIn)
    && r.owed == Sum(positions, OwedIn)
    && (r.next.None? <==> positions == [])
    && (r.next.Some? ==> exists lead :: Leads(positions, lead) && r.next.value == Lead(positions, lead))
  }

  /** The page's two passes: the totals with the earliest payment, then all that is paid with it. */
  method ComputeOperatorPosition(positions: seq<LoanPosition>) returns (r: OperatorPosition)
    ensures Shows(positions, r)
  {
    var outstanding, interest, owed := 0, 0, 0;
    var first: Option<NextPayment> := None;
    for i := 0 to |positions|
      invariant outstanding == Sum(positions[..i], OutstandingIn) && interest == Sum(positions[..i], InterestIn)
      invariant owed == Sum(positions[..i], OwedIn)
      invariant first.None? <==> i == 0
      invariant first.Some? ==> Leads(positions[..i], first.value)
    {
      SumStep(positions, i, OutstandingIn);
      SumStep(positions, i, InterestIn);
      SumStep(positions, i, OwedIn);
      LeadsNext(positions, i, first);
      outstanding, interest := outstanding + positions[i].outstanding, interest + positions[i].interest;
      owed := owed + positions[i].owed;
      first := Some(if first.None? then positions[i].next else EarlierOf(first.value, positions[i].next));
    }
    assert positions[..|positions|] == positions;
    if first.None? {
      return OperatorPosition(outstanding, interest, owed, None);
    }
    var lead := first.value;
    var principal, due := 0, 0;
    for i := 0 to |positions|
      invariant principal == Sum(positions[..i], PrincipalTogether(lead))
      invariant due == Sum(positions[..i], InterestTogether(lead))
    {
      SumStep(positions, i, PrincipalTogether(lead));
      SumStep(positions, i, InterestTogether(lead));
      if Together(lead, positions[i].next) {
        principal, due := principal + positions[i].next.principal, due + positions[i].next.interest;
      }
    }
    return OperatorPosition(outstanding, interest, owed, Some(Reworded(lead, principal, due)));
  }

  lemma LeadsNext(positions: seq<LoanPosition>, i: nat, first: Option<NextPayment>)
    requires i < |positions| && (first.None? <==> i == 0) && (first.Some? ==> Leads(positions[..i], first.value))
    ensures Leads(positions[..i + 1],
                  if first.None? then positions[i].next else EarlierOf(first.value, positions[i].next))
  {
    var all := positions[..i + 1];
    assert all[i] == positions[i];
    if first.Some? {
      var j :| 0 <= j < i && positions[..i][j].next == first.value;
      assert all[j].next == first.value;
      forall m | 0 <= m < |all| ensures NoLater(EarlierOf(first.value, positions[i].next), all[m].next) {
        if m < i {
          assert NoLater(first.value, positions[..i][m].next);
        }
      }
    }
  }

  /** The positions of the operator's loans; the page throws where one has none. */
  method ComputePositions(loans: seq<LoanState>, now: int) returns (r: Option<seq<LoanPosition>>)
    ensures r.None? <==> exists i :: 0 <= i < |loans| && (loans[i].outstanding <= 0 || loans[i].Periods() <= 0)
    ensures r.Some? ==> |r.value| == |loans| && forall i :: 0 <= i < |loans| ==> r.value[i] == PositionOf(loans[i], now)
  {
    var positions: seq<LoanPosition> := [];
    for i := 0 to |loans|
      invariant |positions| == i
      invariant forall j :: 0 <= j < i ==>
        loans[j].outstanding > 0 && loans[j].Periods() > 0 && positions[j] == PositionOf(loans[j], now)
    {
      var position := ComputeLoanPosition(loans[i], now);
      if position.None? {
        return None;
      }
      positions := positions + [position.value];
    }
    return Some(positions);
  }

  // ----- What is shown, in the program's terms ----------------------------------------------

  /** What the loan owes beyond its principal at `at`, none of it repaid before. */
  function InterestBy(l: LoanState, at: int): int {
    DebtNow(l, at) - l.outstanding
  }

  lemma AccrueToIsDebt(l: LoanState, now: int, at: int)
    requires l.WellFormed(now) && l.lastAccrualAt <= at
    ensures AccrueTo(l, at).0 == InterestBy(l, at)
  {
    if at == l.lastAccrualAt {
      assert l.Unbooked(at) == l.interestRemainder;
    }
  }

  /** Before the end of its first unpaid period the program's schedule expects no more than was repaid. */
  lemma NotBehindBefore(l: LoanState, now: int, k: nat, at: int)
    requires l.WellFormed(now) && FirstUnpaid(l, k) && at < l.openedAt + k * REPAYMENT_PERIOD
    ensures l.PrincipalDueBy(at) <= Repaid(l)
  {
    var passed := Min(Max(DivTrunc(at - l.openedAt, REPAYMENT_PERIOD), 0), l.Periods());
    NothingDueAtStart(l);
    if at >= l.openedAt {
      DivAtLeast(at - l.openedAt, REPAYMENT_PERIOD, k);
    } else {
      DivAtLeast(l.openedAt - at, REPAYMENT_PERIOD, 0);
    }
    assert passed < k;
    if passed > 0 {
      assert PrincipalDueAfter(l, l.Periods(), passed) <= Repaid(l);
    }
  }

  lemma DueAtPeriodEnd(l: LoanState, now: int, k: nat)
    requires l.WellFormed(now) && 1 <= k <= l.Periods()
    ensures l.PrincipalDueBy(l.openedAt + k * REPAYMENT_PERIOD) == PrincipalDueAfter(l, l.Periods(), k)
  {
    DivUnique(k * REPAYMENT_PERIOD, REPAYMENT_PERIOD, k);
  }

  /** The next payment is dated by the first second at which the program's schedule expects more than
      was repaid; until then it is that instalment, and from then on all that is expected by now. */
  predicate ShowsNext(l: LoanState, now: int, next: NextPayment) {
    var due, at := next.When(), Max(next.When(), now);
    && l.PrincipalDueBy(due) > Repaid(l)
    && (next.DueNow? <==> due <= now)
    && next.principal == l.PrincipalDueBy(at) - Repaid(l)
    && next.interest == InterestBy(l, at)
  }

  /** What the page shows of an open loan is what the program's own arithmetic says of it. */
  lemma PositionIsTheProgram(l: LoanState, now: int)
    requires l.WellFormed(now) && l.IsOpen()
    ensures var position := PositionOf(l, now);
            && position.outstanding == l.outstanding && position.interest == InterestBy(l, now)
            && position.owed == DebtNow(l, now) && ShowsNext(l, now, position.next)
  {
    var k := FirstFrom(l, 1);
    OpenLoanHasInstalment(l, now);
    AccrueToIsDebt(l, now, now);
    DueAtPeriodEnd(l, now, k);
    PeriodsPassed(l, now, k);
    if l.openedAt + k * REPAYMENT_PERIOD > now {
      AccrueToIsDebt(l, now, l.openedAt + k * REPAYMENT_PERIOD);
    } else {
      DueNowExactlyWhenBehind(l, now);
    }
  }

  /** And no second before that date did. */
  lemma NextIsTheFirst(l: LoanState, now: int, at: int)
    requires l.WellFormed(now) && l.IsOpen() && at < PositionOf(l, now).next.When()
    ensures l.PrincipalDueBy(at) <= Repaid(l)
  {
    OpenLoanHasInstalment(l, now);
    NotBehindBefore(l, now, FirstFrom(l, 1), at);
  }

  // ----- What an operator is shown ----------------------------------------------------------

  predicate AllOpen(loans: seq<LoanState>, now: int) {
    forall i :: 0 <= i < |loans| ==> loans[i].WellFormed(now) && loans[i].IsOpen()
  }

  /** The program's schedule expects more of the loan by now than was repaid. */
  predicate Behind(l: LoanState, now: int) {
    l.PrincipalDueBy(now) > Repaid(l)
  }

  function ArrearsOf(now: int): LoanState -> int {
    (l: LoanState) => if Behind(l, now) then l.PrincipalDueBy(now) - Repaid(l) else 0
  }

  function ArrearsInterest(now: int): LoanState -> int {
    (l: LoanState) => if Behind(l, now) then InterestBy(l, now) else 0
  }

  function OwedNow(now: int): LoanState -> int {
    (l: LoanState) => DebtNow(l, now)
  }

  lemma {:induction false} SumAcross(positions: seq<LoanPosition>, loans: seq<LoanState>, f: LoanPosition -> int,
                                     g: LoanState -> int)
    requires |positions| == |loans| && forall i :: 0 <= i < |loans| ==> f(positions[i]) == g(loans[i])
    ensures Sum(positions, f) == Sum(loans, g)
  {
    if loans == [] {
    } else {
      SumAcross(positions[..|loans| - 1], loans[..|loans| - 1], f, g);
    }
  }

  /** Anything in arrears is shown as due now, all of it and nothing else, dated by the oldest of it. */
  lemma {:induction false} ArrearsAreShownWhole(loans: seq<LoanState>, now: int, positions: seq<LoanPosition>,
                                                shown: OperatorPosition)
    requires AllOpen(loans, now) && |positions| == |loans|
    requires forall i :: 0 <= i < |loans| ==> positions[i] == PositionOf(loans[i], now)
    requires Shows(positions, shown)
    ensures shown.owed == Sum(loans, OwedNow(now))
    ensures shown.next.Some? && shown.next.value.DueNow? <==> exists i :: 0 <= i < |loans| && Behind(loans[i], now)
    ensures shown.next.Some? && shown.next.value.DueNow? ==>
            && shown.next.value.principal == Sum(loans, ArrearsOf(now))
            && shown.next.value.interest == Sum(loans, ArrearsInterest(now))
            && forall i :: 0 <= i < |loans| && Behind(loans[i], now) ==>
                 shown.next.value.since <= positions[i].next.When()
  {
    forall i | 0 <= i < |loans|
      ensures positions[i].owed == DebtNow(loans[i], now)
      ensures positions[i].next.DueNow? <==> Behind(loans[i], now)
      ensures Behind(loans[i], now) ==>
              && positions[i].next.principal == loans[i].PrincipalDueBy(now) - Repaid(loans[i])
              && positions[i].next.interest == InterestBy(loans[i], now)
    {
      PositionIsTheProgram(loans[i], now);
      DueNowExactlyWhenBehind(loans[i], now);
    }
    SumAcross(positions, loans, OwedIn, OwedNow(now));
    if shown.next.Some? {
      var lead :| Leads(positions, lead) && shown.next.value == Lead(positions, lead);
      LeadShowsArrears(loans, now, positions, lead);
    }
  }

  lemma {:induction false} LeadShowsArrears(loans: seq<LoanState>, now: int, positions: seq<LoanPosition>,
                                            lead: NextPayment)
    requires |positions| == |loans| && Leads(positions, lead)
    requires forall i :: 0 <= i < |loans| ==>
      && (positions[i].next.DueNow? <==> Behind(loans[i], now))
      && (Behind(loans[i], now) ==>
            && positions[i].next.principal == loans[i].PrincipalDueBy(now) - Repaid(loans[i])
            && positions[i].next.interest == InterestBy(loans[i], now))
    ensures lead.DueNow? <==> exists i :: 0 <= i < |loans| && Behind(loans[i], now)
    ensures lead.DueNow? ==>
            && Sum(positions, PrincipalTogether(lead)) == Sum(loans, ArrearsOf(now))
            && Sum(positions, InterestTogether(lead)) == Sum(loans, ArrearsInterest(now))
            && forall i :: 0 <= i < |loans| && Behind(loans[i], now) ==> lead.since <= positions[i].next.When()
  {
    var j :| 0 <= j < |positions| && positions[j].next == lead;
    assert lead.DueNow? ==> Behind(loans[j], now);
    forall i | 0 <= i < |loans| && Behind(loans[i], now)
      ensures lead.DueNow? && lead.since <= positions[i].next.When()
    {
      assert NoLater(lead, positions[i].next);
    }
    if lead.DueNow? {
      SumAcross(positions, loans, PrincipalTogether(lead), ArrearsOf(now));
      SumAcross(positions, loans, InterestTogether(lead), ArrearsInterest(now));
    }
  }

  /** With nothing in arrears, the next date is the soonest of the loans', and all that falls due on it
      is shown. */
  lemma {:induction false} NextDateIsTheSoonest(positions: seq<LoanPosition>, shown: OperatorPosition)
    requires Shows(positions, shown) && shown.next.Some? && shown.next.value.Instalment?
    ensures forall i :: 0 <= i < |positions| ==>
              positions[i].next.Instalment? && shown.next.value.dueAt <= positions[i].next.dueAt
    ensures shown.next.value.principal == Sum(positions, PrincipalOn(shown.next.value.dueAt))
    ensures shown.next.value.interest == Sum(positions, InterestOn(shown.next.value.dueAt))
  {
    var lead :| Leads(positions, lead) && shown.next.value == Lead(positions, lead);
    forall i | 0 <= i < |positions|
      ensures positions[i].next.Instalment? && lead.dueAt <= positions[i].next.dueAt
    {
      assert NoLater(lead, positions[i].next);
    }
    SumAcrossSame(positions, PrincipalTogether(lead), PrincipalOn(lead.dueAt));
    SumAcrossSame(positions, InterestTogether(lead), InterestOn(lead.dueAt));
  }

  /** What falls due at one second. */
  function PrincipalOn(at: int): LoanPosition -> int {
    (p: LoanPosition) => if p.next.When() == at then p.next.principal else 0
  }

  function InterestOn(at: int): LoanPosition -> int {
    (p: LoanPosition) => if p.next.When() == at then p.next.interest else 0
  }

  lemma {:induction false} SumAcrossSame(positions: seq<LoanPosition>, f: LoanPosition -> int, g: LoanPosition -> int)
    requires forall i :: 0 <= i < |positions| ==> f(positions[i]) == g(positions[i])
    ensures Sum(positions, f) == Sum(positions, g)
  {
    SumAtMost(positions, f, g);
    SumAtMost(positions, g, f);
  }
}
