/** One loan: its interest by the second, its repayments, and the class the program updates. */
module Loans {
  import opened Outcomes
  import opened Numbers

  const REPAYMENT_PERIOD: int := 30 * 24 * 60 * 60
  const MAX_TERM_PERIODS: int := 6
  const SECONDS_PER_YEAR: int := 365 * 24 * 60 * 60

  /** Interest for `dt` seconds is outstanding * apr * dt over this. */
  const ACCRUAL_DENOMINATOR: int := 10_000 * SECONDS_PER_YEAR

  datatype LoanStatus = Active | Overdue | Repaid

  datatype ManualReason = Revoked | AllowanceShort | WithdrawnEarly

  datatype LoanState = LoanState(
    operator: nat,
    rewardMint: nat,
    nonce: u64,
    principal: u64,
    outstanding: u64,
    accruedInterest: u64,
    interestRemainder: u64,
    openedAt: i64,
    dueAt: i64,
    lastAccrualAt: i64,
    aprBps: u16,
    sweepBps: u16,
    status: LoanStatus,
    rewardDue: u64,
    manualRepayment: Option<ManualReason>)
  {
    predicate IsOpen() {
      status != Repaid
    }

    /** Interest numerator one second adds. */
    function Rate(): nat {
      outstanding * aprBps
    }

    /** Interest not booked yet at `now`, as a numerator over ACCRUAL_DENOMINATOR. */
    function Unbooked(now: int): int {
      Rate() * (now - lastAccrualAt) + interestRemainder
    }

    function Debt(): nat {
      outstanding + accruedInterest
    }

    function TotalOwed(): Result<u64> {
      U64(outstanding + accruedInterest)
    }

    /** `accrue`: the loan brought up to `now`, and the interest that booked. */
    function Accrue(now: i64): Result<(LoanState, u64)> {
      if now <= lastAccrualAt then Ok((this, 0)) else
      var (interest, remainder) :- InterestOver(Rate(), now - lastAccrualAt, interestRemainder);
      var total :- U64(accruedInterest + interest);
      Ok((this.(accruedInterest := total, interestRemainder := remainder, lastAccrualAt := now), interest))
    }

    function Terms(): Result<AccrualTerms> {
      var rate :- U128(Rate());
      var at :- U128(lastAccrualAt);
      var rateTime :- U128(rate * at);
      Ok(AccrualTerms(rate, rateTime, interestRemainder))
    }

    /** `apply_repayment`: at most `maxAmount` is taken, interest before principal. */
    function ApplyRepayment(maxAmount: u64): Result<(LoanState, Repayment)> {
      if !IsOpen() then Err(LoanNotOpen) else
      :- Require(maxAmount > 0, InvalidAmount);
      var owed :- TotalOwed();
      var paid: u64 := Min(maxAmount, owed);
      var interest: u64 := Min(paid, accruedInterest);
      var principal: u64 := paid - interest;
      var settled := this.(accruedInterest := accruedInterest - interest,
                           outstanding := outstanding - principal);
      Ok((if settled.outstanding == 0 && settled.accruedInterest == 0
          then settled.(status := Repaid, rewardDue := 0, manualRepayment := None)
          else settled,
          Repayment(interest, principal)))
    }

    function DebtCeiling(now: i64): Result<u64> {
      var untilDue :- Accrue(Max(dueAt, now));
      untilDue.0.TotalOwed()
    }

    function Flagged(reason: ManualReason): LoanState {
      if manualRepayment.Some? then this else this.(manualRepayment := Some(reason))
    }

    function Periods(): int {
      DivTrunc(dueAt - openedAt, REPAYMENT_PERIOD)
    }

    /** `principal_due_by`: what the schedule expects repaid by `at`. */
    function PrincipalDueBy(at: int): int {
      if Periods() <= 0 then principal else
      var passed := Min(Max(DivTrunc(at - openedAt, REPAYMENT_PERIOD), 0), Periods());
      DivCeil(principal * passed, Periods())
    }

    /** What every loan a borrow created stays, with the clock at `now`. An open loan always has
        principal left, and a closed one owes nothing and is owed nothing. */
    predicate WellFormed(now: int) {
      && 0 <= openedAt <= lastAccrualAt <= now
      && 1 <= Periods() <= MAX_TERM_PERIODS
      && dueAt == openedAt + Periods() * REPAYMENT_PERIOD
      && outstanding <= principal
      && interestRemainder < ACCRUAL_DENOMINATOR
      && 1 <= sweepBps <= 10_000
      && (IsOpen() <==> outstanding > 0)
      && (!IsOpen() ==> accruedInterest == 0 && rewardDue == 0 && manualRepayment == None)
    }
  }

  /** Whole interest of `elapsed` seconds at `rate`, and the fraction carried forward. */
  function InterestOver(rate: nat, elapsed: nat, carried: u64): Result<(u64, u64)> {
    var perSecond :- U128(rate);
    var accrued :- U128(perSecond * elapsed);
    var numerator :- U128(accrued + carried);
    var interest :- U64(numerator / ACCRUAL_DENOMINATOR);
    Ok((interest, numerator % ACCRUAL_DENOMINATOR))
  }

  datatype AccrualTerms = AccrualTerms(rate: u128, rateTime: u128, remainder: u128)

  datatype Repayment = Repayment(interest: u64, principal: u64) {
    function Total(): int {
      interest + principal
    }
  }

  // ----- What accrual does ------------------------------------------------------------------

  lemma InterestFitsExactly(rate: nat, elapsed: nat, carried: u64)
    requires elapsed > 0
    ensures var numerator := rate * elapsed + carried;
            && 0 <= numerator
            && InterestOver(rate, elapsed, carried) ==
               if numerator / ACCRUAL_DENOMINATOR <= U64_MAX
               then Ok((numerator / ACCRUAL_DENOMINATOR, numerator % ACCRUAL_DENOMINATOR)) else Err(MathOverflow)
  {
    MulMonotone(1, elapsed, rate);
    DivBounds(rate * elapsed + carried, ACCRUAL_DENOMINATOR);
  }

  /** Accrual moves interest from the unbooked numerator to the books and loses none of it. */
  lemma AccrualLosesNothing(loan: LoanState, now: i64)
    requires loan.Accrue(now).Ok?
    ensures var (l, interest) := loan.Accrue(now).value;
            && l.accruedInterest == loan.accruedInterest + interest
            && l.lastAccrualAt == Max(loan.lastAccrualAt, now)
            && l == loan.(accruedInterest := l.accruedInterest,
                          interestRemainder := l.interestRemainder,
                          lastAccrualAt := l.lastAccrualAt)
            && (now >= loan.lastAccrualAt ==>
                  ACCRUAL_DENOMINATOR * interest + l.interestRemainder == loan.Unbooked(now))
            && (loan.interestRemainder < ACCRUAL_DENOMINATOR ==> l.interestRemainder < ACCRUAL_DENOMINATOR)
  {
    if now > loan.lastAccrualAt {
      InterestFitsExactly(loan.Rate(), now - loan.lastAccrualAt, loan.interestRemainder);
      DivBounds(loan.Unbooked(now), ACCRUAL_DENOMINATOR);
    } else if now == loan.lastAccrualAt {
      assert loan.Unbooked(now) == loan.interestRemainder;
    }
  }

  /** The loan as accrual leaves it when nothing overflows. */
  function Brought(loan: LoanState, now: i64): LoanState
    requires loan.accruedInterest + loan.Unbooked(now) / ACCRUAL_DENOMINATOR <= U64_MAX
    requires 0 <= loan.Unbooked(now)
  {
    loan.(accruedInterest := loan.accruedInterest + loan.Unbooked(now) / ACCRUAL_DENOMINATOR,
          interestRemainder := loan.Unbooked(now) % ACCRUAL_DENOMINATOR,
          lastAccrualAt := now)
  }

  lemma UnbookedGrows(loan: LoanState, mid: int, now: int)
    requires loan.lastAccrualAt <= mid <= now
    ensures 0 <= loan.Unbooked(mid) <= loan.Unbooked(now) == loan.Unbooked(mid) + loan.Rate() * (now - mid)
  {
    MulMonotone(0, mid - loan.lastAccrualAt, loan.Rate());
    MulMonotone(0, now - mid, loan.Rate());
    assert loan.Rate() * (now - loan.lastAccrualAt)
        == loan.Rate() * (mid - loan.lastAccrualAt) + loan.Rate() * (now - mid);
  }

  /** Interest by the second in plain units: the principal left, at so many of ten thousand basis points
      for a 365-day year, with the fraction carried. */
  lemma InterestInUnits(loan: LoanState, now: i64)
    requires now > loan.lastAccrualAt && loan.Accrue(now).Ok?
    ensures var (m, interest) := loan.Accrue(now).value;
            var earned := loan.outstanding * loan.aprBps * (now - loan.lastAccrualAt) + loan.interestRemainder;
            && interest == earned / 315_360_000_000
            && m == loan.(accruedInterest := loan.accruedInterest + interest,
                          interestRemainder := earned % 315_360_000_000, lastAccrualAt := now)
  {
    AccrualFitsExactly(loan, now);
  }

  /** Accrual is refused exactly when the interest no longer fits its field. */
  lemma AccrualFitsExactly(loan: LoanState, now: i64)
    requires now > loan.lastAccrualAt
    ensures loan.Unbooked(now) >= 0
    ensures loan.Accrue(now) ==
            if loan.accruedInterest + loan.Unbooked(now) / ACCRUAL_DENOMINATOR <= U64_MAX
            then Ok((Brought(loan, now), loan.Unbooked(now) / ACCRUAL_DENOMINATOR))
            else Err(MathOverflow)
  {
    InterestFitsExactly(loan.Rate(), now - loan.lastAccrualAt, loan.interestRemainder);
  }

  /** What is unbooked after an accrual in between is what was, less what it booked. */
  lemma UnbookedAfter(loan: LoanState, mid: i64, now: int)
    requires loan.lastAccrualAt <= mid <= now
    requires loan.accruedInterest + loan.Unbooked(mid) / ACCRUAL_DENOMINATOR <= U64_MAX && 0 <= loan.Unbooked(mid)
    ensures Brought(loan, mid).Unbooked(now)
            == loan.Unbooked(now) - ACCRUAL_DENOMINATOR * (loan.Unbooked(mid) / ACCRUAL_DENOMINATOR)
  {
    UnbookedGrows(loan, mid, now);
    DivBounds(loan.Unbooked(mid), ACCRUAL_DENOMINATOR);
  }

  lemma SplitDivision(part: int, all: int, d: int)
    requires d > 0 && 0 <= part <= all
    ensures 0 <= all - d * (part / d)
    ensures (all - d * (part / d)) / d == all / d - part / d
    ensures (all - d * (part / d)) % d == all % d
  {
    DivBounds(part, d);
    DivShift(all, d, -(part / d));
    assert d * -(part / d) == -(d * (part / d));
  }

  /** Accruing in two steps is accruing in one, refusals included: how often accrual runs
      changes nothing. */
  lemma AccrualIsPathIndependent(loan: LoanState, mid: i64, now: i64)
    requires mid <= now
    ensures loan.Accrue(now) ==
            match loan.Accrue(mid)
            case Err(e) => Err(e)
            case Ok(first) =>
              match first.0.Accrue(now)
              case Err(e) => Err(e)
              case Ok(second) =>
                if first.1 + second.1 <= U64_MAX then Ok((second.0, first.1 + second.1)) else Err(MathOverflow)
  {
    if loan.lastAccrualAt < mid {
      AccrualFitsExactly(loan, mid);
      if mid < now {
        AccrualFitsExactly(loan, now);
        UnbookedGrows(loan, mid, now);
        DivMonotone(loan.Unbooked(mid), loan.Unbooked(now), ACCRUAL_DENOMINATOR);
        if loan.Accrue(mid).Ok? {
          var first := Brought(loan, mid);
          UnbookedGrows(first, mid, now);
          AccrualFitsExactly(first, now);
          UnbookedAfter(loan, mid, now);
          SplitDivision(loan.Unbooked(mid), loan.Unbooked(now), ACCRUAL_DENOMINATOR);
        }
      }
    }
  }

  // ----- What a repayment does --------------------------------------------------------------

  /** A repayment takes what it says from the debt and keeps the loan well formed. */
  lemma RepaymentKeepsLoan(loan: LoanState, maxAmount: u64, now: int)
    requires loan.WellFormed(now) && loan.ApplyRepayment(maxAmount).Ok?
    ensures var (l, r) := loan.ApplyRepayment(maxAmount).value;
            && l.WellFormed(now)
            && r.Total() == Min(maxAmount, loan.Debt())
            && l.outstanding == loan.outstanding - r.principal
            && l.accruedInterest == loan.accruedInterest - r.interest
            && (r.principal > 0 ==> l.accruedInterest == 0)
            && (l.IsOpen() <==> maxAmount < loan.Debt())
            && l.interestRemainder == loan.interestRemainder
            && l.lastAccrualAt == loan.lastAccrualAt
  {
  }

  lemma AccrualKeepsLoan(loan: LoanState, at: i64, now: int)
    requires loan.WellFormed(now) && at <= now && loan.IsOpen() && loan.Accrue(at).Ok?
    ensures loan.Accrue(at).value.0.WellFormed(now)
  {
    AccrualLosesNothing(loan, at);
  }

  // ----- The account the program updates ----------------------------------------------------

  class Loan {
    const key: nat
    const operator: nat
    const rewardMint: nat
    const nonce: u64
    const principal: u64
    const openedAt: i64
    const dueAt: i64
    const aprBps: u16
    const sweepBps: u16
    var outstanding: u64
    var accruedInterest: u64
    var interestRemainder: u64
    var lastAccrualAt: i64
    var status: LoanStatus
    var rewardDue: u64
    var manualRepayment: Option<ManualReason>

    constructor (key: nat, s: LoanState)
      ensures this.key == key && State() == s
    {
      this.key := key;
      operator, rewardMint, nonce, principal := s.operator, s.rewardMint, s.nonce, s.principal;
      openedAt, dueAt, aprBps, sweepBps := s.openedAt, s.dueAt, s.aprBps, s.sweepBps;
      outstanding, accruedInterest := s.outstanding, s.accruedInterest;
      interestRemainder, lastAccrualAt := s.interestRemainder, s.lastAccrualAt;
      status, rewardDue, manualRepayment := s.status, s.rewardDue, s.manualRepayment;
    }

    function State(): LoanState
      reads this
    {
      LoanState(operator, rewardMint, nonce, principal, outstanding, accruedInterest, interestRemainder,
                openedAt, dueAt, lastAccrualAt, aprBps, sweepBps, status, rewardDue, manualRepayment)
    }

    method Accrue(now: i64) returns (r: Result<u64>)
      modifies this
      ensures match old(State()).Accrue(now)
              case Ok(v) => State() == v.0 && r == Ok(v.1)
              case Err(e) => r == Err(e) && unchanged(this)
    {
      if now <= lastAccrualAt {
        return Ok(0);
      }
      var earned :- InterestOver(outstanding * aprBps, now - lastAccrualAt, interestRemainder);
      accruedInterest :- U64(accruedInterest + earned.0);
      interestRemainder := earned.1;
      lastAccrualAt := now;
      return Ok(earned.0);
    }

    method ApplyRepayment(maxAmount: u64) returns (r: Result<Repayment>)
      modifies this
      ensures match old(State()).ApplyRepayment(maxAmount)
              case Ok(v) => State() == v.0 && r == Ok(v.1)
              case Err(e) => r == Err(e) && unchanged(this)
    {
      if status == Repaid {
        return Err(LoanNotOpen);
      }
      if maxAmount == 0 {
        return Err(InvalidAmount);
      }
      var owed :- State().TotalOwed();
      var paid: u64 := Min(maxAmount, owed);
      var interest: u64 := Min(paid, accruedInterest);
      var principal: u64 := paid - interest;
      accruedInterest := accruedInterest - interest;
      outstanding := outstanding - principal;
      if outstanding == 0 && accruedInterest == 0 {
        status := Repaid;
        rewardDue := 0;
        manualRepayment := None;
      }
      return Ok(Repayment(interest, principal));
    }

    /** Keeps the first cause and says whether the loan was unflagged before. */
    method FlagManualRepayment(reason: ManualReason) returns (raised: bool)
      modifies this
      ensures State() == old(State()).Flagged(reason)
      ensures raised <==> old(manualRepayment) == None
    {
      if manualRepayment.Some? {
        return false;
      }
      manualRepayment := Some(reason);
      return true;
    }
  }
}
