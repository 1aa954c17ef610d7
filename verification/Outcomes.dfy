/** What an instruction can answer: a value, or the error its transaction is refused with. */
module Outcomes {

  datatype Option<+T> = None | Some(value: T)

  /** The program's error codes, and the two the runtime raises for it: a token account that
      cannot cover a transfer, and an account that does not exist. */
  datatype Error =
    | MathOverflow
    | AttestationNonceTooOld
    | AttestationNonceAlreadyUsed
    | AttestationMalformed
    | InvalidAmount
    | InvalidTerm
    | InvalidSweepShare
    | OperatorOverdue
    | CreditLimitExceeded
    | InsufficientLiquidity
    | RateAboveMaximum
    | LoanNotOpen
    | OpenLoansMismatch
    | TooManyOpenLoans
    | DepositTooSmall
    | DelegationTooSmall
    | InvalidConversionTerms
    | ManualRepaymentPending
    | NothingToWithdraw
    | NoFreeLiquidity
    | InsufficientFunds
    | AccountNotFound

  datatype Result<+T> = Ok(value: T) | Err(error: Error) {
    predicate IsFailure() {
      Err?
    }

    function PropagateFailure<U>(): Result<U>
      requires Err?
    {
      Err(error)
    }

    function Extract(): T
      requires Ok?
    {
      value
    }
  }

  datatype Check = Pass | Fail(error: Error) {
    predicate IsFailure() {
      Fail?
    }

    function PropagateFailure<U>(): Result<U>
      requires Fail?
    {
      Err(error)
    }
  }

  /** `require!`: go on when the condition holds, refuse with the error otherwise. */
  function Require(condition: bool, error: Error): Check {
    if condition then Pass else Fail(error)
  }
}
