# Reward float, verified

A Dafny model of the lending protocol of `programs/reward-float` and of the off-chain arithmetic that
has to agree with it, with proofs of what the protocol is for. Lenders pool stablecoin for shares.
Operators borrow from the pool against an attested limit and repay out of a stream of reward tokens:
a sweep measures a payout against a watch, withholds each loan's agreed share, sells it within a
tolerance and settles the loans with the proceeds.

`dafny verify dfyconfig.toml` checks the whole project.

## How it is laid out

Every instruction appears twice. As a function it takes the accounts' values and answers the new
values or the error (`Loans`, `Pools`, `Settlement`, `Lenders`, `Borrowing`, `Sweeping`); integers are
as wide as the program's and every checked operation is written out. As a method it changes the
accounts themselves, in the program's order and with its loops (`Loan`, `Pool`, `OperatorAccount`,
`Handlers`, `SweepHandlers`), and its postcondition is that it does what the function says. The
properties are then proved about the functions:

- `Protocol` puts all accounts of one pool into a `World`; `Step` is one transaction, the passing of
  time, or something that happens to a reward account outside the program; `Run` is any list of them,
  a refused one changing nothing.
- `Ledger` proves that every book is the sum it stands for after any run; `Solvency` what that rules
  out; `Effects`, `BorrowRefusals` and `SweepRefusals` what each transaction moves and exactly when it is
  refused; `Nonces` that a nonce is never spent twice in any run and that a sweep does not depend on the
  order its caller lists the loans in.
- `SharePrice`, `FastForm`, `PriceRuns`, `Lenders` and `LastShare` are about the price of a share,
  `SweepFacts`, `SweepOutcomes`, `SkippedSweeps` and `Payouts` about sweeps and the lifetime of a
  payout, `LoanHistory` and `Ceilings` about one loan's life, `Operators` and `Bits` about the nonce
  window, `Conversions` and `Withholdings` about the arithmetic of a sale.
- `Schedule`, `Positions`, `Allocation`, `WithdrawalQuotes`, `Delegation` and `CentRounding` are the
  off-chain side, each held against the program's functions where it mirrors them.

Wherever Dafny would try an induction of its own, the lemma switches it off: each induction is written
out in its body.

## Where the code and its comments part

The model follows the code. These differences are proved, not argued:

- `pool.rs:220` says the shares a partial withdrawal burns are under the lender's; they can be all of
  them, exactly when the payment costs more than one share fewer would pay for
  (`LastShare.PartialWithdrawalBurnsAllExactly`).
- `pool.rs:153` says no shares means nothing was ever lent. `LastShare.LastShareCanLeaveALoanBehind` is a
  run from an empty pool that ends without shares, with a loan open and two units of deposits.
  `LastShare.LastShareLeavesValueExactly` says which withdrawals leave value without shares; what they
  leave is less than a share's price (`Lenders.LastShareLeavesLittle`) and goes to the next depositor
  (`Lenders.FirstDepositTakesLeftovers`).
- `sweep.rs:239` says a skipped sweep puts a loan back to what it was owed. That holds exactly if the
  loan's part was nothing or enough tokens to sell for one unit (`SkippedSweeps.SkippedOwesAllExactly`);
  `SkippedSweeps.SkippedCanLetTokensGo` is a sweep that lets a token go.
- The page promises that repaying the amount shown pays exactly the payments shown. That holds if and
  only if none of them is more than one repayment can take (`Allocation.NextPaymentIsRepaidExactly`);
  what is due now never is (`Allocation.DueNowIsNeverClipped`), a last instalment can be
  (`Allocation.LastInstalmentIsRefused`).

## Model

| member | source | states |
|---|---|---|
| Ledger.RunKeepsSound | programs/reward-float/src/instructions/repay.rs:60-103 | After any run of transactions from an empty pool, the five pool sums, each operator's debt and loan count, the shares and the vault's cash are exactly the sums they stand for, every loan is well formed, and an open loan always has principal left |
| Ledger.StepKeepsSound | programs/reward-float/src/instructions/borrow.rs:126-210 | Each single transaction, of every kind, keeps all of that |
| Ledger.SweepMoves | programs/reward-float/src/instructions/sweep.rs:147-344 | A sweep in the whole world moves only the loans it worked on, the operator's account, the pool, the market and the vault, by exactly what it booked |
| Ledger.BorrowMoves | programs/reward-float/src/instructions/borrow.rs:85-266 | The same for a borrow |
| Ledger.SweptPlaces | programs/reward-float/src/instructions/sweep.rs:349-380 | The loans a sweep works on are different open loans of the operator repaid from the token, and all such among those handed over |
| Solvency.SettleFailsOnlyByAddition | programs/reward-float/src/instructions/repay.rs:63-103 | With a loan in the books, its settlement goes through exactly when every addition fits: no checked subtraction can fail |
| Solvency.UntrackNeverFails | programs/reward-float/src/state/pool.rs:103-121 | A tracked loan can always be taken out of the accrual sums |
| Solvency.AccrueOneFailsOnlyByAddition | programs/reward-float/src/instructions/borrow.rs:305-318 | Bringing a tracked open loan up to now is refused exactly for a flag or a sum that does not fit |
| Solvency.BorrowAccruesUnlessAdditionFails | programs/reward-float/src/instructions/borrow.rs:287-321 | In a sound world, however many of the loans handed over to a borrow came before, the next is refused exactly if it is not a new open loan of the operator, is flagged, or a sum does not fit: no checked subtraction fails |
| Solvency.SweepSettlesUnlessAdditionFails | programs/reward-float/src/instructions/sweep.rs:288-303 | In a sound world, once a sweep has measured its parts, the settlement of each loan it works on fails exactly by an addition that does not fit, whatever the loans before it paid |
| Solvency.RepayRefusedExactly | programs/reward-float/src/instructions/repay.rs:38-58 | In a sound world a repayment is refused exactly for a closed loan, a zero amount or an addition that does not fit |
| Solvency.FreeLiquidityIsTheVault | programs/reward-float/src/state/pool.rs:73-77 | The free liquidity never fails and is exactly the cash in the vault |
| Solvency.QuotedWithdrawalIsPaid | programs/reward-float/src/instructions/withdraw.rs:41-73 | A withdrawal goes through exactly when the pool quotes it: the vault can always pay |
| Solvency.AllowedBorrowIsPaid | programs/reward-float/src/instructions/borrow.rs:164-173 | A borrow goes through exactly when the books allow it: the vault never runs dry |
| Solvency.PassedIsEveryOpenLoan | programs/reward-float/src/instructions/borrow.rs:268-286 | As many distinct open loans of the operator as it counts are every open loan it has: nobody can leave one out |
| Nonces.RunKeepsNonces | programs/reward-float/src/state/loan.rs:34-36 | In every run an operator's loans have different nonces, all spent for good |
| Nonces.ConsumeSpends | programs/reward-float/src/state/operator.rs:58-78 | An accepted nonce is refused from then on, and so is everything refused before |
| Nonces.CallerCannotPickTheOrder | programs/reward-float/src/instructions/sweep.rs:346-380 | In whatever order a caller lists the loans, the sweep does the same |
| Nonces.SweptIsCanonical | programs/reward-float/src/instructions/sweep.rs:374-379 | A sweep works on exactly the operator's open loans of the token, each once, oldest first |
| FastForm.FastFormRefinesTheFold | programs/reward-float/src/state/pool.rs:123-135 | The interest the pool prices from three sums is at least what its n open loans would book one by one, and at most n - 1 units more |
| FastForm.EarnedIsTheLoans | programs/reward-float/src/state/pool.rs:52-58 | To the fraction, the sums count what the open loans earned and did not book |
| PriceRuns.StepKeepsPrice | programs/reward-float/src/state/pool.rs:145-227 | With shares out, every step keeps value' * shares >= (value - closed loans) * shares' |
| PriceRuns.RunKeepsPrice | programs/reward-float/src/state/pool.rs:168-188 | Over any run with shares out, the price of a share falls by no more than the roundings of the loans it closed |
| PriceRuns.BorrowValueStays | programs/reward-float/src/instructions/borrow.rs:126-210 | A borrow closes nothing and leaves the pool's value at this second exactly as it was |
| PriceRuns.RepayValueStays | programs/reward-float/src/instructions/repay.rs:70-102 | A repayment leaves the value exactly, or costs at most one unit if it closes the loan |
| PriceRuns.SweepValueStays | programs/reward-float/src/instructions/sweep.rs:288-314 | A sweep costs at most one unit of value per loan it closes |
| PriceRuns.LendersShareTheWorth | programs/reward-float/src/state/pool.rs:166-188 | In a sound world with shares out, what the lenders' shares are worth adds up to no more than the pool's value, and is short of it by fewer units than there are lenders |
| LastShare.PartialWithdrawalBurnsAllExactly | programs/reward-float/src/state/pool.rs:218-226 | When a withdrawal burns all of a lender's shares, by what can be known before it |
| LastShare.LastShareLeavesValueExactly | programs/reward-float/src/state/pool.rs:153-156 | Exactly when a withdrawal leaves a pool without shares but not without value |
| LastShare.NoSharesLeavesValueExactly | programs/reward-float/src/state/pool.rs:211-226 | Of the withdrawals that leave no shares, value is left exactly by those that cannot pay the shares in full |
| LastShare.LastShareCanLeaveALoanBehind | programs/reward-float/src/state/pool.rs:153-156 | A run of seven transactions from an empty pool that ends without shares, two units of deposits out in an open loan; its last withdrawal is paid less than its shares are worth and burns them all |
| SharePrice.SettleKeepsValue | programs/reward-float/src/instructions/repay.rs:63-103 | One settlement costs the pool nothing before rounding, or under one unit if it closes the loan |
| SharePrice.WorthDropsByClosed | programs/reward-float/src/state/pool.rs:139-143 | In whole units the value drops by at most one per closed loan and never rises by a settlement |
| SharePrice.TimeRaisesWorth | programs/reward-float/src/state/pool.rs:124-143 | Passing time never lowers the value |
| Pools.WorthIsPlainFloor | programs/reward-float/src/state/pool.rs:174-188 | The split product is the plain floor of shares * value / total and never passes u128 |
| Pools.ValueIsWorth | programs/reward-float/src/state/pool.rs:124-143 | Exactly when the value fits the program's integers, and that it is then the plain value |
| Pools.QuoteRoundsUp | programs/reward-float/src/state/pool.rs:234-244 | The quoted premium is the least that covers the slope's share of the utilisation after the loan, and at most the slope |
| Pools.Pool.Track | programs/reward-float/src/state/pool.rs:82-100 | The pool object after tracking is the book the specification gives |
| Pools.Pool.Untrack | programs/reward-float/src/state/pool.rs:103-121 | The same for untracking |
| Lenders.HandleDeposit | programs/reward-float/src/instructions/deposit.rs:36-59 | A deposit on the accounts does what the deposit on their values says |
| Lenders.HandleWithdraw | programs/reward-float/src/instructions/withdraw.rs:41-58 | A withdrawal on the accounts does what the withdrawal on their values says |
| Lenders.BoughtAtPrice | programs/reward-float/src/state/pool.rs:157-165 | The most shares whose price the deposit covers, and no more |
| Lenders.DepositKeepsPrice | programs/reward-float/src/state/pool.rs:145-166 | A deposit raises the value by what it paid and never dilutes |
| Lenders.RoundTripLosesLittle | programs/reward-float/src/state/pool.rs:168-188 | Deposited and redeemed in one second: never more than paid, short by at most one unit and one share's price |
| Lenders.FirstDepositTakesLeftovers | programs/reward-float/src/state/pool.rs:153-156 | With no shares out, a deposit redeems for itself and what the last withdrawal left |
| Lenders.WithdrawalAtPrice | programs/reward-float/src/state/pool.rs:190-227 | What a withdrawal pays and burns: the least of what was asked, what the shares are worth and what is free, for the fewest shares that cover it |
| Lenders.LimitSaysWhy | programs/reward-float/src/state/pool.rs:203-210 | The stated limit is the one that bound the withdrawal |
| Lenders.WithdrawalKeepsPrice | programs/reward-float/src/state/pool.rs:194-195 | A withdrawal never dilutes those who stay |
| Lenders.LastShareLeavesLittle | programs/reward-float/src/state/pool.rs:211-226 | Burning the last share leaves less than its price behind |
| Lenders.WithdrawalBooksAlwaysFit | programs/reward-float/src/instructions/withdraw.rs:47-58 | A quoted withdrawal fails no subtraction of the handler |
| Effects.DepositMoves | programs/reward-float/src/instructions/deposit.rs:36-73 | The depositor's shares and the pool's grow by what the deposit buys, a newcomer's from nothing; the amount is in the deposits and the vault; nobody else moves |
| Effects.DepositRefusedExactly | programs/reward-float/src/instructions/deposit.rs:36-59 | In a sound world, every reason a deposit is refused and no other |
| Effects.WithdrawalMoves | programs/reward-float/src/instructions/withdraw.rs:41-73 | The withdrawer is paid the least of the ask, the worth and the vault, for all its shares or the fewest that cover it, off its own and off the pool's; nobody else moves |
| Effects.WithdrawalRefusedExactly | programs/reward-float/src/state/pool.rs:196-227 | In a sound world, every reason a withdrawal is refused and no other |
| Effects.RepaymentMoves | programs/reward-float/src/instructions/repay.rs:38-103 | A repayment takes the lesser of the offer and the debt at this second into the vault, closes the loan exactly if that is all of it, and moves no other loan or account |
| Loans.Loan.Accrue | programs/reward-float/src/state/loan.rs:146-166 | The loan object after an accrual is the specification's; a refusal changes nothing |
| Loans.Loan.ApplyRepayment | programs/reward-float/src/state/loan.rs:190-207 | The loan object after a repayment is the specification's; a refusal changes nothing |
| Loans.Loan.FlagManualRepayment | programs/reward-float/src/state/loan.rs:95-101 | The first cause is kept, and whether there was none before is said |
| Loans.AccrualLosesNothing | programs/reward-float/src/state/loan.rs:140-166 | Accrual moves interest from the unbooked numerator to the books and loses none of it |
| Loans.AccrualFitsExactly | programs/reward-float/src/state/loan.rs:146-166 | Accrual is refused exactly when the interest it would show does not fit u64 |
| Loans.InterestInUnits | programs/reward-float/src/state/loan.rs:138-180 | Interest in plain units: the principal left, at so many of ten thousand basis points of a 365-day year, by the second, the fraction carried |
| Loans.AccrualIsPathIndependent | programs/reward-float/src/state/loan.rs:67-70 | Accruing in two steps is accruing in one, refusals included |
| Loans.RepaymentKeepsLoan | programs/reward-float/src/state/loan.rs:184-207 | A repayment takes the lesser of the ask and the debt, interest before principal, and closes the loan exactly when it was all of it |
| LoanHistory.NothingEarnedIsLost | programs/reward-float/src/state/loan.rs:146-207 | From opening, after any accruals and repayments: denominator * (interest paid + accrued) + fraction is the exact sum over the seconds of outstanding * rate |
| LoanHistory.AccrualTimesDoNotShow | programs/reward-float/src/state/loan.rs:67-70 | Leaving out every accrual that is not part of a repayment gives the same payments and the same loan |
| Ceilings.CeilingBoundsTheTerm | programs/reward-float/src/state/loan.rs:125-133 | Over any run within the term, everything paid and still owed never exceed the ceiling taken at its start |
| Ceilings.AccrualKeepsCeiling | programs/reward-float/src/state/loan.rs:125-133 | Accruing alone leaves the ceiling where it was |
| Ceilings.RepaymentLowersDebtAt | programs/reward-float/src/state/loan.rs:190-207 | A repayment lowers every later debt, the ceiling among them, by at least what it took |
| Ceilings.CeilingIsDebtAtDue | programs/reward-float/src/state/loan.rs:129-133 | The ceiling is the debt at the due date, or now once that has passed |
| Settlement.SettleLoan | programs/reward-float/src/instructions/repay.rs:63-103 | The settlement on the pool, account and loan objects does what the settlement on their values says |
| Settlement.SettleMoves | programs/reward-float/src/instructions/repay.rs:63-103 | The loan pays the lesser of the ask and its debt at this second, and the pool and the operator follow field by field |
| Settlement.AccrueAndPay | programs/reward-float/src/instructions/repay.rs:71-74 | Accrual and repayment together account for every unit of the debt |
| Operators.ShiftWindowDown | programs/reward-float/src/state/operator.rs:82-102 | The array after a shift is the specification's shift of what it was |
| Operators.ShiftedMarks | programs/reward-float/src/state/operator.rs:82-102 | Whatever the shift, bit i of the result is bit i + by of the window |
| Operators.OperatorAccount.ConsumeNonce | programs/reward-float/src/state/operator.rs:58-78 | The account after a nonce is the specification's; a refusal changes nothing |
| Operators.ConsumeRefinesHistory | programs/reward-float/src/state/operator.rs:53-78 | One call decides as the full history of accepted nonces would, with the matching reason, and remembers it |
| Operators.ConsumesExactly | programs/reward-float/src/state/operator.rs:58-78 | A nonce is accepted exactly if it is not below the window and not marked in its 256 places |
| Operators.WindowRefinesHistory | programs/reward-float/src/state/operator.rs:10-31 | From a fresh account, over any calls, the bitmap accepts a nonce exactly when it was never accepted and is at most 255 below the highest accepted |
| Conversions.QuoteAdjoint | programs/reward-float/src/state/conversion_vault.rs:37-60 | The quote reaches an amount exactly from its token count up; past what an account can hold, no sale reaches it |
| Conversions.QuoteInUnits | programs/reward-float/src/state/conversion_vault.rs:37-49 | The quote in plain units: amount times rate per 10^12, less the spread in basis points, rounded down, and exactly when it does not fit |
| Conversions.QuoteDeviation | programs/reward-float/src/slippage.rs:19-45 | A quote deviates from the attested value by at least the vault's spread, and by less than one basis point more than the rounding of one unit |
| Conversions.QuoteMeetsTolerance | programs/reward-float/src/slippage.rs:19-45 | A quote of a vault whose spread is within the tolerance passes once the rounding fits in between; at no spread and a whole number of units it loses nothing |
| Conversions.ShortTakeLeavesDebt | programs/reward-float/src/state/conversion_vault.rs:51-59 | Fewer tokens than the count for a debt never pay it |
| Conversions.TokensForNeverOverflows | programs/reward-float/src/state/conversion_vault.rs:54-57 | The token count's intermediates fit u128 |
| Conversions.ToleranceIsExact | programs/reward-float/src/slippage.rs:19-45 | In plain units: the deviation is the shortfall in basis points rounded up, at most 10000, decides as the unrounded shortfall would, and is refused exactly past u128 |
| Conversions.PassingPaysItsShare | programs/reward-float/src/slippage.rs:39-44 | A sale that passes pays at least its tolerated share of the exact attested value |
| Conversions.NothingFitsNoTolerance | programs/reward-float/src/slippage.rs:19-45 | A sale for nothing is ten thousand basis points off and outside every tolerance a vault may have, wherever the check answers |
| Withholdings.WithholdAll | programs/reward-float/src/instructions/sweep.rs:90-108 | The pass that runs the payout and the account down is the specification's plan |
| Withholdings.WithholdingSplit | programs/reward-float/src/instructions/sweep.rs:85-108 | For any claims: the takes are exactly what the account can give, each claim is owed its fair part, all within the payout and what was due, and a short claim means every younger one takes nothing |
| Withholdings.ShareIsExact | programs/reward-float/src/instructions/sweep.rs:97-98 | Narrowing an agreed share to u64 loses nothing |
| OpenLoans.OldestFirstIsComplete | programs/reward-float/src/instructions/sweep.rs:349-380 | The list a sweep works on has every loan of the token once and no other, none before an older one |
| SweepFacts.SweepKeeps | programs/reward-float/src/instructions/sweep.rs:147-344 | Every sweep: the one transfer is what the settlements booked, no loan overpays, a loan given less than it was owed stays open, tokens stay within the balance, the allowance, the payout and what was due, the value is kept, and the sale paid its tolerated share |
| SweepFacts.SweepFlags | programs/reward-float/src/instructions/sweep.rs:205-324 | The flag every loan is left with, and its cause |
| SweepFacts.ShortfallIsTheCause | programs/reward-float/src/instructions/sweep.rs:169-178 | When a loan is given less than it is owed, the cause named is the true one; a withdrawal named early means owed tokens did leave the account |
| SkippedSweeps.SkippedOwesAllExactly | programs/reward-float/src/instructions/sweep.rs:228-248 | A sweep that would sell outside the tolerance goes through without a sale, and a loan is left due all it was owed exactly if its part was nothing or sells for at least one unit |
| SkippedSweeps.SkippedCanLetTokensGo | programs/reward-float/src/instructions/sweep.rs:237-241 | On two loans just taken out, a skipped sweep whose younger loan was owed a token and is left due nothing |
| SweepFacts.RestoringNeverFails | programs/reward-float/src/instructions/sweep.rs:238-241 | Putting back what was to be withheld never overflows |
| SweepFacts.SettleFirstFollows | programs/reward-float/src/instructions/sweep.rs:288-314 | After any number of the settlements, the books have followed exactly those loans and what they paid |
| SweepFacts.MeasurementTotals | programs/reward-float/src/instructions/sweep.rs:201-223 | Over all loans, what is owed is within the payout and what was due, and what is withheld within the account and the allowance |
| SweepOutcomes.MeasurementIsFair | programs/reward-float/src/instructions/sweep.rs:85-108 | Each loan is owed what was due and its agreed share of the balance over the watch, less only if that pays it off or the payout has run out, never a token more than pays it off; all the account and the allowance can give is taken, the oldest loan first |
| SweepOutcomes.PartsArePriced | programs/reward-float/src/instructions/sweep.rs:201-214 | Each part pays what its tokens sell for in plain units, or its loan's debt at this second if that is less |
| SweepOutcomes.SweepSellsExactly | programs/reward-float/src/instructions/sweep.rs:216-267 | Once measured, a sweep sells exactly when there is something to sell, within the tolerance, affordable and settling; goes through without a sale exactly when there is nothing to sell or not within it; and is refused otherwise |
| SweepOutcomes.UncappedSweepSells | programs/reward-float/src/slippage.rs:19-45 | A sweep none of whose parts is capped by its debt sells once affordable, if the spread is within the tolerance by enough for the rounding of one unit per loan |
| SweepRefusals.MeasuresExactly | programs/reward-float/src/instructions/sweep.rs:187-214 | A sweep is measured exactly when every debt and every price fits |
| SweepRefusals.SweepRefusedExactly | programs/reward-float/src/instructions/sweep.rs:147-344 | In a sound world, every reason a sweep is refused and no other: accounts, the list of open loans, debts and prices that fit, a market that can pay, and every addition of every settlement |
| Payouts.RunKeepsPayouts | programs/reward-float/src/instructions/sweep.rs:159-248 | In every run, a loan's tokens withheld and still due stay within its agreed shares of the payouts measured while it was open, and over a reward account those stay within the payouts measured, and those within the tokens that arrived since its watch started |
| Payouts.RunCountsAll | programs/reward-float/src/instructions/sweep.rs:156-166 | In every run, what is over a watch is exactly what arrived since it started and was neither spent nor measured, but for what sweeps found missing below it, and no more is missing than was spent: no token is forgotten |
| Payouts.NothingIsForgotten | programs/reward-float/src/instructions/sweep.rs:156-166 | In every run, with nothing spent since the watch started, all that arrived and was not yet measured is over the watch |
| Payouts.SweepMeasuresTheSurplus | programs/reward-float/src/instructions/sweep.rs:159-228 | A sweep measures exactly the balance less the watch, or nothing below it, and leaves the watch on what is left |
| Payouts.StepKeepsPayouts | programs/reward-float/src/instructions/sweep.rs:225-248 | Each single step, inside the program or out, keeps that |
| Payouts.NoneFromIsRestart | programs/reward-float/src/instructions/borrow.rs:213-225 | The watch starts over exactly when no open loan of the operator is repaid from the token, or none ever was |
| Payouts.SweepKeepsPayouts | programs/reward-float/src/instructions/sweep.rs:325-328 | A sweep moves the watch to the balance and counts no token twice |
| Borrowing.BorrowKeeps | programs/reward-float/src/instructions/borrow.rs:85-266 | A borrow: every open loan listed once, unflagged and accrued, the operator not overdue, the nonce spent, the debt within the limit, only free liquidity lent, the loan the one signed for at a rate within what was agreed, the value unmoved |
| Borrowing.BorrowWatchAndAllowance | programs/reward-float/src/instructions/borrow.rs:213-237 | Where the watch stands, and that the allowance is the most reward units worth no more than the token's debt ceiling |
| BorrowRefusals.BorrowRefusedExactly | programs/reward-float/src/instructions/borrow.rs:126-237 | In a sound world, every reason a borrow is refused and no other: the terms' ranges, the nonce, overdue, the number of loans, the list of open loans, flags, the debt at this second with the new loan against the limit, the vault, the rate agreed to, and every sum and the allowance fitting |
| BorrowRefusals.DebtAtThisSecond | programs/reward-float/src/instructions/borrow.rs:146-153 | The operator's recorded debt and the interest accrued by the borrow are together the debts of its open loans at this second |
| Borrowing.AccrueFirstFollows | programs/reward-float/src/instructions/borrow.rs:287-321 | After any number of the open loans are accrued, the sums follow them and each was listed once |
| Borrowing.AccrueFirstCeiling | programs/reward-float/src/instructions/borrow.rs:314-318 | The ceiling returned is that of the token's loans, and zero exactly when there is none |
| Handlers.HandleRepay | programs/reward-float/src/instructions/repay.rs:38-58 | The handler on the accounts settles and moves what was paid into the vault |
| Handlers.AccrueOpenLoans | programs/reward-float/src/instructions/borrow.rs:274-322 | The loop over the loan accounts does what the accrual of their values says, refusals included |
| Handlers.HandleBorrow | programs/reward-float/src/instructions/borrow.rs:85-266 | The handler on the accounts does what the borrow on their values says, and pays out of the vault |
| Handlers.TokenAccount.TakeDelegated | programs/reward-float/src/instructions/sweep.rs:256-267 | A delegated transfer takes within the balance and the allowance, and a delegate left with nothing is dropped |
| SweepHandlers.FindLoans | programs/reward-float/src/instructions/sweep.rs:349-380 | The loop over the accounts finds the specification's list |
| SweepHandlers.ClaimAll | programs/reward-float/src/instructions/sweep.rs:187-200 | The loop that measures debts and claims |
| SweepHandlers.PriceAll | programs/reward-float/src/instructions/sweep.rs:202-214 | The loop that prices each part, and writes on each loan what it is still due and its flag |
| SweepHandlers.CheckedTotal | programs/reward-float/src/instructions/sweep.rs:216-223 | Adding up with a check at each step is the total, or its overflow |
| SweepHandlers.RestoreAll | programs/reward-float/src/instructions/sweep.rs:238-241 | The loop that puts back what was to be withheld |
| SweepHandlers.SettleAll | programs/reward-float/src/instructions/sweep.rs:288-314 | The loop that settles each part |
| SweepHandlers.FlagExhausted | programs/reward-float/src/instructions/sweep.rs:318-324 | The loop that flags loans left with no allowance |
| SweepHandlers.SellAll | programs/reward-float/src/instructions/sweep.rs:250-326 | Both transfers, every settlement, the flags and the watch |
| SweepHandlers.HandleSweep | programs/reward-float/src/instructions/sweep.rs:147-344 | The whole handler on the accounts does what the sweep on their values says, and leaves loans of other tokens alone |
| Schedule.ComputeLoanCost | packages/shared/src/loan/cost.ts:57-108 | The page's loop gives the schedule row by row, and throws exactly out of range |
| Schedule.ScheduleAddsUp | packages/shared/src/loan/cost.ts:69-107 | Rows add up to the principal and to the interest on the schedule, which is at most that of holding to term |
| Schedule.ScheduleIsWhatTheProgramBooks | packages/shared/src/loan/cost.ts:69-98 | For every loan a borrow issues: paying the rows of the schedule quoted for it as they fall due is never refused, takes exactly the principal and the interest of each row, and closes the loan |
| Schedule.EachRowIsTaken | programs/reward-float/src/state/loan.rs:146-207 | Row by row the program takes exactly that principal and interest, and rows after closing ask for nothing |
| Schedule.CeilingHoldsEveryRow | programs/reward-float/src/instructions/borrow.rs:230-232 | The ceiling the program works out before it issues a loan holds what is owed at the end of every period |
| Schedule.DueByIsTheProgram | programs/reward-float/src/state/loan.rs:110-123 | The schedule's due principal is the program's at each period's end |
| Schedule.HeldToTermIsTheCeiling | packages/shared/src/loan/cost.ts:77-78 | The total shown for holding a loan to its term is the debt ceiling the program works out |
| Schedule.DayPastDueCosts | packages/shared/src/loan/cost.ts:100-107 | A day past due costs what is shown or one unit less, from whatever second |
| Positions.AccrueToIsAccrue | packages/shared/src/loan/position.ts:39-53 | The page accrues as the program does, wherever that does not overflow |
| Positions.ComputeLoanPosition | packages/shared/src/loan/position.ts:60-94 | The search finds the first instalment not repaid, and throws exactly for a loan with no principal left or no period |
| Positions.OpenLoanHasInstalment | packages/shared/src/loan/position.ts:71-91 | Every open loan has an instalment left |
| Positions.PositionIsTheProgram | packages/shared/src/loan/position.ts:60-94 | Every figure shown of an open loan is the program's: its principal, its debt at this second, and its next payment by the program's own schedule |
| Positions.NextIsTheFirst | packages/shared/src/loan/position.ts:71-91 | Before the date shown, the program's schedule never expected more than was repaid |
| Positions.DueNowExactlyWhenBehind | packages/shared/src/loan/position.ts:74-87 | A payment is due now exactly when the program expects more repaid by now than was, and is that difference |
| Positions.ComputeOperatorPosition | packages/shared/src/loan/position.ts:102-130 | The totals, the payment no other comes before, and all that is paid with it |
| Positions.ArrearsAreShownWhole | packages/shared/src/loan/position.ts:112-129 | Anything in arrears is shown as due now: all the arrears of all the loans, nothing else, dated by the oldest |
| Positions.NextDateIsTheSoonest | packages/shared/src/loan/position.ts:112-129 | With nothing in arrears the date shown is the soonest of the loans', with all that falls due on it |
| Positions.ComputePositions | packages/shared/src/loan/position.ts:104-105 | Every loan's position, or the exception of the first without one |
| Allocation.Allocate | packages/shared/src/loan/repayment.ts:31-66 | On any loans: when it refuses, when it throws, and otherwise a split of the whole amount, each loan within its cap, none ahead of its payment while another's is unmet, and both payments and paying ahead in the order payments are shown |
| Allocation.ShownIsPayable | packages/shared/src/loan/repayment.ts:40-46 | Every loan the page can show has something to pay next, within what one repayment can take |
| Allocation.PourAll | packages/shared/src/loan/repayment.ts:53-64 | The two passes over the queue, each from its front |
| Allocation.AnswerIsUnique | packages/shared/src/loan/repayment.ts:28-66 | A fair split is the only one, ties in the order of the loans: whatever is asked there is one answer |
| Allocation.RepayAllGivesCaps | packages/shared/src/loan/repayment.ts:24-26 | Asked for the most there is to repay, each loan is given the most one repayment can take of it |
| Allocation.CapClosesTheLoan | packages/shared/src/loan/repayment.ts:6-9 | And the program closes the loan with it in whatever second of the next ten minutes it lands |
| Allocation.NextPaymentIsRepaidExactly | packages/shared/src/loan/repayment.ts:28-30 | Asked for the amount the page shows as the next payment, it answers with exactly the payments shown if and only if none is more than one repayment can take |
| Allocation.LastInstalmentIsRefused | packages/shared/src/loan/repayment.ts:37-38 | On a hundred borrowed for one period, the page shows 108 and refuses it as over the debt of 100 |
| Allocation.DueNowIsNeverClipped | packages/shared/src/loan/repayment.ts:40-46 | What is due now is always within what one repayment can take |
| Allocation.SortedIsQueued | packages/shared/src/loan/repayment.ts:47-51 | The queue has every loan once, sooner payments first and ties in the order of the loans |
| Allocation.AfterRepaymentIsTheProgram | packages/shared/src/loan/repayment.ts:68-86 | The loan the page shows after a repayment is the one the program leaves |
| WithdrawalQuotes.PageQuotesTheProgram | packages/shared/src/loan/lending.ts:46-66 | The page's quote is the program's answer wherever its integers hold the value, and the program refuses otherwise |
| WithdrawalQuotes.EveryLenderIsQuotedTheProgram | packages/shared/src/loan/lending.ts:37-66 | The same for every lender of every sound world |
| Delegation.PageAllowanceIsApproved | packages/shared/src/loan/delegation.ts:10-44 | The loan the page builds from the amount, the quoted rate, the term and the time is the one issued, in every field it reads, and the allowance shown for it and the token's other loans is the one approved |
| Delegation.CeilingIsTheProgram | packages/shared/src/loan/delegation.ts:33-38 | The page's ceiling is the program's |
| Delegation.QuoteIsTheProgram | packages/shared/src/loan/cost.ts:28-37 | The page's rate is the program's, refusals included |
| Delegation.QuotedRateIsIssued | packages/shared/src/loan/cost.ts:28-37 | The rate quoted before signing is the one the loan is issued at |
| CentRounding.RoundRowsToCents | apps/web/src/lib/format.ts:54-70 | Rows add up to the total rounded up; each is its floor or one more; a cent goes only to rows that lost something, none before one that lost more or as much and is listed earlier |

## Left out

- Account addresses, account creation and rent, signatures over calls between programs, serialization and events. A token transfer is a balance move that succeeds when the funds suffice.
- The payer's, the lender's and the destination's own token accounts: their balances are outside the books.
- Signed attestations: a verified limit and a positive rate are inputs of a step, and so are the clock and the nonce.
- The runtime's rollback: a handler method that is refused may leave accounts half changed, and `Protocol.Run` drops the whole transaction instead.
- Tokens sent straight to the pool vault by someone outside the protocol.
- Loans of another pool: the model has one pool, and the check that a loan belongs to it is part of the operator check.
- `overdue` and `overdue_principal`: no instruction sets them, so the flag stays false.
- Replacing the attestor, and who may open a conversion vault.
- `apps/web/src/lib/mandate.ts` beyond the allowance of a new loan, the pages, the worker's indexer, price feed, keeper and journal, and credit scoring.
- Schedule.ComputeLoanCost: takes whole numbers, so the page's refusal of a rate or a term that is not an integer is not modelled.
