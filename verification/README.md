# Usance money core: a Dafny model

The parts of Usance that decide amounts of money, modelled and proved:

- **The risk engine twice** — `crates/risk-core` on 128-bit money with a two-limb 256-bit intermediate,
  and `packages/domain/src/risk.ts` on unbounded integers. Each pipeline is a method in its own form,
  with its own loops and refusals, proved equal to one outcome function; the two outcomes are then
  proved to agree, and the inputs on which they may not are given exactly (`U256`, `MoneyMath`,
  `RiskModel`, `RustPipeline`, `BrowserPipeline`, `RiskAgreement`, `RiskProperties`, `RiskOrder`,
  `RiskMeaning`, `RiskRefusals`, `Interest`, `Accrual`, `RateMeaning`).
- **Portfolio concentration** — `packages/portfolio-risk`: merging by instrument, five overlapping
  groupings, per-position minima, stress scenarios, the breakdown by constraint and the canonical
  encoding. The methods of `PortfolioScales` and `PortfolioEvaluate` fill the source's maps; the theorems
  are about what they are proved to compute (`PortfolioModel`, `PortfolioMerging`, `PortfolioSums`,
  `PortfolioCaps`, `PortfolioInvariance`, `PortfolioBreakdown`, `PortfolioTightening`,
  `PortfolioMeaning`, `PortfolioReporting`, `PortfolioRelabelling`, `PortfolioDepths`,
  `PortfolioAdditions`, `PortfolioExamples`).
- **The share pool** — `packages/corp-actions/src/pool.ts` as a class, one method per kind of action,
  properties of every run, and the effect of every kind of action (`SharePool`, `SharePoolProperties`,
  `SharePoolEffects`).
- **The budget ledger** — `packages/schemas/src/sentinel-budget.ts` as pure operations, and
  sliding-window safety of every run, with what each operation does to it (`BudgetLedger`, `BudgetSafety`,
  `BudgetEffects`).
- **Three algorithms** — the sorted Merkle tree (`MerkleTree`), the overlapping document chunker
  (`Chunker`) and the display and parsing of USD amounts (`UsdText`).

`Wrappers`, `Arithmetic`, `Sequences` and `Decimal` hold the shared result types, the facts about
division, about rearranged lists and about digit strings.

## How the model is built

Integers are unbounded where the source's are, and are kept below 2^128 by a subset type where the
source's are `u128`; every wrap-around of the limb arithmetic is written as a remainder modulo 2^128.
Divisions follow the source: floor on non-negative operands, towards zero in the share pool. An
exception or an error return is a `Result`. The clock, the pair hash and every policy are parameters.

Methods are proved against functions (`DivRem`, `Outcome`, `BrowserOutcome`, `Evaluated`, `Step`,
`Root`), and the properties are lemmas about those functions. What those functions compute is stated once
more without them, on the fields of the input and of the report and with the constants written out:
`RiskMeaning`, `RiskRefusals`, `RateMeaning`, `PortfolioMeaning`, `PortfolioReporting`, `SharePoolEffects`
and `BudgetEffects`, and the last lemmas of `Chunker`, say which limit gives which status, which factor and
cap bear on which position, who is credited by an action and which separator ends a chunk. Rounding is
stated there as `IsFloor(y, x, d)`: `y * d <= x < (y + 1) * d`.

## Where the code does less than its text says

Each of these is proved below; the code is modelled as it is.

- The two risk engines differ on one corner: a sequencer restart dated in the future with a grace
  period of zero. One clock difference saturates, the other goes negative (`GatesDifferInOneCorner`).
- A fresh borrow may owe more than one wei above its amount once the index exceeds WAD + 1
  (`TwoWeiAboveTheAmount`); `WithinOneWei` says exactly when it does not. Repaying the reconstructed debt
  always clears the principal (`RepayingTheDebtClearsIt`), though the comment at
  `crates/risk-core/src/interest.rs:24-33` allows a remainder.
- Accrual in steps can trail a single step (`SteppingCanFallBehind`), which the name of a test at
  `crates/risk-core/src/interest.rs:287` excludes. `SteppingKeepsUpExactlyWhen` gives the exact condition
  for any number of steps, `TwoStepsKeepUpExactlyWhen` for two, and `SteppingKeepsUpOnWholeWei` a guard
  on each step.
- Making a group unknown can raise the portfolio value in two ways, against `spec/invariants.md:215`: for
  one of two members, since the caps then apply to two groups (`OneForgottenMemberCanHelp`), and for a
  whole group, since a scenario that named it no longer hits (`EscapingAScenarioCanHelp`). Making any
  positions unknown raises no value as long as no group that held its members back is left by only some
  of them and no position escapes a scenario (`ForgettingNeverHelps`). Whether one does is exact in
  `StillHitExactlyWhen`, and what happens to those who stay behind in `StayingBehindHelpsExactlyWhen`.
- Lowering a declared depth to zero undeclares the route and can raise the portfolio value
  (`UndeclaringARouteCanHelp`), against the same invariant. No lowering can, unless it undeclares a route
  that held a position back (`LoweringDepthsNeverHelps`).
- Adding a position to a declared route can raise a co-member's working value (`CoMemberCanGain`), against
  `spec/portfolio-risk-model.md:59`: the base grows for every dimension. A co-member held back by the
  declared depth of the route, or by its session, gains nothing (`HeldCoMemberNeverGains`); in general a
  position's scale rises exactly when every constraint on it ends above the old scale
  (`AdditionLiftsExactlyWhen`). On the route itself the exact condition is
  `JoiningLiftsRouteScaleExactlyWhen`, and where the share of the base is the allowance the rise is
  rounding only (`CoMembersAllowanceOnTheRoute`).
- Reordering the positions keeps the value, every position's result, the amounts and the binding
  constraint (`BreakdownPermutes`, `ResultsPermute`), but not the whole breakdown, as
  `spec/invariants.md:214` has it: binding groups and short sessions are listed as they are met
  (`ReorderingReordersGroups`, `ReorderingReordersSessions`). The whole breakdown survives every
  reordering exactly when in no dimension two positions are held back by different groups and no two
  positions are in different sessions with a factor below one (`BreakdownIsStableExactlyWhen`).
- Truncated sums over positions do not depend on their order, though `crates/risk-core/src/portfolio.rs:46-48`
  and `spec/accounting.md:96-99` say so: reordering changes nothing in a risk report but the order of its
  valuations (`ReportIgnoresOrder`). What no ordering can satisfy is a repeated id
  (`SortableExactlyWhenDistinct`).
- A provenanced rebase of a pool without shares leaves backing that nobody owns, and the first depositor is
  entitled to all of it (`FirstDepositorCanGain`). A deposit gains its depositor at most the deposit, and
  dilutes nobody, exactly when there is no such backing (`DepositIsFair`), and no run of its own deposits
  and evenly paid withdrawals gains an account anything exactly then (`NoRunGainsExactlyWhen`).
- WITHDRAW and LIQUIDATION_SEIZE read `value` as a share count; the comment at
  `packages/corp-actions/src/types.ts:74` calls it a raw amount. A negative count is accepted and can
  dilute the pool (`NegativeRedemptionCanDilute`), exactly when it does not divide evenly
  (`RedemptionDilutesExactlyWhen`). FEE has no upper guard (`OversizedFee`); `StepKeepsInv` gives the exact
  one. The conservation report of an overdrawn pool may still say ok, since entitlements are cut towards
  zero (`OverdrawnPoolIsReportedByRounding`).
- Reserving twice under one run id is idempotent exactly when the id is written in lower case
  (`ReservingTwice`, `UpperCaseReservesTwice`). The fee cap bounds spending exactly while no fee is
  outstanding (`FeeCheckBoundsCommitments`, `TwoOutstandingFeesOverrun`).
- The Merkle root is a function of the multiset of leaves, not of their set
  (`RepeatedLeafChangesRoot`).
- A chunk can end inside a sentence (`RawBoundaryCut`): it ends just past a separator exactly when one
  stands in the last quarter of its window (`ChunkEndsPastSeparatorExactlyWhen`), except by chance at
  targets below five (`SmallTargetEndsPastByChance`).

## Model

| member | source | states |
|---|---|---|
| U256.MulU128 | crates/risk-core/src/u256.rs:85-104 | four 64-bit half products with their carries give exactly hi * 2^128 + lo = a * b for all 128-bit operands |
| U256.CheckedAddIsExact | crates/risk-core/src/u256.rs:106-118 | the limb sum is present exactly when the sum of the two numbers is below 2^256, and then is that sum |
| U256.CheckedSubIsExact | crates/risk-core/src/u256.rs:120-132 | the limb difference is present exactly when it is not negative, and then is the difference |
| U256.CheckedMulIsExact | crates/risk-core/src/u256.rs:134-144 | multiplying by a limb is present exactly when the product is below 2^256, and then is the product |
| U256.RestoringStep | crates/risk-core/src/u256.rs:166-183 | one shift-and-subtract step keeps prefix = q * divisor + remainder with remainder < divisor, also when the shifted remainder leaves 128 bits |
| U256.DivideBit | crates/risk-core/src/u256.rs:166-183 | one pass of the loop body on the real limbs extends the divided prefix by one more bit |
| U256.DivRemU128 | crates/risk-core/src/u256.rs:159-186 | the 256-step restoring division is quotient and remainder for every dividend and divisor, and nothing for divisor zero |
| U256.DivisionMeans | crates/risk-core/src/u256.rs:159-186 | there is an answer exactly for a non-zero divisor, and then n = q * d + r with r below d |
| U256.LimbOrderIsNumericOrder | crates/risk-core/src/u256.rs:26-36 | the derived lexicographic order of the limbs is the order of the numbers |
| U256.FromDecStr | crates/risk-core/src/u256.rs:193-207 | the accumulator loop accepts exactly the non-empty digit strings of value below 2^256, with that value |
| U256.Display | crates/risk-core/src/u256.rs:250-268 | the digit-buffer loop prints the canonical decimal numeral of the number: its digits, no leading zeros |
| U256.ParseOfText | crates/risk-core/src/u256.rs:193-268 | parsing the printed form of any 256-bit number gives that number back |
| U256.TextOfParse | crates/risk-core/src/u256.rs:193-268 | printing what a canonical numeral parses to gives the numeral back |
| MoneyMath.MulDiv | crates/risk-core/src/math.rs:35-46 | floor of a * b / d through the 256-bit product; an error exactly when d = 0 or the quotient needs more than 128 bits |
| MoneyMath.MulDivUp | crates/risk-core/src/math.rs:52-70 | ceiling of a * b / d computed as (a * b - 1) / d + 1; an error exactly when d = 0 or the result needs more than 128 bits |
| MoneyMath.MulDivWide | crates/risk-core/src/math.rs:82-91 | the floor quotient with all 256 bits, refused only for d = 0 |
| MoneyMath.RoundingDirections | crates/risk-core/src/math.rs:35-70 | the two rounding directions differ by at most one, and agree exactly when d divides a * b |
| Interest.ScaledPrincipalForBorrow | crates/risk-core/src/interest.rs:20-22 | the recorded principal is the ceiling of amount * WAD / index, or the exact error |
| Interest.ScaledPrincipalAfterRepay | crates/risk-core/src/interest.rs:34-42 | a repayment retires the floor of its principal, never more than there is, or the exact error |
| Interest.DebtUsd18 | crates/risk-core/src/interest.rs:48-50 | debt is the ceiling of principal * index / WAD, refused exactly when it needs more than 128 bits |
| Interest.FreshBorrowDebt | crates/risk-core/src/interest.rs:15-50 | a fresh borrow of x owes exactly x plus the ceiling of its residue over WAD, hence between x and x + ceil((index - 1) / WAD) |
| Interest.WithinOneWei | crates/risk-core/src/interest.rs:15-22 | a fresh borrow owes at most one wei more exactly when its residue is at most WAD, which every index up to WAD + 1 guarantees |
| Interest.TwoWeiAboveTheAmount | crates/risk-core/src/interest.rs:169-179 | at index 1.9 WAD a borrow of two wei owes four: the one-wei claim fails |
| Interest.RepaymentIsBounded | crates/risk-core/src/interest.rs:34-50 | paying p leaves after <= before <= after + p: no more debt is retired than paid for |
| Interest.RepayingTheDebtClearsIt | crates/risk-core/src/interest.rs:24-50 | paying at least the reconstructed debt leaves no principal and no debt |
| Interest.RepaymentFits | crates/risk-core/src/interest.rs:34-42 | with an index of at least one WAD no repayment is refused |
| Interest.FurtherBorrowDebt | crates/risk-core/src/interest.rs:20-50 | adding a borrow to existing principal raises the debt by at most the amount plus ceil((index - 1) / WAD) |
| Interest.UtilisationIsMonotone | crates/risk-core/src/interest.rs:60-72 | utilisation rises with borrows, falls with cash and stays within [0, BPS] |
| Interest.CurveBounds | crates/risk-core/src/interest.rs:81-111 | the two-slope rate stays within its segment and passes through base + slope1 at the kink |
| Interest.CurveIsMonotone | crates/risk-core/src/interest.rs:81-111 | higher utilisation never lowers the rate, across the kink included |
| Interest.RateFollowsScarcity | crates/risk-core/src/interest.rs:60-124 | more borrows and less cash never lower the borrow rate, which stays between base and base + slope1 + slope2 |
| Interest.AccrueIndex | crates/risk-core/src/interest.rs:139-148 | the accrued index, or Overflow exactly when the rate-time product or the result leaves 128 bits |
| RateMeaning.BorrowMeans | crates/risk-core/src/interest.rs:20-22 | the principal is amount * 10^18 / index rounded up |
| RateMeaning.RepayMeans | crates/risk-core/src/interest.rs:34-41 | the principal retired is amount * 10^18 / index rounded down, or all there is |
| RateMeaning.DebtMeans | crates/risk-core/src/interest.rs:48-50 | debt is principal * index / 10^18 rounded up |
| RateMeaning.UtilisationMeans | crates/risk-core/src/interest.rs:60-66 | utilisation is borrows * 10000 over cash and borrows rounded down; zero without borrows, Overflow exactly when the sum is too wide |
| RateMeaning.RateMeans | crates/risk-core/src/interest.rs:81-102 | up to the kink the base and the climbed part of the first slope, above it the base, all of the first slope and the climbed part of the second, each rounded down; both refusals exact |
| RateMeaning.FullUtilisationPaysBothSlopes | crates/risk-core/src/interest.rs:114-127 | a market without cash pays base + slope1 + slope2 |
| RateMeaning.GrowthMeans | crates/risk-core/src/interest.rs:139-148 | growth is index * rate * seconds / (10000 * 31536000) rounded down; over one year of 365 days index * rate / 10000 |
| Accrual.IndexNeverFalls | crates/risk-core/src/interest.rs:139-148 | no number of steps at any rate lowers the index |
| Accrual.SteppingTrailsByLess | crates/risk-core/src/interest.rs:287-297 | n steps give at least the single step over the summed time minus n - 1 wei |
| Accrual.SteppingStaysBelowCompounding | crates/risk-core/src/interest.rs:287-297 | n steps give at most the index times the product of the exact growth factors |
| Accrual.SteppingCanFallBehind | crates/risk-core/src/interest.rs:287-297 | two steps of three seconds at one basis point end one wei below a single step of six |
| Accrual.SteppingBalance | crates/risk-core/src/interest.rs:139-148 | over any steps, growth plus the fractions dropped equals simple interest plus interest on interest |
| Accrual.SteppingKeepsUpExactlyWhen | crates/risk-core/src/interest.rs:287-297 | n steps are at least one step over the summed time exactly when the fractions they drop do not exceed their interest on interest plus the fraction the single step drops |
| Accrual.TwoStepsKeepUpExactlyWhen | crates/risk-core/src/interest.rs:287-297 | two steps are at least one exactly when their fractions make up no whole wei or the interest on interest carries the second over one |
| Accrual.SteppingKeepsUpOnWholeWei | crates/risk-core/src/interest.rs:287-297 | stepping keeps up whenever every step but the first earns a whole wei on earlier growth |
| RustPipeline.SelectRecoveryBps | crates/risk-core/src/valuation.rs:19-33 | the early-returning scan selects the first tier at or above the value, else the last; an empty curve is refused |
| RustPipeline.HaircutMarkOf | crates/risk-core/src/valuation.rs:49-66 | the in-place haircut loop is the five-step floored chain, or the first haircut out of range |
| RustPipeline.ValueAsset | crates/risk-core/src/valuation.rs:38-97 | a position is valued as on unbounded integers, or refused with the first of its errors in the source's order |
| RustPipeline.AssetGatesOf | crates/risk-core/src/valuation.rs:103-132 | the gates of a position: none when it is empty, else exactly the tripped ones |
| RustPipeline.ValueAll | crates/risk-core/src/portfolio.rs:73-86 | the first loop: every position valued in order, gates and running total, or exactly the earliest refusal |
| RustPipeline.CapAll | crates/risk-core/src/portfolio.rs:92-127 | the second loop writes every cap in place and accumulates the four limits, refused exactly when one leaves 128 bits |
| RustPipeline.Conclude | crates/risk-core/src/portfolio.rs:129-177 | debt, status, capacity and health of the checked amounts, refused exactly when a needed amount leaves 128 bits |
| RustPipeline.Evaluate128 | crates/risk-core/src/portfolio.rs:55-178 | the whole 128-bit evaluation is the unbounded report, or exactly its refusal |
| BrowserPipeline.ValueAsset | packages/domain/src/risk.ts:155-191 | the unbounded valuation with its candidate list, or its range error |
| BrowserPipeline.CheckSorted | packages/domain/src/risk.ts:218-223 | the loop accepts exactly the strictly ascending lists |
| BrowserPipeline.EvaluateBrowser | packages/domain/src/risk.ts:212-287 | the unbounded evaluation is its outcome function: unsorted, first bad valuation, else the report |
| RiskAgreement.ImplementationsAgree | crates/risk-core/src/portfolio.rs:55-178 | whenever the 128-bit evaluation answers, the unbounded one answers too, and the whole reports are equal exactly outside the future-restart corner |
| RiskAgreement.GatesDifferInOneCorner | crates/risk-core/src/portfolio.rs:61-69 | saturating and signed clock differences give the same sequencer gate exactly unless the restart lies in the future with no grace |
| RiskAgreement.OverflowMeansTooWide | crates/risk-core/src/portfolio.rs:73-178 | on every input, unordered, unfit or unvaluable ones included, Overflow means that some unbounded amount needs more than 128 bits |
| RiskAgreement.OverflowExactlyWhenTooWide | crates/risk-core/src/portfolio.rs:73-178 | on inputs the browser accepts, with units that fit, Overflow is the only refusal and is returned exactly then |
| RiskAgreement.DecimalsLimit | crates/risk-core/src/valuation.rs:39-45 | the unit of a token fits 128 bits exactly up to 38 decimals |
| RiskProperties.ChainIsWithinItsLength | crates/risk-core/src/valuation.rs:49-66 | after n floored haircuts the mark times BPS^n is at most, and less than n units below, the exact product |
| RiskProperties.OrderCostsAtMostFourWei | crates/risk-core/src/valuation.rs:49-66 | any two orders of the same n haircuts differ by at most n - 1 wei, four for the five of the source |
| RiskProperties.LargerHaircutsLowerTheMark | crates/risk-core/src/valuation.rs:49-66 | larger haircuts or a smaller market value never raise the mark |
| RiskProperties.RecognizedAtMostMarket | crates/risk-core/src/valuation.rs:38-97 | recognised value is at most the haircut mark, which is at most the market value |
| RiskProperties.NewCollateralOnlyHelps | crates/risk-core/src/portfolio.rs:88-127 | inserting a position anywhere never lowers another position's capped value nor any of the total and the three limits |
| RiskProperties.StatusMono | crates/risk-core/src/portfolio.rs:134-154 | lower limits, more debt, gates that do not become empty, or a stricter override never move the status back |
| RiskProperties.DegradedInputsOnlyRestrict | crates/risk-core/src/portfolio.rs:55-178 | conflicts, suspensions in any order, older evidence, a lost price, debt, reservation, override, sequencer outage and elapsed time never raise a limit or available borrow or improve the status, and drop no gate unless a conflict and a suspension change places |
| RiskProperties.HealthBelowOneMeansBreached | crates/risk-core/src/portfolio.rs:160-164 | health is below one WAD exactly when debt exceeds the maintenance limit, the debt-free case included |
| RiskProperties.DebtAfterBorrow | crates/risk-core/src/portfolio.rs:129-132 | a borrow on existing principal adds at least its amount and at most ceil((index - 1) / WAD) more to the debt |
| RiskProperties.BorrowingWithinCapacityStaysNormal | crates/risk-core/src/portfolio.rs:134-158 | borrowing within the offered capacity, rounding included, re-evaluates to NORMAL with capacity reduced by the amount up to that rounding |
| RiskMeaning.StatusMeans | crates/risk-core/src/portfolio.rs:132-164 | on the report: NORMAL exactly for debt within the borrow limit, no gate and a NORMAL override; REDUCE_ONLY or worse exactly for debt above it and health below one, or an override as bad; MARGIN_CALL or worse exactly when debt is besides above the liquidation limit, or by override; anything past MARGIN_CALL by override alone |
| RiskMeaning.AccountMeans | crates/risk-core/src/portfolio.rs:130-164 | debt is rounded up, health is maintenance limit * 10^18 / debt rounded down and 2^256 - 1 without debt, capacity is what debt and reservations leave of the borrow limit while NORMAL |
| RiskMeaning.TotalsMean | crates/risk-core/src/portfolio.rs:90-125 | the total is the sum of capped values, and the three limits are their sums weighted by each position's initial, maintenance and liquidation LTV |
| RiskMeaning.CapsMean | crates/risk-core/src/portfolio.rs:95-98 | a capped value is the recognised value or the concentration share of all recognised values, whichever is less |
| RiskMeaning.ValuationMeans | crates/risk-core/src/valuation.rs:38-96 | market value, stressed exit and redemption floor are the rounded shares of the stated fields, the exit by the tier taken |
| RiskMeaning.RecoveryIsOfTierTaken | crates/risk-core/src/valuation.rs:19-29 | the tier taken is the first whose threshold reaches the value, the last when none does |
| RiskMeaning.FiveHaircuts | crates/risk-core/src/valuation.rs:46-63 | the mark is the market value less the five named haircuts, below the exact product by less than five wei |
| RiskMeaning.RecognizedIsLeast | crates/risk-core/src/valuation.rs:69-85 | the recognised value is the least of mark, stressed exit and redemption floor, the last only when supported |
| RiskMeaning.GatesMean | crates/risk-core/src/valuation.rs:103-132 | each of the five gates of a position is up exactly when it holds anything and has that gate's own reason |
| RiskMeaning.ReportGatesMean | packages/domain/src/risk.ts:225-231 | SEQUENCER_DOWN exactly when down, SEQUENCER_GRACE exactly when up within the grace period, every other gate exactly when some position has it |
| RiskRefusals.ValuableMeans | crates/risk-core/src/valuation.rs:49-66 | a position can be valued exactly with an exit curve and each of the five haircuts at most 10000 |
| RiskRefusals.ValuationRefusalMeans | crates/risk-core/src/valuation.rs:38-85 | the refusal of a position names a reason it has, those checked before it being absent |
| RiskRefusals.PassRefusalMeans | crates/risk-core/src/portfolio.rs:74-84 | the refusal of the first loop is that of the first position to give one, all before it being accepted |
| RiskRefusals.AnswersExactlyWhen | crates/risk-core/src/portfolio.rs:55-178 | the 128-bit engine answers exactly on ordered, valuable positions of at most 38 decimals with no amount of 2^128 or more |
| RiskRefusals.BrowserAnswersExactlyWhen | packages/domain/src/risk.ts:212-224 | the unbounded engine answers exactly on ordered, valuable positions, and complains about the order first |
| RiskRefusals.FirstValuationErrorMeans | packages/domain/src/risk.ts:147-180 | otherwise it throws what the first position that cannot be valued throws |
| RiskOrder.ReportIgnoresOrder | crates/risk-core/src/portfolio.rs:46-50 | reordering the positions reorders their valuations and changes no total, limit, gate, status, capacity or health |
| RiskOrder.SortableExactlyWhenDistinct | crates/risk-core/src/portfolio.rs:73-77 | a portfolio has an ascending arrangement exactly when no id is repeated |
| PortfolioMerging.DedupeMerges | packages/portfolio-risk/src/evaluate.ts:130-152 | merging succeeds exactly when no instrument is described two ways, and then each merged position carries its instrument's sums, metadata and least depth |
| PortfolioMerging.SameHoldingsMergeAlike | packages/portfolio-risk/src/evaluate.ts:130-152 | inputs with the same holdings are accepted together and merge to the same records |
| PortfolioMerging.PermutingKeepsHoldings | packages/portfolio-risk/src/evaluate.ts:130-152 | any reordering of the input has the same holdings |
| PortfolioMerging.SplittingKeepsHoldings | packages/portfolio-risk/src/evaluate.ts:130-152 | splitting one position into two of the same metadata keeps the holdings |
| PortfolioEvaluate.MergeDuplicates | packages/portfolio-risk/src/evaluate.ts:130-152 | the map with its insertion order yields the merged list, or the first conflict |
| PortfolioScales.GroupKeyOf | packages/portfolio-risk/src/evaluate.ts:35-46 | missing, null and empty groups are the shared unknown group, and no group on an undeclared route, consistently with the record |
| PortfolioScales.DimensionScales | packages/portfolio-risk/src/evaluate.ts:49-97 | the maps of totals, kinds and depths yield each position's group scale in the dimension, and the binding groups in the order they are met |
| PortfolioEvaluate.SmallestScale | packages/portfolio-risk/src/evaluate.ts:177-200 | the running minimum over session and dimensions is the position's scale, with the first constraint to give it |
| PortfolioEvaluate.StressedTotal | packages/portfolio-risk/src/evaluate.ts:207-220 | the fold over positions is what they are worth under the scenario |
| PortfolioEvaluate.WorstStressed | packages/portfolio-risk/src/evaluate.ts:204-223 | the working total reduced to the worst stressed total is the portfolio value |
| PortfolioEvaluate.Reductions | packages/portfolio-risk/src/evaluate.ts:225-247 | the folds yield the standalone reduction and the binding groups of every dimension, the session and the scenarios |
| PortfolioEvaluate.BindingConstraint | packages/portfolio-risk/src/evaluate.ts:249-256 | the loop names the first largest reduction, none when nothing reduces |
| PortfolioEvaluate.EvaluatePortfolio | packages/portfolio-risk/src/evaluate.ts:109-271 | the evaluation with its checks in order and its zero-base branch is the specified evaluation: totals, value, every position's result and binding, the breakdown, the binding constraint and the canonical input |
| PortfolioEvaluate.AcceptedExactlyWhenSound | packages/portfolio-risk/src/evaluate.ts:113-152 | an input is accepted exactly when it is within both bounds, the caps are sound and no instrument conflicts |
| PortfolioEvaluate.AcceptedKeepsEveryCap | packages/portfolio-risk/src/evaluate.ts:49-97 | in every accepted result, for every dimension and group, the members' reported values stay within the group's share of the total and every member's declared depth, all at once |
| PortfolioEvaluate.ResultsPermute | spec/invariants.md:214 | reordering the positions reorders their results and changes none: scale, working value, binding constraint and group |
| PortfolioEvaluate.EvaluationIgnoresOrderAndSplitting | packages/portfolio-risk/src/evaluate.ts:109-152 | a reordered or split input within the bound is accepted with the same totals, value, results, reductions, binding constraint and canonical input |
| PortfolioMeaning.ScaleIsGreatestTolerated | packages/portfolio-risk/src/evaluate.ts:177-193 | a scale is within the position's exactly when it is at most one, within its session's own factor, keeps each of its four groups within that dimension's own named or unknown cap of the base, and its route within the liquidity cap and every declared depth |
| PortfolioMeaning.PositionReported | packages/portfolio-risk/src/evaluate.ts:194-201 | every reported scale is the greatest so tolerated, and the working value is the recognised value times it, rounded down |
| PortfolioMeaning.SessionTakesItsShare | packages/portfolio-risk/src/evaluate.ts:99-101 | every working value times 10000 is at most the recognised value times the factor of its own session, for each of the five sessions |
| PortfolioMeaning.SessionAloneTakesExactly | packages/portfolio-risk/src/evaluate.ts:99-101 | where no group holds a position back it works at exactly the floored share by its session's factor |
| PortfolioMeaning.EveryCapKept | packages/portfolio-risk/src/evaluate.ts:81-94 | on the reported working values: each group's sum keeps its dimension's own named or unknown cap, a route's its cap and every declared depth |
| PortfolioMeaning.ValueReported | packages/portfolio-risk/src/evaluate.ts:204-223 | the reported value is the least of the working values together and, scenario by scenario, of those struck less the haircut |
| PortfolioMeaning.TotalsReported | packages/portfolio-risk/src/evaluate.ts:154-155 | the reported totals are the recognised and market values of the positions, with a result for each in turn |
| PortfolioMeaning.NothingReported | packages/portfolio-risk/src/evaluate.ts:157-175 | with nothing recognised every position works at nothing at full scale and nothing binds |
| PortfolioMeaning.KeysMean | packages/portfolio-risk/src/evaluate.ts:35-46 | the key of a position is its group, or UNKNOWN_ and the dimension without one, and NONE without a declared route |
| PortfolioReporting.RefusedInOrder | packages/portfolio-risk/src/evaluate.ts:113-145 | the two bounds are checked first, then the caps, then conflicting duplicates; every other input is accepted |
| PortfolioReporting.CapsRefusedInOrder | packages/portfolio-risk/src/evaluate.ts:121-128 | the caps are complained about by the first unsound of the five dimensions, an unknown cap above the named one before a cap out of range |
| PortfolioReporting.RefusalNamesConflict | packages/portfolio-risk/src/evaluate.ts:137-145 | a conflict names an instrument that two positions describe differently |
| PortfolioReporting.FirstAppearanceOrder | packages/portfolio-risk/src/evaluate.ts:131-152 | merged positions stand in the order in which their instruments first appear |
| PortfolioReporting.RecordIsFaithful | packages/portfolio-risk/src/evaluate.ts:278-288 | two positions are written alike exactly when id, domain, both values, session, depth or zero and all five groups agree, missing groups counting as null |
| PortfolioReporting.EncodingMeans | packages/portfolio-risk/src/evaluate.ts:274-288 | the encoding holds what is written of every merged position once, in strictly ascending order of ids |
| PortfolioReporting.BeforeMeans | packages/portfolio-risk/src/evaluate.ts:288 | that order is by the first differing character, a proper beginning first |
| PortfolioReporting.BindingIsFirst | packages/portfolio-risk/src/evaluate.ts:183-193 | the dimension named for a position is the first to bring it below its session and every dimension before |
| PortfolioReporting.BindingReported | packages/portfolio-risk/src/evaluate.ts:183-201 | nothing is named exactly at full scale; a dimension is named with the position's group in it |
| PortfolioReporting.BreakdownReported | packages/portfolio-risk/src/evaluate.ts:225-247 | seven parts, the five dimensions in order, the session and the stress, which is all the value lacks and lists every scenario in turn |
| PortfolioReporting.BindingConstraintReported | packages/portfolio-risk/src/evaluate.ts:249-256 | the binding constraint is the first part to take the most, or none when no part takes anything |
| PortfolioReporting.DimensionAloneTakesItsReduction | packages/portfolio-risk/src/evaluate.ts:227-234 | a dimension that binds alone takes exactly its standalone reduction from the value |
| PortfolioReporting.SessionAndStressTakeTheirReductions | packages/portfolio-risk/src/evaluate.ts:235-247 | so do the sessions when nothing else binds, and the stress part always is the base less the value |
| PortfolioReporting.ListedExactlyWhenBinding | packages/portfolio-risk/src/evaluate.ts:93-240 | a group is listed exactly when it holds some position back, a session exactly when some position is in it and its factor is short |
| PortfolioCaps.EveryCapHolds | packages/portfolio-risk/src/evaluate.ts:49-97 | for every dimension and key, the members' working values sum to at most what the group is allowed |
| PortfolioCaps.CapOfEachGroupHolds | packages/portfolio-risk/src/evaluate.ts:73-97 | in the group's own terms: total * BPS <= base * cap of its kind, and on a route total <= every declared depth |
| PortfolioCaps.ValueOnlyReduces | packages/portfolio-risk/src/evaluate.ts:204-223 | the value is at most the working total, at most the sum of single recognised values, and at most every stressed total |
| PortfolioInvariance.EncodingIsFaithful | packages/portfolio-risk/src/evaluate.ts:274-307 | the sorted encodings of two merged portfolios are equal exactly when the records are the same |
| PortfolioInvariance.EncodingDeterminesValue | packages/portfolio-risk/src/evaluate.ts:274-307 | equal encodings under one policy have equal value, base and market total |
| PortfolioInvariance.SameHoldingsSameValue | packages/portfolio-risk/src/evaluate.ts:109-271 | inputs with the same holdings are accepted or refused together and have the same encoding and value |
| PortfolioInvariance.OrderAndSplittingDoNotMatter | packages/portfolio-risk/src/evaluate.ts:130-152 | permuting the input or splitting a position changes neither encoding nor value |
| PortfolioTightening.TighteningNeverHelps | packages/portfolio-risk/src/evaluate.ts:73-128 | lower caps, lower session factors, larger haircuts and added scenarios never raise the value |
| PortfolioTightening.ScenarioOrderDoesNotMatter | packages/portfolio-risk/src/evaluate.ts:204-223 | reordering or repeating scenarios leaves the value unchanged |
| PortfolioBreakdown.BindingExplainsScale | packages/portfolio-risk/src/evaluate.ts:177-200 | the constraint reported for a position alone gives its scale; none is reported exactly at full scale |
| PortfolioBreakdown.LargestIsFirstLargest | packages/portfolio-risk/src/evaluate.ts:249-256 | the binding constraint's reduction is the largest, strictly above all listed before it |
| PortfolioBreakdown.EveryReductionIsBorne | packages/portfolio-risk/src/evaluate.ts:225-247 | every standalone reduction lies between zero and the base, and the value is at most the base less any of them |
| PortfolioBreakdown.BreakdownPermutes | spec/invariants.md:214 | reordering keeps every reduction's amount, its groups as a set, and the binding constraint |
| PortfolioBreakdown.GroupOrderIsStableExactlyWhen | packages/portfolio-risk/src/evaluate.ts:94-96 | one dimension's list of binding groups survives every reordering exactly when no two positions held back there have different keys |
| PortfolioBreakdown.BreakdownIsStableExactlyWhen | spec/invariants.md:214 | the whole breakdown survives every reordering exactly when no two positions held back in one dimension have different keys and no two short sessions differ |
| PortfolioBreakdown.ReportedBreakdownIsStableExactlyWhen | packages/portfolio-risk/src/evaluate.ts:157-175 | what an evaluation reports survives exactly then, or when there is no base |
| PortfolioRelabelling.StillHitExactlyWhen | packages/portfolio-risk/src/evaluate.ts:211-216 | a scenario still hits a position made unknown exactly when it names its session or a group of another dimension |
| PortfolioRelabelling.EscapesNoScenarioExactlyWhen | packages/portfolio-risk/src/evaluate.ts:207-220 | no position escapes a scenario exactly when every scenario still hits all it hit |
| PortfolioRelabelling.ForgettingNeverHelps | spec/invariants.md:215 | making any set of positions unknown in a concentration dimension never raises a scale when each group left is left by all its members or did not bind, nor the value when besides no position escapes a scenario |
| PortfolioRelabelling.StayingBehindHelpsExactlyWhen | packages/portfolio-risk/src/evaluate.ts:73-97 | the scale of a member that stays behind rises exactly when its group bound and the smaller total gives a larger quotient |
| PortfolioRelabelling.UnknownNeverHelps | spec/invariants.md:215 | making whole named groups unknown never raises any position's scale, nor the value when no scenario names them |
| PortfolioExamples.OneForgottenMemberCanHelp | spec/invariants.md:215 | with two holdings of one issuer, making one of them unknown raises the value from 80 to 140 |
| PortfolioExamples.EscapingAScenarioCanHelp | spec/invariants.md:215 | making a whole group that did not bind unknown raises the value from 50 to 100, since a scenario had named it |
| PortfolioAdditions.UnrelatedAdditionNeverHurts | spec/invariants.md:219 | a position sharing no group with the others lowers neither any other position's working value nor the portfolio value |
| PortfolioAdditions.HeldCoMemberNeverGains | spec/portfolio-risk-model.md:59 | a position held back by the declared depth of its route, or by its session, has no larger scale and no larger working value when another joins the route |
| PortfolioAdditions.AdditionLiftsExactlyWhen | packages/portfolio-risk/src/evaluate.ts:177-191 | an addition lifts a position's scale exactly when its session and all its groups end above the old scale, and its working value only then |
| PortfolioAdditions.JoiningLiftsRouteScaleExactlyWhen | packages/portfolio-risk/src/evaluate.ts:73-94 | a co-member's LIQUIDITY scale rises exactly when the route held it back and the new allowance over the new total is the larger quotient |
| PortfolioAdditions.CoMembersScaleAtTheDepth | packages/portfolio-risk/src/evaluate.ts:85-91 | where the declared depth is the route's allowance, no co-member's LIQUIDITY scale rises |
| PortfolioAdditions.CoMembersAllowanceOnTheRoute | packages/portfolio-risk/src/evaluate.ts:85-91 | the route's new allowance per unit stays below the old allowance plus one wei per unit, whatever joins |
| PortfolioExamples.CoMemberCanGain | spec/portfolio-risk-model.md:59 | a second position on the same route raises the first one's working value from 40 to 80 |
| PortfolioDepths.ShallowerNeverHelps | spec/portfolio-risk-model.md:59 | shallower depths never raise the value while every declared route stays declared |
| PortfolioDepths.LoweringDepthsNeverHelps | spec/invariants.md:215 | lowering depths to anything never raises the value unless it undeclares a route for a position that the route held back |
| PortfolioDepths.LoweringDepthHelpsExactlyWhenUndeclared | packages/portfolio-risk/src/evaluate.ts:35-46 | lowering a position's depth raises its own route scale exactly when the route is thereby undeclared and had been binding |
| PortfolioExamples.UndeclaringARouteCanHelp | spec/invariants.md:215 | lowering a depth of 10 to zero raises the value from 10 to 100 |
| PortfolioExamples.ReorderingReordersGroups | spec/invariants.md:214 | two binding issuers are listed in the order of the positions |
| PortfolioExamples.ReorderingReordersSessions | spec/invariants.md:214 | two short sessions are listed in the order of the positions though no group binds |
| PortfolioExamples.ClosedSessionHalves | packages/portfolio-risk/src/evaluate.ts:99-101 | a holding of 100 in a closed session with factor 5000 is worth 50 |
| SharePool.PoolState.Empty | packages/corp-actions/src/pool.ts:25-27 | the empty pool |
| SharePool.PoolState.Copy | packages/corp-actions/src/pool.ts:81-85 | the working copy has the same content as the given state |
| SharePool.PoolState.SumEffective | packages/corp-actions/src/pool.ts:41-45 | adding account by account, in any order, gives the total effective ownership |
| SharePool.PoolState.Conservation | packages/corp-actions/src/pool.ts:48-78 | the report computed from the account-by-account sum is the report of the state |
| SharePool.PoolState.Mint | packages/corp-actions/src/pool.ts:88-111 | a deposit's new state and effect, or its refusal, are those of the step function |
| SharePool.PoolState.Burn | packages/corp-actions/src/pool.ts:113-132 | a redemption's new state and effect, or its refusal, are those of the step function |
| SharePool.PoolState.Observe | packages/corp-actions/src/pool.ts:134-170 | a rebase, provenanced or not, is that of the step function |
| SharePool.PoolState.TakeFee | packages/corp-actions/src/pool.ts:172-186 | a fee is that of the step function |
| SharePool.ApplyAction | packages/corp-actions/src/pool.ts:80-187 | an action yields a fresh state that is the step of the given one, which itself is unchanged |
| SharePoolProperties.StepKeepsInv | packages/corp-actions/src/pool.ts:80-187 | shares add up, surplus lies in [0, balance] after a step exactly when it is admissible: a rebase to a non-negative balance, a fee within the backed balance; the balance moves by the effect's raw delta |
| SharePoolProperties.RunKeepsInv | packages/corp-actions/src/pool.ts:80-187 | over every admissible run the invariant holds and the balance is the start plus all raw deltas |
| SharePoolProperties.OwedAtMostBacked | packages/corp-actions/src/pool.ts:35-52 | the floored entitlements together never exceed the backed balance |
| SharePoolProperties.ConservedOverEveryRun | packages/corp-actions/src/pool.ts:54-78 | after every admissible run from the empty pool the conservation report says ok, and the balance is the sum of all raw deltas |
| SharePoolProperties.ReportIsOk | packages/corp-actions/src/pool.ts:59-78 | in every state with the invariant the conservation report says ok, with non-negative entitlements and dust |
| SharePoolProperties.DepositIsFair | packages/corp-actions/src/pool.ts:88-111 | every accepted deposit: no other account loses, and nobody is diluted and the depositor's entitlement rises by at most the deposit exactly when no backing is without shares |
| SharePoolProperties.FirstDepositorCanGain | packages/corp-actions/src/pool.ts:88-170 | after a provenanced rebase of the empty pool to 100, a deposit of 1 is entitled to 101 |
| SharePoolProperties.WithdrawalIsFair | packages/corp-actions/src/pool.ts:113-132 | a withdrawal or seizure of any count dilutes nobody exactly when the count is not negative or divides evenly; then no other account loses, and payout plus what remains is at most what the account had |
| SharePoolProperties.RedemptionDilutesExactlyWhen | packages/corp-actions/src/pool.ts:113-132 | backed per share falls on a redemption exactly when its count is negative and does not divide evenly |
| SharePoolProperties.NegativeRedemptionCanDilute | packages/corp-actions/src/pool.ts:113-132 | redeeming minus one of three shares backed by two tokens dilutes the pool |
| SharePoolProperties.FullRedemptionEmpties | packages/corp-actions/src/pool.ts:113-132 | redeeming every share pays out the whole backed balance |
| SharePoolProperties.RoundingNeverPays | packages/corp-actions/src/pool.ts:88-132 | from any state with the invariant, over any number of its own deposits and evenly paid withdrawals, an account's claim rises by at most its net payments |
| SharePoolProperties.NoRunGainsExactlyWhen | packages/corp-actions/src/pool.ts:88-132 | no such run gains an account anything exactly when the start has no backing without shares |
| SharePoolProperties.OversizedFee | packages/corp-actions/src/pool.ts:172-186 | a fee one above the backed balance is accepted and leaves it negative |
| SharePoolEffects.UnprovenancedRebaseCreditsNobody | spec/invariants.md:191 | a rebase without provenance leaves every entitlement and the backed balance as they were and raises the surplus by exactly the increase; a decrease is refused |
| SharePoolEffects.SurplusIsEveryIncrease | spec/invariants.md:191 | over any run without provenanced rebases the surplus is its start plus the sum of those increases |
| SharePoolEffects.ProvenancedRebaseMeans | packages/corp-actions/src/pool.ts:149-169 | a provenanced rebase scales the surplus with the balance, rounded down, reports the rounded factor and changes no share |
| SharePoolEffects.HoldersScaleWithRebase | packages/corp-actions/src/pool.ts:149-169 | what backs the shares scales with the balance, rounded up |
| SharePoolEffects.EntitlementMeans | packages/corp-actions/src/pool.ts:35-39 | an entitlement is shares * (balance - surplus) / total shares rounded down |
| SharePoolEffects.DustIsBelowOnePerAccount | packages/corp-actions/src/pool.ts:48-78 | entitlements leave less than one wei per account undistributed |
| SharePoolEffects.ReportMeans | packages/corp-actions/src/pool.ts:54-78 | the report says ok exactly when no more is owed than backed and the surplus is not negative |
| SharePoolEffects.OverdrawnPoolIsReportedByRounding | packages/corp-actions/src/pool.ts:54-78 | an overdrawn pool is reported with two holders and passes as ok with one |
| SharePoolEffects.DepositMeans | packages/corp-actions/src/pool.ts:88-111 | a deposit mints value * total shares / backed rounded down, its own value into an empty pool, and as many shares as there are where none are backed; each refusal exact |
| SharePoolEffects.RedemptionMeans | packages/corp-actions/src/pool.ts:113-132 | a redemption burns its count and pays count * backed / total shares rounded towards zero; each refusal exact |
| SharePoolEffects.FeeMeans | packages/corp-actions/src/pool.ts:172-186 | a fee lowers the balance by itself and changes nothing else; only a negative one is refused |
| BudgetSafety.EveryRunIsSafe | packages/schemas/src/sentinel-budget.ts:144-184 | after every interleaving of checked reservations, confirmations and releases, every window at any alignment is within its spend cap and run count, totals are within theirs, and committed entries are a cooldown apart |
| BudgetSafety.StepStaysSafe | packages/schemas/src/sentinel-budget.ts:73-104 | one operation at a clock that does not go back keeps all of these |
| BudgetSafety.SettledIsFinal | packages/schemas/src/sentinel-budget.ts:85-104 | no entry is ever dropped or altered but for its state, and a settled state never changes |
| BudgetSafety.ReservingTwice | packages/schemas/src/sentinel-budget.ts:65-83 | a second reservation of a run changes nothing exactly when the run id is in lower case |
| BudgetSafety.UpperCaseReservesTwice | packages/schemas/src/sentinel-budget.ts:65-83 | an id in upper case is reserved twice |
| BudgetSafety.FeeCheckBoundsCommitments | packages/schemas/src/sentinel-budget.ts:170-171 | passing the fee check bounds confirmed, reserved and new fees together exactly when no fee is outstanding |
| BudgetSafety.FeesStayCapped | packages/schemas/src/sentinel-budget.ts:121-171 | with at most one fee outstanding at a time, confirmed and reserved fees never exceed the cap over any run |
| BudgetSafety.TwoOutstandingFeesOverrun | packages/schemas/src/sentinel-budget.ts:121-171 | two outstanding reservations of fee two are both confirmed under a cap of three |
| BudgetEffects.ReleaseMeans | packages/schemas/src/sentinel-budget.ts:97-103 | releasing a reserved run marks exactly its entries RELEASED, lowers what is spent by exactly their amounts and leaves the fees spent |
| BudgetEffects.ConfirmMeans | packages/schemas/src/sentinel-budget.ts:85-91 | confirming a reserved run marks exactly its entries CONFIRMED, leaves what is spent and raises the fees spent by theirs |
| BudgetEffects.SettlingAgain | packages/schemas/src/sentinel-budget.ts:85-103 | repeating either changes nothing, the other is refused, and so is an unknown run |
| BudgetEffects.ReservedThroughout | packages/schemas/src/sentinel-budget.ts:65-103 | in every reachable ledger a run found reserved has only reserved entries |
| BudgetEffects.EveryStateHasItsReason | packages/schemas/src/sentinel-budget.ts:73-103 | over every run an entry is there because it was asked for with that amount, fee and time, CONFIRMED only if its run was settled and RELEASED only if it was abandoned |
| BudgetEffects.ReserveMeans | packages/schemas/src/sentinel-budget.ts:73-82 | a reservation appends one RESERVED entry for an unknown run, changes nothing for a known one, and is refused exactly for a malformed id or a negative time |
| BudgetEffects.StoredInLowerCase | packages/schemas/src/sentinel-budget.ts:73-82 | an id is stored with its letters in lower case and unchanged exactly when it has none in upper case |
| BudgetEffects.FindMeans | packages/schemas/src/sentinel-budget.ts:65-67 | the entry found is the first of the run |
| BudgetEffects.PassesExactlyWhen | packages/schemas/src/sentinel-budget.ts:144-184 | a run passes exactly when all eight limits leave room for it, each with its own window |
| BudgetEffects.ReasonIsFirst | packages/schemas/src/sentinel-budget.ts:154-181 | the reason given is the first limit in order that leaves no room |
| BudgetEffects.OneMoreEntry | packages/schemas/src/sentinel-budget.ts:106-127 | one more entry adds its amount and a run unless released, and its fee only when confirmed, from its time on |
| BudgetEffects.LatestIsLatest | packages/schemas/src/sentinel-budget.ts:129-132 | the last effective time is the latest of the entries not released |
| MerkleTree.BuildNextLevel | packages/schemas/src/ids.ts:227-233 | the pairing loop hashes neighbours and promotes an odd last node unchanged |
| MerkleTree.MerkleRoot | packages/schemas/src/ids.ts:222-236 | the level-by-level loop computes the root of the sorted leaves, and zero for none |
| MerkleTree.NextLevelAt | packages/schemas/src/ids.ts:226-233 | node i of the next level is the hash of nodes 2i and 2i + 1, or node 2i unchanged when it is the last |
| MerkleTree.RootUnfolds | packages/schemas/src/ids.ts:222-236 | zero for no leaf, the leaf itself for one, else the root of the next level of the sorted leaves |
| MerkleTree.SmallRoots | packages/schemas/src/ids.ts:225-236 | two nodes are hashed; of three the first two are, and the result with the third |
| MerkleTree.RootDeterminesLeaves | packages/schemas/src/ids.ts:208-247 | for a collision-free pair hash and leaves outside its range, equal roots mean the same multiset of leaves whatever the two lengths, and conversely |
| MerkleTree.RepeatedLeafChangesRoot | packages/schemas/src/ids.ts:208-236 | committing a leaf once more changes the root |
| MerkleTree.PathsProveMembership | packages/schemas/src/ids.ts:208-247 | a value is a leaf exactly when some sibling path folds from it to the root |
| Chunker.LastIndexOf | packages/chaingpt/src/chunk.ts:97-98 | the last occurrence of a separator, or none |
| Chunker.CutWindow | packages/chaingpt/src/chunk.ts:93-104 | the cut is just past the last occurrence of the most preferred separator found in the last quarter, else the whole window |
| Chunker.Bounds | packages/chaingpt/src/chunk.ts:86-110 | the loop ends, from any overlap, in a gapless chain with strictly increasing starts, bounded sizes and the last end at the text's end |
| Chunker.ChunkEndsPastSeparatorExactlyWhen | packages/chaingpt/src/chunk.ts:90-105 | a chunk that is not the last ends just past a separator exactly when one stands in the last quarter of its window, for targets of at least five |
| Chunker.PreferredCut | packages/chaingpt/src/chunk.ts:93-105 | a chunk that is not the last ends just past the last paragraph break when one starts in the last quarter of its window, else the last line break, else the last full stop and space, else at the target |
| Chunker.ParagraphBeforeSentence | packages/chaingpt/src/chunk.ts:97-103 | with a paragraph break and a later sentence end in the last quarter the cut is past the paragraph break |
| Chunker.RawBoundaryCut | packages/chaingpt/src/chunk.ts:62-64 | the first chunk of "aaaaaa" at target four ends on the raw boundary |
| Chunker.SmallTargetEndsPastByChance | packages/chaingpt/src/chunk.ts:90-105 | at target four a chunk of "aa. b" ends just past a separator that does not start in the last quarter |
| Chunker.ChainCoversSpans | packages/chaingpt/src/chunk.ts:44-45 | every span of up to min(overlap, three quarters of the target) + 1 characters lies whole in one chunk |
| Chunker.ChainRebuilds | packages/chaingpt/src/chunk.ts:59-66 | putting together what each chunk adds gives the text back |
| Chunker.ChunkDocument | packages/chaingpt/src/chunk.ts:67-124 | one chunk for a short text; else numbered chunks carrying their own spans, chained, cut as preferred, covering every short span and rebuilding the text |
| UsdText.ReadOfFormatted | packages/domain/src/risk.ts:324-348 | reading back a displayed amount gives it truncated to the shown digits, exactly for 18 or more, and zero for a negative amount |
| UsdText.FormatMeans | packages/domain/src/risk.ts:324-332 | an amount is shown as its whole units and, after a point, the first d of its eighteen decimals |
| UsdText.CommasInThrees | packages/domain/src/risk.ts:330 | counting from the end every fourth character of the whole units is a comma and all others are the digits in order, none in front |
| UsdText.ParseMeans | packages/domain/src/risk.ts:343-348 | an input is read, commas and surrounding space aside, exactly as its digits and up to eighteen decimals say, and as zero when it writes no number |

## Left out

- RiskAgreement.OverflowExactlyWhenTooWide: the converse of OverflowMeansTooWide holds only where no other refusal comes first, so it is stated on ordered, valuable positions with at most 38 decimals; Evaluate128 says which refusal comes first on all others.
- PortfolioRelabelling.ForgettingNeverHelps: one direction for the whole value. Where a binding group is left by some of its members, the value may rise or not, depending on every other dimension and scenario; the exact condition is stated for the scale in the dimension itself.
- PortfolioDepths.LoweringDepthsNeverHelps: one direction for the whole value, for the same reason; the exact condition is stated for the position's own route scale.
- PortfolioAdditions.HeldCoMemberNeverGains: one direction for the working value, which may stay the same by rounding when the scale rises; the exact condition is stated for the scale.
- SharePoolProperties.RoundingNeverPays: withdrawals of a negative count are covered only where they divide evenly; WithdrawalIsFair says exactly when the others dilute.
- Negative integers in `packages/domain/src/risk.ts`, which its types admit and its callers never pass: quantities, prices, principal and clocks are naturals here.
- Group ids equal to the keys the portfolio evaluation makes up (`NONE`, `UNKNOWN_<dimension>`): the theorems that speak of a group's own kind assume there are none.
- Stress haircuts above BPS, which the portfolio evaluation does not check, and negative recognised values or session factors: assumed away.
- The JSON text of the canonical encoding: it is the sorted list of records together with the policy; the policy's own sorting is not modelled, nor is the property order that two duplicates' groups must share (they are compared as maps).
- Gates as a bit mask and as sorted names: a set here.
- Budget amounts as decimal strings and the schema validation of a budget: naturals and a record here.
- A chunk target of zero or a negative overlap; chunk hashes and section headings.
- The Merkle pair hash, keccak and ABI encoding: a parameter, assumed collision-free on sorted pairs where a theorem needs it.
- `formatTokens`, `formatHealth`, `explainHaircut` and the other display text of `packages/domain/src/risk.ts`.
- The browser's own copies of the interest functions: the same formulas as in `crates/risk-core/src/interest.rs` without the width checks.
- `scripts/gen_fixtures.py`, a third copy of the risk pipeline.
- `apps/web`, the Solidity contracts, the services, the ChainGPT client and regex parser, zod record guards, id derivations and the small state tables of the sentinel: I/O, encodings or one-branch checks.
