/**
 * The risk pipeline on unbounded amounts: what spec/accounting.md sections 4 and 5 ask for and what
 * packages/domain/src/risk.ts computes on `bigint`. The 128-bit implementation is proved against
 * these functions, and every property of the pipeline is a property of them.
 */
module RiskModel {
  import opened Wrappers
  import opened Arithmetic
  import opened MoneyMath
  import opened Decimal
  import Interest
  import U256

  // ------------------------------------------------------------------------------ input records

  datatype AccountStatus = Normal | NoNewRisk | ReduceOnly | MarginCall | Liquidating | Settled | BadDebt {
    /** The frozen total order of section 5.1. */
    function Rank(): nat {
      match this
      case Normal => 0
      case NoNewRisk => 1
      case ReduceOnly => 2
      case MarginCall => 3
      case Liquidating => 4
      case Settled => 5
      case BadDebt => 6
    }

    function Max(other: AccountStatus): AccountStatus {
      if Rank() < other.Rank() then other else this
    }
  }

  datatype PassportStatus = NoPassport | PassportActive | PassportStale | Conflicted | PassportSuspended | Revoked

  datatype AssetStatus = Unregistered | AssetActive | Paused | AssetSuspended | Retired

  datatype Gate =
    | OracleStaleGate
    | OracleInvalidGate
    | PassportStaleGate
    | ClaimConflictGate
    | AssetSuspendedGate
    | SequencerDownGate
    | SequencerGraceGate

  datatype ExitTier = ExitTier(thresholdUsd18: nat, recoveryBps: nat)

  datatype RiskParameters = RiskParameters(
    initialLtvBps: nat,
    maintenanceLtvBps: nat,
    liquidationLtvBps: nat,
    maxConcentrationBps: nat,
    haircutMarketBps: nat,
    haircutLiquidityBps: nat,
    haircutIssuerBps: nat,
    haircutSettlementBps: nat,
    haircutCrosschainBps: nat,
    maxOracleAge: nat,
    maxPassportAge: nat)

  datatype AssetRiskInput = AssetRiskInput(
    assetId: nat,
    quantity: nat,
    decimals: nat,
    priceUsd18: nat,
    priceUpdatedAt: nat,
    passportCommittedAt: nat,
    passportStatus: PassportStatus,
    redemptionSupported: bool,
    redemptionFloorBps: nat,
    assetStatus: AssetStatus,
    params: RiskParameters,
    exitCurve: seq<ExitTier>)

  datatype AccountInput = AccountInput(
    scaledPrincipal: nat,
    borrowIndex: nat,
    reservedUsd18: nat,
    statusOverride: AccountStatus)

  datatype SequencerInput = SequencerInput(up: bool, lastRestartAt: nat, gracePeriod: nat)

  datatype AssetValuation = AssetValuation(
    assetId: nat,
    marketValueUsd18: nat,
    haircutMarkUsd18: nat,
    stressedExitUsd18: nat,
    redemptionFloorUsd18: Option<nat>,
    recognizedUsd18: nat,
    cappedUsd18: nat)

  datatype RiskReport = RiskReport(
    perAsset: seq<AssetValuation>,
    totalRecognizedUsd18: nat,
    borrowLimitUsd18: nat,
    maintenanceLimitUsd18: nat,
    liquidationLimitUsd18: nat,
    debtUsd18: nat,
    availableBorrowUsd18: nat,
    healthFactorWad: nat,
    status: AccountStatus,
    gates: set<Gate>)

  // -------------------------------------------------------------------- section 4: one position

  function Min(a: nat, b: nat): nat {
    if a < b then a else b
  }

  /** `v * bps / BPS`, rounded down. */
  function Share(v: nat, bps: nat): nat {
    FloorBounds(v * bps, BPS);
    v * bps / BPS
  }

  function MarketValue(a: AssetRiskInput): nat {
    FloorBounds(a.quantity * a.priceUsd18, Pow10(a.decimals));
    a.quantity * a.priceUsd18 / Pow10(a.decimals)
  }

  function Haircuts(p: RiskParameters): (hs: seq<nat>)
    ensures |hs| == 5
  {
    [p.haircutMarketBps, p.haircutLiquidityBps, p.haircutIssuerBps,
     p.haircutSettlementBps, p.haircutCrosschainBps]
  }

  predicate HaircutsInRange(hs: seq<nat>) {
    forall i :: 0 <= i < |hs| ==> hs[i] <= BPS
  }

  /** Each haircut floors separately, in order. */
  function Mark(market: nat, hs: seq<nat>): nat
    requires HaircutsInRange(hs)
  {
    if hs == [] then market
    else Share(Mark(market, hs[..|hs| - 1]), BPS - hs[|hs| - 1])
  }

  /** The first tier at or above the position; past the last threshold, the last tier. */
  function RecoveryBps(curve: seq<ExitTier>, market: nat): nat
    requires curve != []
  {
    if market <= curve[0].thresholdUsd18 || |curve| == 1 then curve[0].recoveryBps
    else RecoveryBps(curve[1..], market)
  }

  predicate Valuable(a: AssetRiskInput) {
    a.exitCurve != [] && HaircutsInRange(Haircuts(a.params))
  }

  function RedemptionFloor(a: AssetRiskInput): Option<nat> {
    if a.redemptionSupported then Some(Share(MarketValue(a), a.redemptionFloorBps)) else None
  }

  function StressedExit(a: AssetRiskInput): nat
    requires a.exitCurve != []
  {
    Share(MarketValue(a), RecoveryBps(a.exitCurve, MarketValue(a)))
  }

  function HaircutMark(a: AssetRiskInput): nat
    requires Valuable(a)
  {
    Mark(MarketValue(a), Haircuts(a.params))
  }

  function Recognized(a: AssetRiskInput): nat
    requires Valuable(a)
  {
    var m := Min(HaircutMark(a), StressedExit(a));
    match RedemptionFloor(a)
    case Some(floor) => Min(m, floor)
    case None => m
  }

  /** Every intermediate of one position, before the concentration cap. */
  function Valuation(a: AssetRiskInput): AssetValuation
    requires Valuable(a)
  {
    AssetValuation(a.assetId, MarketValue(a), HaircutMark(a), StressedExit(a),
                   RedemptionFloor(a), Recognized(a), 0)
  }

  // ----------------------------------------------------------- sections 4.6 and 5: the portfolio

  predicate AllValuable(assets: seq<AssetRiskInput>) {
    forall i :: 0 <= i < |assets| ==> Valuable(assets[i])
  }

  predicate Ascending(assets: seq<AssetRiskInput>) {
    forall i :: 0 < i < |assets| ==> assets[i - 1].assetId < assets[i].assetId
  }

  function RawTotal(assets: seq<AssetRiskInput>): nat
    requires AllValuable(assets)
  {
    if assets == [] then 0
    else RawTotal(assets[..|assets| - 1]) + Recognized(assets[|assets| - 1])
  }

  function Cap(a: AssetRiskInput, raw: nat): nat {
    Share(raw, a.params.maxConcentrationBps)
  }

  function Capped(a: AssetRiskInput, raw: nat): nat
    requires Valuable(a)
  {
    Min(Recognized(a), Cap(a, raw))
  }

  /** The four totals taken over capped value; the whole of it, or one of the three LTV bands. */
  datatype Band = Whole | Initial | Maintenance | Liquidation

  function BandBps(p: RiskParameters, band: Band): nat {
    match band
    case Whole => BPS
    case Initial => p.initialLtvBps
    case Maintenance => p.maintenanceLtvBps
    case Liquidation => p.liquidationLtvBps
  }

  function Contribution(a: AssetRiskInput, raw: nat, band: Band): nat
    requires Valuable(a)
  {
    if band == Whole then Capped(a, raw) else Share(Capped(a, raw), BandBps(a.params, band))
  }

  function BandTotal(assets: seq<AssetRiskInput>, raw: nat, band: Band): nat
    requires AllValuable(assets)
  {
    if assets == [] then 0
    else BandTotal(assets[..|assets| - 1], raw, band) + Contribution(assets[|assets| - 1], raw, band)
  }

  function AssetGates(a: AssetRiskInput, now: nat): set<Gate> {
    if a.quantity == 0 then {}
    else
      (if now - a.priceUpdatedAt > a.params.maxOracleAge then {OracleStaleGate} else {})
      + (if a.priceUsd18 == 0 then {OracleInvalidGate} else {})
      + (if now - a.passportCommittedAt > a.params.maxPassportAge then {PassportStaleGate} else {})
      + (if a.passportStatus == Conflicted then {ClaimConflictGate} else {})
      + (if a.passportStatus == PassportSuspended || a.assetStatus == AssetSuspended
         then {AssetSuspendedGate} else {})
  }

  function PortfolioGates(assets: seq<AssetRiskInput>, now: nat): set<Gate> {
    if assets == [] then {}
    else PortfolioGates(assets[..|assets| - 1], now) + AssetGates(assets[|assets| - 1], now)
  }

  /** The sequencer's own restriction, with the unsaturated clock difference of the browser. */
  function SequencerGates(s: SequencerInput, now: nat): set<Gate> {
    if !s.up then {SequencerDownGate}
    else if now - s.lastRestartAt < s.gracePeriod then {SequencerGraceGate}
    else {}
  }

  function BaseStatus(debt: nat, borrow: nat, maintenance: nat, liquidation: nat): AccountStatus {
    if debt == 0 || debt <= borrow then Normal
    else if debt <= maintenance then NoNewRisk
    else if debt <= liquidation then ReduceOnly
    else MarginCall
  }

  function Health(maintenance: nat, debt: nat): nat {
    if debt == 0 then U256.TWO256 - 1
    else
      FloorBounds(maintenance * WAD, debt);
      maintenance * WAD / debt
  }

  function CappedValuations(assets: seq<AssetRiskInput>, raw: nat): seq<AssetValuation>
    requires AllValuable(assets)
  {
    seq(|assets|, i requires 0 <= i < |assets| =>
      Valuation(assets[i]).(cappedUsd18 := Capped(assets[i], raw)))
  }

  /** Capped value and the three limits of a portfolio. */
  datatype Limits = Limits(total: nat, borrow: nat, maintenance: nat, liquidation: nat)

  function LimitsOf(assets: seq<AssetRiskInput>, raw: nat): Limits
    requires AllValuable(assets)
  {
    Limits(BandTotal(assets, raw, Whole), BandTotal(assets, raw, Initial),
           BandTotal(assets, raw, Maintenance), BandTotal(assets, raw, Liquidation))
  }

  /** The totals once one more position is counted. */
  function WithPosition(l: Limits, a: AssetRiskInput, raw: nat): Limits
    requires Valuable(a)
  {
    Limits(l.total + Contribution(a, raw, Whole),
           l.borrow + Contribution(a, raw, Initial),
           l.maintenance + Contribution(a, raw, Maintenance),
           l.liquidation + Contribution(a, raw, Liquidation))
  }

  lemma LimitsStep(assets: seq<AssetRiskInput>, raw: nat, k: nat)
    requires k < |assets| && AllValuable(assets[..k]) && Valuable(assets[k])
    ensures AllValuable(assets[..k + 1])
    ensures LimitsOf(assets[..k + 1], raw) == WithPosition(LimitsOf(assets[..k], raw), assets[k], raw)
  {
    assert assets[..k + 1][..k] == assets[..k];
  }

  function StatusOf(l: Limits, debt: nat, gates: set<Gate>, override: AccountStatus): AccountStatus {
    var gateFloor := if gates == {} then Normal else NoNewRisk;
    BaseStatus(debt, l.borrow, l.maintenance, l.liquidation).Max(gateFloor).Max(override)
  }

  function AvailableBorrow(l: Limits, status: AccountStatus, used: nat): nat {
    if status == Normal && used < l.borrow then l.borrow - used else 0
  }

  /** The report once the portfolio's value, limits, debt and gates are known. */
  function Conclusion(perAsset: seq<AssetValuation>, l: Limits, debt: nat, account: AccountInput, gates: set<Gate>)
    : RiskReport
  {
    var status := StatusOf(l, debt, gates, account.statusOverride);
    RiskReport(perAsset, l.total, l.borrow, l.maintenance, l.liquidation, debt,
               AvailableBorrow(l, status, debt + account.reservedUsd18),
               Health(l.maintenance, debt), status, gates)
  }

  function DebtOf(account: AccountInput): nat {
    Interest.Debt(account.scaledPrincipal, account.borrowIndex)
  }

  /** The whole report for a portfolio whose portfolio-wide gates are already known. */
  function Report(assets: seq<AssetRiskInput>, account: AccountInput, sequencerGates: set<Gate>, now: nat): RiskReport
    requires AllValuable(assets)
  {
    var raw := RawTotal(assets);
    Conclusion(CappedValuations(assets, raw), LimitsOf(assets, raw), DebtOf(account), account,
               sequencerGates + PortfolioGates(assets, now))
  }

  /** The browser's evaluation of an accepted portfolio. */
  function Evaluate(assets: seq<AssetRiskInput>, account: AccountInput, s: SequencerInput, now: nat): RiskReport
    requires AllValuable(assets)
  {
    Report(assets, account, SequencerGates(s, now), now)
  }
}
