/**
 * crates/risk-core/src/valuation.rs and portfolio.rs: the pipeline on 128-bit money. Each method
 * keeps the source's loops and order of refusals, and is proved to return either the unbounded
 * result of RiskModel or exactly the refusal that the unbounded amounts call for.
 */
module RustPipeline {
  import opened Wrappers
  import opened Arithmetic
  import opened MoneyMath
  import opened RiskModel
  import opened Decimal
  import opened U256
  import Interest

  // ----------------------------------------------------------------------- widths of the inputs

  /** The integer widths of `RiskParameters`: u16 basis points and u64 ages. */
  predicate ParamsInWidth(p: RiskParameters) {
    && p.initialLtvBps < 65_536 && p.maintenanceLtvBps < 65_536 && p.liquidationLtvBps < 65_536
    && p.maxConcentrationBps < 65_536
    && (forall i :: 0 <= i < 5 ==> Haircuts(p)[i] < 65_536)
    && p.maxOracleAge < TWO64 && p.maxPassportAge < TWO64
  }

  predicate InWidth(a: AssetRiskInput) {
    && a.assetId < TWO256
    && a.quantity < TWO128 && a.decimals < 256 && a.priceUsd18 < TWO128
    && a.priceUpdatedAt < TWO64 && a.passportCommittedAt < TWO64
    && a.redemptionFloorBps < 65_536
    && ParamsInWidth(a.params)
    && forall i :: 0 <= i < |a.exitCurve| ==>
         a.exitCurve[i].thresholdUsd18 < TWO128 && a.exitCurve[i].recoveryBps < 65_536
  }

  predicate AllInWidth(assets: seq<AssetRiskInput>) {
    forall i :: 0 <= i < |assets| ==> InWidth(assets[i])
  }

  predicate AccountInWidth(c: AccountInput) {
    c.scaledPrincipal < TWO128 && c.borrowIndex < TWO128 && c.reservedUsd18 < TWO128
  }

  predicate SequencerInWidth(s: SequencerInput) {
    s.lastRestartAt < TWO64 && s.gracePeriod < TWO64
  }

  function SaturatingSub(a: nat, b: nat): nat {
    if a < b then 0 else a - b
  }

  // --------------------------------------------------------------------------- exact refusals

  function FirstBadHaircut(hs: seq<nat>): (bad: Option<nat>)
    ensures bad.None? <==> HaircutsInRange(hs)
  {
    if hs == [] then None
    else if hs[0] > BPS then Some(hs[0])
    else
      var rest := FirstBadHaircut(hs[1..]);
      assert forall i :: 0 < i < |hs| ==> hs[i] == hs[1..][i - 1];
      rest
  }

  /** Why one position cannot be valued in 128 bits, in the order the source discovers it. */
  function ValuationRefusal(a: AssetRiskInput): (e: Option<RiskError>)
    ensures e.None? ==> Valuable(a)
  {
    if Pow10(a.decimals) >= TWO128 then Some(DecimalsTooLarge(a.decimals))
    else if MarketValue(a) >= TWO128 then Some(Overflow)
    else
      var bad := FirstBadHaircut(Haircuts(a.params));
      if bad.Some? then Some(BpsOutOfRange(bad.value))
      else if a.exitCurve == [] then Some(ExitCurveEmpty)
      else if StressedExit(a) >= TWO128 then Some(Overflow)
      else if RedemptionFloor(a).Some? && RedemptionFloor(a).value >= TWO128 then Some(Overflow)
      else None
  }

  /** The first refusal among the first `k` positions: order, then value, then the running total. */
  function PassRefusal(assets: seq<AssetRiskInput>, k: nat): (e: Option<RiskError>)
    requires k <= |assets|
    ensures e.None? ==> AllValuable(assets[..k])
  {
    if k == 0 then None
    else
      var before := PassRefusal(assets, k - 1);
      if before.Some? then before
      else if k > 1 && assets[k - 1].assetId <= assets[k - 2].assetId then Some(AssetsNotOrdered(k - 1))
      else if ValuationRefusal(assets[k - 1]).Some? then ValuationRefusal(assets[k - 1])
      else if RawTotal(assets[..k - 1]) + Recognized(assets[k - 1]) >= TWO128 then Some(Overflow)
      else None
  }

  predicate LimitsFit(l: Limits) {
    l.total < TWO128 && l.borrow < TWO128 && l.maintenance < TWO128 && l.liquidation < TWO128
  }

  /** Every concentration cap of the second pass stays in 128 bits. */
  predicate CapsFit(assets: seq<AssetRiskInput>, raw: nat) {
    forall i :: 0 <= i < |assets| ==> Cap(assets[i], raw) < TWO128
  }

  /** The account's side: its debt, and what it uses up when the account is NORMAL. */
  predicate AccountFits(l: Limits, debt: nat, account: AccountInput, gates: set<Gate>) {
    && debt < TWO128
    && (StatusOf(l, debt, gates, account.statusOverride) == Normal ==> debt + account.reservedUsd18 < TWO128)
  }

  /** Why the whole evaluation is refused, if it is. */
  function EvaluationRefusal(assets: seq<AssetRiskInput>, account: AccountInput, gates: set<Gate>, now: nat)
    : (e: Option<RiskError>)
    ensures e.None? ==> AllValuable(assets)
  {
    var pass := PassRefusal(assets, |assets|);
    if pass.Some? then pass
    else
      assert assets[..|assets|] == assets;
      var raw := RawTotal(assets);
      var l := LimitsOf(assets, raw);
      if CapsFit(assets, raw) && LimitsFit(l)
         && AccountFits(l, DebtOf(account), account, gates + PortfolioGates(assets, now))
      then None
      else Some(Overflow)
  }

  // ------------------------------------------------------------------------------- valuation.rs

  method SelectRecoveryBps(curve: seq<ExitTier>, market: u128) returns (r: Result<nat, RiskError>)
    ensures r == if curve == [] then Err(ExitCurveEmpty) else Ok(RecoveryBps(curve, market))
  {
    if curve == [] {
      return Err(ExitCurveEmpty);
    }
    var i := 0;
    while i < |curve|
      invariant 0 <= i <= |curve|
      invariant i < |curve| ==> RecoveryBps(curve[i..], market) == RecoveryBps(curve, market)
      invariant i == |curve| ==> RecoveryBps(curve, market) == curve[|curve| - 1].recoveryBps
    {
      if market <= curve[i].thresholdUsd18 {
        return Ok(curve[i].recoveryBps);
      }
      assert curve[i..][1..] == curve[i + 1..];
      i := i + 1;
    }
    return Ok(curve[|curve| - 1].recoveryBps);
  }

  /** A share by at most BPS of an amount that fits also fits. */
  lemma ShareFits(v: nat, bps: nat)
    requires bps <= BPS
    ensures Share(v, bps) <= v
  {
    FloorShare(v, bps, BPS);
  }

  lemma {:induction false} FirstBadAt(hs: seq<nat>, k: nat)
    requires k < |hs| && HaircutsInRange(hs[..k]) && hs[k] > BPS
    ensures FirstBadHaircut(hs) == Some(hs[k])
  {
    if k > 0 {
      assert hs[0] == hs[..k][0];
      assert hs[1..][..k - 1] == hs[..k][1..];
      FirstBadAt(hs[1..], k - 1);
    }
  }

  method HaircutMarkOf(market: u128, hs: seq<nat>) returns (r: Result<u128, RiskError>)
    requires forall i :: 0 <= i < |hs| ==> hs[i] < 65_536
    ensures FirstBadHaircut(hs).Some? ==> r == Err(BpsOutOfRange(FirstBadHaircut(hs).value))
    ensures HaircutsInRange(hs) ==> r == Ok(Mark(market, hs))
  {
    var mark := market;
    for k := 0 to |hs|
      invariant HaircutsInRange(hs[..k]) && mark == Mark(market, hs[..k])
    {
      var complement := ComplementBps(hs[k]);
      if complement.Err? {
        FirstBadAt(hs, k);
        return Err(complement.error);
      }
      assert hs[..k + 1][..k] == hs[..k];
      ShareFits(mark, BPS - hs[k]);
      var next := ShareOf(mark, complement.value);
      mark := next.value;
    }
    assert hs[..|hs|] == hs;
    return Ok(mark);
  }

  method ValueAsset(a: AssetRiskInput) returns (r: Result<AssetValuation, RiskError>)
    requires InWidth(a)
    ensures ValuationRefusal(a).Some? ==> r == Err(ValuationRefusal(a).value)
    ensures ValuationRefusal(a).None? ==> r == Ok(Valuation(a)) && Recognized(a) < TWO128
  {
    if Pow10(a.decimals) >= TWO128 {
      return Err(DecimalsTooLarge(a.decimals));
    }
    var market :- MulDiv(a.quantity, a.priceUsd18, Pow10(a.decimals));
    var mark :- HaircutMarkOf(market, Haircuts(a.params));
    var recovery :- SelectRecoveryBps(a.exitCurve, market);
    RecoveryInWidth(a.exitCurve, market);
    var stressed :- ShareOf(market, recovery);
    var recognized := Min(mark, stressed);
    var redemptionFloor: Option<nat> := None;
    if a.redemptionSupported {
      var floor :- ShareOf(market, a.redemptionFloorBps);
      recognized := Min(recognized, floor);
      redemptionFloor := Some(floor);
    }
    return Ok(AssetValuation(a.assetId, market, mark, stressed, redemptionFloor, recognized, 0));
  }

  lemma {:induction false} RecoveryInWidth(curve: seq<ExitTier>, market: nat)
    requires curve != [] && forall i :: 0 <= i < |curve| ==> curve[i].recoveryBps < 65_536
    ensures RecoveryBps(curve, market) < 65_536
  {
    if !(market <= curve[0].thresholdUsd18 || |curve| == 1) {
      RecoveryInWidth(curve[1..], market);
    }
  }

  method AssetGatesOf(a: AssetRiskInput, now: nat) returns (gates: set<Gate>)
    ensures gates == AssetGates(a, now)
  {
    if a.quantity == 0 {
      return {};
    }
    gates := {};
    if SaturatingSub(now, a.priceUpdatedAt) > a.params.maxOracleAge {
      gates := gates + {OracleStaleGate};
    }
    if a.priceUsd18 == 0 {
      gates := gates + {OracleInvalidGate};
    }
    if SaturatingSub(now, a.passportCommittedAt) > a.params.maxPassportAge {
      gates := gates + {PassportStaleGate};
    }
    if a.passportStatus == Conflicted {
      gates := gates + {ClaimConflictGate};
    }
    if a.passportStatus == PassportSuspended || a.assetStatus == AssetSuspended {
      gates := gates + {AssetSuspendedGate};
    }
  }

  // ------------------------------------------------------------------------------- portfolio.rs

  /** The saturating form of the sequencer's restriction. */
  function SaturatingSequencerGates(s: SequencerInput, now: nat): set<Gate> {
    if !s.up then {SequencerDownGate}
    else if SaturatingSub(now, s.lastRestartAt) < s.gracePeriod then {SequencerGraceGate}
    else {}
  }

  /** The first `k` positions are valued, and their recognised values added up. */
  predicate Valued(assets: seq<AssetRiskInput>, k: nat, perAsset: seq<AssetValuation>, rawTotal: nat) {
    && k == |perAsset| <= |assets|
    && AllValuable(assets[..k])
    && (forall i :: 0 <= i < k ==> IsValued(assets[i], perAsset[i]))
    && rawTotal == RawTotal(assets[..k])
  }

  predicate IsValued(a: AssetRiskInput, v: AssetValuation) {
    Valuable(a) && v == Valuation(a) && Recognized(a) < TWO128
  }

  lemma ValuedNext(assets: seq<AssetRiskInput>, k: nat, perAsset: seq<AssetValuation>, rawTotal: nat)
    requires Valued(assets, k, perAsset, rawTotal) && k < |assets|
    requires Valuable(assets[k]) && Recognized(assets[k]) < TWO128
    ensures Valued(assets, k + 1, perAsset + [Valuation(assets[k])], rawTotal + Recognized(assets[k]))
  {
    assert assets[..k + 1][..k] == assets[..k];
    assert forall i :: 0 <= i < k + 1 ==> assets[..k + 1][i] == assets[i];
  }

  function GatesSoFar(assets: seq<AssetRiskInput>, initialGates: set<Gate>, now: nat, k: nat): set<Gate>
    requires k <= |assets|
  {
    initialGates + PortfolioGates(assets[..k], now)
  }

  lemma GatesNext(assets: seq<AssetRiskInput>, initialGates: set<Gate>, now: nat, k: nat)
    requires k < |assets|
    ensures GatesSoFar(assets, initialGates, now, k + 1)
            == GatesSoFar(assets, initialGates, now, k) + AssetGates(assets[k], now)
  {
    assert assets[..k + 1][..k] == assets[..k];
  }

  /** The value of a position, its gates, and the running total with it. */
  method AddPosition(a: AssetRiskInput, gates: set<Gate>, rawTotal: u128, now: nat)
    returns (r: Result<(AssetValuation, u128, set<Gate>), RiskError>)
    requires InWidth(a)
    ensures ValuationRefusal(a).Some? ==> r == Err(ValuationRefusal(a).value)
    ensures ValuationRefusal(a).None? && rawTotal + Recognized(a) >= TWO128 ==> r == Err(Overflow)
    ensures ValuationRefusal(a).None? && rawTotal + Recognized(a) < TWO128 ==>
      r == Ok((Valuation(a), rawTotal + Recognized(a), gates + AssetGates(a, now)))
  {
    var valuation :- ValueAsset(a);
    var assetGates := AssetGatesOf(a, now);
    var total :- CheckedAdd(rawTotal, valuation.recognizedUsd18);
    return Ok((valuation, total, gates + assetGates));
  }

  /** One iteration of the first loop: order, then value, gates and the running total. */
  method ValuePosition(assets: seq<AssetRiskInput>, index: nat, gates: set<Gate>, rawTotal: u128, now: nat)
    returns (r: Result<(AssetValuation, u128, set<Gate>), RiskError>)
    requires index < |assets| && InWidth(assets[index])
    requires PassRefusal(assets, index).None? && rawTotal == RawTotal(assets[..index])
    ensures PassRefusal(assets, index + 1).Some? ==> r == Err(PassRefusal(assets, index + 1).value)
    ensures PassRefusal(assets, index + 1).None? ==>
      var a := assets[index];
      && Valuable(a) && rawTotal + Recognized(a) < TWO128
      && r == Ok((Valuation(a), rawTotal + Recognized(a), gates + AssetGates(a, now)))
  {
    if index > 0 && assets[index].assetId <= assets[index - 1].assetId {
      return Err(AssetsNotOrdered(index));
    }
    r := AddPosition(assets[index], gates, rawTotal, now);
  }

  /** One iteration of the first loop on its whole state, or the refusal of the pass. */
  method Advance(assets: seq<AssetRiskInput>, index: nat, ghost initialGates: set<Gate>, now: nat,
                 perAsset: seq<AssetValuation>, rawTotal: u128, gates: set<Gate>)
    returns (r: Result<(seq<AssetValuation>, u128, set<Gate>), RiskError>)
    requires index < |assets| && InWidth(assets[index])
    requires PassRefusal(assets, index).None? && Valued(assets, index, perAsset, rawTotal)
    requires gates == GatesSoFar(assets, initialGates, now, index)
    ensures r.Err? ==> PassRefusal(assets, |assets|) == Some(r.error)
    ensures r.Ok? ==>
      && PassRefusal(assets, index + 1).None?
      && Valued(assets, index + 1, r.value.0, r.value.1)
      && r.value.2 == GatesSoFar(assets, initialGates, now, index + 1)
  {
    var step := ValuePosition(assets, index, gates, rawTotal, now);
    if step.Err? {
      RefusalStands(assets, index + 1, |assets|);
      return Err(step.error);
    }
    GatesNext(assets, initialGates, now, index);
    ValuedNext(assets, index, perAsset, rawTotal);
    return Ok((perAsset + [step.value.0], step.value.1, step.value.2));
  }

  /** The first loop: order, value, gates and the uncapped total, or the earliest refusal. */
  method ValueAll(assets: seq<AssetRiskInput>, initialGates: set<Gate>, now: nat)
    returns (r: Result<(seq<AssetValuation>, u128, set<Gate>), RiskError>)
    requires AllInWidth(assets)
    ensures r.Err? ==> PassRefusal(assets, |assets|) == Some(r.error)
    ensures r.Ok? ==>
      && PassRefusal(assets, |assets|).None?
      && Valued(assets, |assets|, r.value.0, r.value.1)
      && r.value.2 == GatesSoFar(assets, initialGates, now, |assets|)
  {
    var gates, rawTotal: u128, perAsset := initialGates, 0, [];
    for index := 0 to |assets|
      invariant PassRefusal(assets, index).None? && Valued(assets, index, perAsset, rawTotal)
      invariant gates == GatesSoFar(assets, initialGates, now, index)
    {
      var step :- Advance(assets, index, initialGates, now, perAsset, rawTotal, gates);
      perAsset, rawTotal, gates := step.0, step.1, step.2;
    }
    return Ok((perAsset, rawTotal, gates));
  }

  lemma AllValued(assets: seq<AssetRiskInput>, perAsset: seq<AssetValuation>, rawTotal: nat)
    requires Valued(assets, |assets|, perAsset, rawTotal)
    ensures AllValuable(assets) && |perAsset| == |assets| && rawTotal == RawTotal(assets)
    ensures forall i :: 0 <= i < |assets| ==> IsValued(assets[i], perAsset[i])
  {
    assert assets[..|assets|] == assets;
  }

  /** A refusal among the first positions is the refusal of the whole pass. */
  lemma {:induction false} RefusalStands(assets: seq<AssetRiskInput>, k: nat, n: nat)
    requires k <= n <= |assets| && PassRefusal(assets, k).Some?
    ensures PassRefusal(assets, n) == PassRefusal(assets, k)
    decreases n
  {
    if k < n {
      RefusalStands(assets, k, n - 1);
      RefusalKept(assets, n - 1);
    }
  }

  lemma RefusalKept(assets: seq<AssetRiskInput>, k: nat)
    requires k < |assets| && PassRefusal(assets, k).Some?
    ensures PassRefusal(assets, k + 1) == PassRefusal(assets, k)
  {
  }

  lemma {:induction false} BandTotalMono(assets: seq<AssetRiskInput>, raw: nat, band: Band, k: nat)
    requires k <= |assets| && AllValuable(assets)
    ensures AllValuable(assets[..k])
    ensures BandTotal(assets[..k], raw, band) <= BandTotal(assets, raw, band)
  {
    if k == |assets| {
      assert assets[..k] == assets;
    } else {
      BandTotalMono(assets[..|assets| - 1], raw, band, k);
      assert assets[..|assets| - 1][..k] == assets[..k];
    }
  }

  method ShareOf(v: u128, bps: nat) returns (r: Result<u128, RiskError>)
    requires bps < 65_536
    ensures r == Narrow(Share(v, bps))
  {
    r := MulDiv(v, bps, BPS);
  }

  method AddShare(total: u128, capped: u128, bps: nat) returns (r: Result<u128, RiskError>)
    requires bps < 65_536
    ensures r == Narrow(total + Share(capped, bps))
  {
    var share :- ShareOf(capped, bps);
    return CheckedAdd(total, share);
  }

  /** One iteration of the second loop: cap the position, then add it to the four running totals. */
  method CapPosition(a: AssetRiskInput, recognized: u128, rawTotal: u128, l: Limits)
    returns (r: Result<(u128, Limits), RiskError>)
    requires InWidth(a) && Valuable(a) && recognized == Recognized(a) && LimitsFit(l)
    ensures r == if Cap(a, rawTotal) < TWO128 && LimitsFit(WithPosition(l, a, rawTotal))
                 then Ok((Capped(a, rawTotal), WithPosition(l, a, rawTotal)))
                 else Err(Overflow)
  {
    var cap :- ShareOf(rawTotal, a.params.maxConcentrationBps);
    var capped := Min(recognized, cap);
    var total :- CheckedAdd(l.total, capped);
    var borrow :- AddShare(l.borrow, capped, a.params.initialLtvBps);
    var maintenance :- AddShare(l.maintenance, capped, a.params.maintenanceLtvBps);
    var liquidation :- AddShare(l.liquidation, capped, a.params.liquidationLtvBps);
    return Ok((capped, Limits(total, borrow, maintenance, liquidation)));
  }

  lemma LimitsGrow(assets: seq<AssetRiskInput>, raw: nat, k: nat)
    requires k <= |assets| && AllValuable(assets) && LimitsFit(LimitsOf(assets, raw))
    ensures AllValuable(assets[..k]) && LimitsFit(LimitsOf(assets[..k], raw))
  {
    BandTotalMono(assets, raw, Whole, k);
    BandTotalMono(assets, raw, Initial, k);
    BandTotalMono(assets, raw, Maintenance, k);
    BandTotalMono(assets, raw, Liquidation, k);
  }

  /** A step that does not fit means the whole pass does not fit. */
  lemma StepRefuses(assets: seq<AssetRiskInput>, raw: nat, k: nat)
    requires k < |assets| && AllValuable(assets) && CapsFit(assets, raw) && LimitsFit(LimitsOf(assets, raw))
    ensures AllValuable(assets[..k])
    ensures Cap(assets[k], raw) < TWO128 && LimitsFit(WithPosition(LimitsOf(assets[..k], raw), assets[k], raw))
  {
    LimitsStep(assets, raw, k);
    LimitsGrow(assets, raw, k + 1);
  }

  /** The second loop: the cap written into each valuation in place, and the four totals. */
  method CapAll(assets: seq<AssetRiskInput>, valuations: seq<AssetValuation>, rawTotal: u128)
    returns (r: Result<(seq<AssetValuation>, Limits), RiskError>)
    requires AllInWidth(assets) && AllValuable(assets) && |valuations| == |assets|
    requires forall i :: 0 <= i < |assets| ==> IsValued(assets[i], valuations[i])
    ensures r == if CapsFit(assets, rawTotal) && LimitsFit(LimitsOf(assets, rawTotal))
                 then Ok((CappedValuations(assets, rawTotal), LimitsOf(assets, rawTotal)))
                 else Err(Overflow)
  {
    var perAsset, l := valuations, Limits(0, 0, 0, 0);
    for k := 0 to |assets|
      invariant |perAsset| == |assets| && AllValuable(assets[..k])
      invariant forall i :: 0 <= i < |assets| ==>
        perAsset[i] == if i < k then CappedValuations(assets, rawTotal)[i] else valuations[i]
      invariant forall i :: 0 <= i < k ==> Cap(assets[i], rawTotal) < TWO128
      invariant l == LimitsOf(assets[..k], rawTotal) && LimitsFit(l)
    {
      LimitsStep(assets, rawTotal, k);
      var step := CapPosition(assets[k], perAsset[k].recognizedUsd18, rawTotal, l);
      if step.Err? {
        if CapsFit(assets, rawTotal) && LimitsFit(LimitsOf(assets, rawTotal)) {
          StepRefuses(assets, rawTotal, k);
        }
        return Err(step.error);
      }
      perAsset := perAsset[k := perAsset[k].(cappedUsd18 := step.value.0)];
      l := step.value.1;
    }
    assert assets[..|assets|] == assets;
    assert perAsset == CappedValuations(assets, rawTotal);
    return Ok((perAsset, l));
  }

  /** Section 5 on checked amounts: debt, status, capacity and health. */
  method Conclude(perAsset: seq<AssetValuation>, l: Limits, account: AccountInput, gates: set<Gate>)
    returns (r: Result<RiskReport, RiskError>)
    requires LimitsFit(l) && AccountInWidth(account)
    ensures r == if AccountFits(l, DebtOf(account), account, gates)
                 then Ok(Conclusion(perAsset, l, DebtOf(account), account, gates))
                 else Err(Overflow)
  {
    var debt :- Interest.DebtUsd18(account.scaledPrincipal, account.borrowIndex);
    var base := BaseStatus(debt, l.borrow, l.maintenance, l.liquidation);
    var gateFloor := if gates == {} then Normal else NoNewRisk;
    var status := base.Max(gateFloor).Max(account.statusOverride);
    var available: nat := 0;
    if status == Normal {
      var used :- CheckedAdd(debt, account.reservedUsd18);
      available := SaturatingSub(l.borrow, used);
    }
    var health: nat := MAX.Value();
    if debt != 0 {
      var wide := MulDivWide(l.maintenance, WAD, debt);
      health := wide.value.Value();
    }
    return Ok(RiskReport(perAsset, l.total, l.borrow, l.maintenance, l.liquidation,
                         debt, available, health, status, gates));
  }

  /** The unbounded report, or the refusal. */
  function Outcome(assets: seq<AssetRiskInput>, account: AccountInput, gates: set<Gate>, now: nat)
    : Result<RiskReport, RiskError>
  {
    var refusal := EvaluationRefusal(assets, account, gates, now);
    if refusal.Some? then Err(refusal.value) else Ok(Report(assets, account, gates, now))
  }

  lemma OutcomeByStage(assets: seq<AssetRiskInput>, account: AccountInput, gates: set<Gate>, now: nat)
    ensures
      var o := Outcome(assets, account, gates, now);
      var pass := PassRefusal(assets, |assets|);
      if pass.Some? then o == Err(pass.value)
      else
        && AllValuable(assets)
        && var raw := RawTotal(assets);
           var l := LimitsOf(assets, raw);
           var all := gates + PortfolioGates(assets, now);
           if !(CapsFit(assets, raw) && LimitsFit(l) && AccountFits(l, DebtOf(account), account, all))
           then o == Err(Overflow)
           else o == Ok(Conclusion(CappedValuations(assets, raw), l, DebtOf(account), account, all))
  {
    assert assets[..|assets|] == assets;
  }

  /** The whole evaluation is the unbounded report on the saturated sequencer gates, or its exact refusal. */
  method Evaluate128(assets: seq<AssetRiskInput>, account: AccountInput, sequencer: SequencerInput, now: nat)
    returns (r: Result<RiskReport, RiskError>)
    requires AllInWidth(assets) && AccountInWidth(account) && SequencerInWidth(sequencer) && now < TWO64
    ensures r == Outcome(assets, account, SaturatingSequencerGates(sequencer, now), now)
  {
    var gates: set<Gate> := {};
    if !sequencer.up {
      gates := gates + {SequencerDownGate};
    } else if SaturatingSub(now, sequencer.lastRestartAt) < sequencer.gracePeriod {
      gates := gates + {SequencerGraceGate};
    }
    assert gates == SaturatingSequencerGates(sequencer, now);
    OutcomeByStage(assets, account, gates, now);
    var valued :- ValueAll(assets, gates, now);
    AllValued(assets, valued.0, valued.1);
    assert assets[..|assets|] == assets;
    var limits :- CapAll(assets, valued.0, valued.1);
    r := Conclude(limits.0, limits.1, account, valued.2);
  }
}
