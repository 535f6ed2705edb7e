/**
 * packages/domain/src/risk.ts: the same pipeline on `bigint`, with its loops, its candidate list and
 * the inputs on which it throws. Proved to compute the functions of RiskModel.
 */
module BrowserPipeline {
  import opened Wrappers
  import opened MoneyMath
  import opened RiskModel
  import Interest

  datatype RangeError = AssetsNotSorted | NegativeInput | ExitCurveIsEmpty

  function ValuationError(a: AssetRiskInput): (e: Option<RangeError>)
    ensures e.None? <==> Valuable(a)
  {
    if !HaircutsInRange(Haircuts(a.params)) then Some(NegativeInput)
    else if a.exitCurve == [] then Some(ExitCurveIsEmpty)
    else None
  }

  function FirstValuationError(assets: seq<AssetRiskInput>): (e: Option<RangeError>)
    ensures e.None? <==> AllValuable(assets)
  {
    if assets == [] then None
    else
      var front := assets[..|assets| - 1];
      assert AllValuable(assets) <==> AllValuable(front) && Valuable(assets[|assets| - 1]);
      var before := FirstValuationError(front);
      if before.Some? then before else ValuationError(assets[|assets| - 1])
  }

  /** What the browser returns or throws. */
  function BrowserOutcome(assets: seq<AssetRiskInput>, account: AccountInput, s: SequencerInput, now: nat)
    : Result<RiskReport, RangeError>
  {
    if !Ascending(assets) then Err(AssetsNotSorted)
    else if FirstValuationError(assets).Some? then Err(FirstValuationError(assets).value)
    else Ok(Evaluate(assets, account, s, now))
  }

  method SelectRecoveryBps(curve: seq<ExitTier>, market: nat) returns (bps: nat)
    requires curve != []
    ensures bps == RecoveryBps(curve, market)
  {
    for i := 0 to |curve|
      invariant i < |curve| ==> RecoveryBps(curve[i..], market) == RecoveryBps(curve, market)
      invariant i == |curve| ==> RecoveryBps(curve, market) == curve[|curve| - 1].recoveryBps
    {
      if market <= curve[i].thresholdUsd18 {
        return curve[i].recoveryBps;
      }
      assert curve[i..][1..] == curve[i + 1..];
    }
    return curve[|curve| - 1].recoveryBps;
  }

  /** The least of a non-empty candidate list, as the reduction of the source. */
  method Least(candidates: seq<nat>) returns (m: nat)
    requires candidates != []
    ensures m in candidates
    ensures forall i :: 0 <= i < |candidates| ==> m <= candidates[i]
  {
    m := candidates[0];
    for i := 1 to |candidates|
      invariant m in candidates
      invariant forall j :: 0 <= j < i ==> m <= candidates[j]
    {
      m := if m < candidates[i] then m else candidates[i];
    }
  }

  method HaircutMarkOf(market: nat, hs: seq<nat>) returns (r: Result<nat, RangeError>)
    ensures r == if HaircutsInRange(hs) then Ok(Mark(market, hs)) else Err(NegativeInput)
  {
    var m := market;
    for k := 0 to |hs|
      invariant HaircutsInRange(hs[..k]) && m == Mark(market, hs[..k])
    {
      if BPS - hs[k] < 0 {
        return Err(NegativeInput);
      }
      assert hs[..k + 1][..k] == hs[..k];
      m := Share(m, BPS - hs[k]);
    }
    assert hs[..|hs|] == hs;
    return Ok(m);
  }

  method ValueAsset(a: AssetRiskInput) returns (r: Result<AssetValuation, RangeError>)
    ensures ValuationError(a).Some? ==> r == Err(ValuationError(a).value)
    ensures ValuationError(a).None? ==> r == Ok(Valuation(a))
  {
    var market := MarketValue(a);
    var m :- HaircutMarkOf(market, Haircuts(a.params));
    if a.exitCurve == [] {
      return Err(ExitCurveIsEmpty);
    }
    var recovery := SelectRecoveryBps(a.exitCurve, market);
    var stressed := Share(market, recovery);
    var candidates := [m, stressed];
    var redemptionFloor: Option<nat> := None;
    if a.redemptionSupported {
      var floor := Share(market, a.redemptionFloorBps);
      redemptionFloor := Some(floor);
      candidates := [m, stressed, floor];
    }
    var recognized := Least(candidates);
    assert recognized <= candidates[0] && recognized <= candidates[1];
    assert a.redemptionSupported ==> recognized <= candidates[2];
    return Ok(AssetValuation(a.assetId, market, m, stressed, redemptionFloor, recognized, 0));
  }

  method CheckSorted(assets: seq<AssetRiskInput>) returns (sorted: bool)
    ensures sorted == Ascending(assets)
  {
    var i := 1;
    while i < |assets|
      invariant 1 <= i
      invariant forall j :: 0 < j < i && j < |assets| ==> assets[j - 1].assetId < assets[j].assetId
    {
      if assets[i].assetId <= assets[i - 1].assetId {
        assert !(0 < i < |assets| ==> assets[i - 1].assetId < assets[i].assetId);
        return false;
      }
      i := i + 1;
    }
    assert forall j :: 0 < j < |assets| ==> assets[j - 1].assetId < assets[j].assetId;
    return true;
  }

  /** The first `k` positions are valued without an error. */
  predicate Valued(assets: seq<AssetRiskInput>, k: nat, perAsset: seq<AssetValuation>) {
    && k == |perAsset| <= |assets|
    && FirstValuationError(assets[..k]).None?
    && forall i :: 0 <= i < k ==> Valuable(assets[i]) && perAsset[i] == Valuation(assets[i])
  }

  lemma ValuedNext(assets: seq<AssetRiskInput>, k: nat, perAsset: seq<AssetValuation>)
    requires Valued(assets, k, perAsset) && k < |assets| && ValuationError(assets[k]).None?
    ensures Valued(assets, k + 1, perAsset + [Valuation(assets[k])])
  {
    assert assets[..k + 1][..k] == assets[..k];
  }

  /** The mapping over positions: gates into the shared set, then the valuation. */
  method ValueAll(assets: seq<AssetRiskInput>, initial: set<Gate>, now: nat)
    returns (r: Result<(seq<AssetValuation>, set<Gate>), RangeError>)
    ensures FirstValuationError(assets).Some? ==> r == Err(FirstValuationError(assets).value)
    ensures FirstValuationError(assets).None? ==>
      && r.Ok? && |r.value.0| == |assets|
      && (forall i :: 0 <= i < |assets| ==> r.value.0[i] == Valuation(assets[i]))
      && r.value.1 == initial + PortfolioGates(assets, now)
  {
    var gates, perAsset := initial, [];
    for k := 0 to |assets|
      invariant Valued(assets, k, perAsset)
      invariant gates == initial + PortfolioGates(assets[..k], now)
    {
      assert assets[..k + 1][..k] == assets[..k];
      gates := gates + AssetGates(assets[k], now);
      var v := ValueAsset(assets[k]);
      if v.Err? {
        FirstErrorStands(assets, k + 1);
        return Err(v.error);
      }
      ValuedNext(assets, k, perAsset);
      perAsset := perAsset + [v.value];
    }
    assert assets[..|assets|] == assets;
    return Ok((perAsset, gates));
  }

  lemma {:induction false} FirstErrorStands(assets: seq<AssetRiskInput>, k: nat)
    requires k <= |assets| && FirstValuationError(assets[..k]).Some?
    ensures FirstValuationError(assets) == FirstValuationError(assets[..k])
  {
    if k == |assets| {
      assert assets[..k] == assets;
    } else {
      var front := assets[..|assets| - 1];
      assert front[..k] == assets[..k];
      FirstErrorStands(front, k);
    }
  }

  /** The uncapped total, as the fold of the source. */
  method SumRecognized(assets: seq<AssetRiskInput>, perAsset: seq<AssetValuation>) returns (raw: nat)
    requires AllValuable(assets) && |perAsset| == |assets|
    requires forall i :: 0 <= i < |assets| ==> perAsset[i] == Valuation(assets[i])
    ensures raw == RawTotal(assets)
  {
    raw := 0;
    for k := 0 to |assets|
      invariant AllValuable(assets[..k]) && raw == RawTotal(assets[..k])
    {
      assert assets[..k + 1][..k] == assets[..k];
      raw := raw + perAsset[k].recognizedUsd18;
    }
    assert assets[..|assets|] == assets;
  }

  method CapPosition(a: AssetRiskInput, recognized: nat, raw: nat, l: Limits) returns (capped: nat, l': Limits)
    requires Valuable(a) && recognized == Recognized(a)
    ensures capped == Capped(a, raw) && l' == WithPosition(l, a, raw)
  {
    var cap := Share(raw, a.params.maxConcentrationBps);
    capped := if recognized < cap then recognized else cap;
    l' := Limits(l.total + capped,
                 l.borrow + Share(capped, a.params.initialLtvBps),
                 l.maintenance + Share(capped, a.params.maintenanceLtvBps),
                 l.liquidation + Share(capped, a.params.liquidationLtvBps));
  }

  /** The second loop: capped value written into each valuation, and the four running totals. */
  method CapAll(assets: seq<AssetRiskInput>, valuations: seq<AssetValuation>, raw: nat)
    returns (perAsset: seq<AssetValuation>, l: Limits)
    requires AllValuable(assets) && |valuations| == |assets|
    requires forall i :: 0 <= i < |assets| ==> valuations[i] == Valuation(assets[i])
    ensures perAsset == CappedValuations(assets, raw)
    ensures l == LimitsOf(assets, raw)
  {
    perAsset, l := valuations, Limits(0, 0, 0, 0);
    for k := 0 to |assets|
      invariant |perAsset| == |assets| && AllValuable(assets[..k])
      invariant forall i :: 0 <= i < |assets| ==>
        perAsset[i] == if i < k then CappedValuations(assets, raw)[i] else valuations[i]
      invariant l == LimitsOf(assets[..k], raw)
    {
      LimitsStep(assets, raw, k);
      var capped, next := CapPosition(assets[k], perAsset[k].recognizedUsd18, raw, l);
      perAsset := perAsset[k := perAsset[k].(cappedUsd18 := capped)];
      l := next;
    }
    assert assets[..|assets|] == assets;
    assert perAsset == CappedValuations(assets, raw);
  }

  method EvaluateBrowser(assets: seq<AssetRiskInput>, account: AccountInput, s: SequencerInput, now: nat)
    returns (r: Result<RiskReport, RangeError>)
    ensures r == BrowserOutcome(assets, account, s, now)
  {
    var sorted := CheckSorted(assets);
    if !sorted {
      return Err(AssetsNotSorted);
    }
    var gates: set<Gate> := {};
    if !s.up {
      gates := gates + {SequencerDownGate};
    } else if now - s.lastRestartAt < s.gracePeriod {
      gates := gates + {SequencerGraceGate};
    }
    assert gates == SequencerGates(s, now);
    var valued :- ValueAll(assets, gates, now);
    var raw := SumRecognized(assets, valued.0);
    var perAsset, l := CapAll(assets, valued.0, raw);
    var debt := Interest.Debt(account.scaledPrincipal, account.borrowIndex);
    var base := BaseStatus(debt, l.borrow, l.maintenance, l.liquidation);
    var gateFloor := if valued.1 != {} then NoNewRisk else Normal;
    var status := base.Max(gateFloor).Max(account.statusOverride);
    var available: nat := 0;
    if status == Normal {
      var used := debt + account.reservedUsd18;
      available := if l.borrow > used then l.borrow - used else 0;
    }
    return Ok(RiskReport(perAsset, l.total, l.borrow, l.maintenance, l.liquidation, debt, available,
                         Health(l.maintenance, debt), status, valued.1));
  }
}
