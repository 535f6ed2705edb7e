/** Which inputs the two risk engines refuse, and that each refusal has the reason it names. */
module RiskRefusals {
  import opened Wrappers
  import opened MoneyMath
  import opened U256
  import opened RiskModel
  import opened RustPipeline
  import opened RiskAgreement
  import opened BrowserPipeline

  // ----------------------------------------------------------------------------- the 128-bit engine

  /** The first haircut out of range, in the order of the five fields. */
  predicate FirstHaircutAbove(p: RiskParameters, value: nat) {
    && value > 10_000
    && (if p.haircutMarketBps > 10_000 then value == p.haircutMarketBps
        else if p.haircutLiquidityBps > 10_000 then value == p.haircutLiquidityBps
        else if p.haircutIssuerBps > 10_000 then value == p.haircutIssuerBps
        else if p.haircutSettlementBps > 10_000 then value == p.haircutSettlementBps
        else value == p.haircutCrosschainBps)
  }

  lemma {:induction false} FirstBadStands(hs: seq<nat>) returns (k: nat)
    requires FirstBadHaircut(hs).Some?
    ensures k < |hs| && FirstBadHaircut(hs) == Some(hs[k]) && hs[k] > 10_000
    ensures forall j :: 0 <= j < k ==> hs[j] <= 10_000
  {
    if hs[0] > BPS {
      k := 0;
    } else {
      var j := FirstBadStands(hs[1..]);
      k := j + 1;
      assert forall i :: 0 < i < k ==> hs[i] == hs[1..][i - 1];
    }
  }

  lemma FirstBadIsFirst(p: RiskParameters)
    ensures FirstBadHaircut(Haircuts(p)).Some? ==> FirstHaircutAbove(p, FirstBadHaircut(Haircuts(p)).value)
  {
    var hs := Haircuts(p);
    if FirstBadHaircut(hs).Some? {
      var k := FirstBadStands(hs);
      assert forall j :: 0 <= j < k ==> hs[j] <= 10_000;
      assert k == 0 || hs[0] <= 10_000;
      assert k <= 1 || hs[1] <= 10_000;
      assert k <= 2 || hs[2] <= 10_000;
      assert k <= 3 || hs[3] <= 10_000;
    }
  }

  /** The reason a position is refused for, the ones checked before it being absent. */
  predicate PositionRefusedFor(a: AssetRiskInput, e: RiskError) {
    match e
    case DecimalsTooLarge(d) => d == a.decimals && d > 38
    case BpsOutOfRange(v) => a.decimals <= 38 && MarketValue(a) < TWO128 && FirstHaircutAbove(a.params, v)
    case ExitCurveEmpty =>
      a.decimals <= 38 && MarketValue(a) < TWO128 && HaircutsInRange(Haircuts(a.params)) && a.exitCurve == []
    case Overflow => a.decimals <= 38 && PositionTooWide(a)
    case _ => false
  }

  lemma ValuationRefusalMeans(a: AssetRiskInput)
    ensures ValuationRefusal(a).Some? ==> PositionRefusedFor(a, ValuationRefusal(a).value)
  {
    DecimalsLimit(a.decimals);
    FirstBadIsFirst(a.params);
  }

  /** The reason the pass is refused for at position `i`, all positions before it being accepted. */
  predicate RefusedAt(assets: seq<AssetRiskInput>, i: nat, e: RiskError)
    requires i < |assets|
  {
    match e
    case AssetsNotOrdered(index) => index == i && 0 < i && assets[i].assetId <= assets[i - 1].assetId
    case Overflow => PositionTooWide(assets[i]) || TotalTooWide(assets, i + 1)
    case _ => PositionRefusedFor(assets[i], e)
  }

  lemma RefusedByThis(assets: seq<AssetRiskInput>, i: nat)
    requires i < |assets| && PassRefusal(assets, i).None? && PassRefusal(assets, i + 1).Some?
    ensures RefusedAt(assets, i, PassRefusal(assets, i + 1).value)
  {
    if ValuationRefusal(assets[i]).Some? {
      ValuationRefusalMeans(assets[i]);
    } else {
      FullTotal(assets, i);
    }
  }

  lemma FullTotal(assets: seq<AssetRiskInput>, i: nat)
    requires i < |assets| && AllValuable(assets[..i]) && Valuable(assets[i])
    ensures TotalTooWide(assets, i + 1) <==> RawTotal(assets[..i]) + Recognized(assets[i]) >= TWO128
  {
    assert assets[..i + 1][..i] == assets[..i];
  }

  /** The refusal of a pass is that of the first position to give one. */
  lemma {:induction false} PassRefusalMeans(assets: seq<AssetRiskInput>, n: nat) returns (i: nat)
    requires n <= |assets| && PassRefusal(assets, n).Some?
    ensures i < n && PassRefusal(assets, i).None? && RefusedAt(assets, i, PassRefusal(assets, n).value)
    decreases n
  {
    if PassRefusal(assets, n - 1).Some? {
      i := PassRefusalMeans(assets, n - 1);
      RefusalKept(assets, n - 1);
    } else {
      i := n - 1;
      RefusedByThis(assets, i);
    }
  }

  lemma {:induction false} AcceptedUnitsFit(assets: seq<AssetRiskInput>, n: nat)
    requires n <= |assets| && PassRefusal(assets, n).None?
    ensures forall i :: 0 <= i < n ==> assets[i].decimals <= 38
    decreases n
  {
    if n > 0 {
      AcceptedUnitsFit(assets, n - 1);
      DecimalsLimit(assets[n - 1].decimals);
    }
  }

  /** The 128-bit engine answers exactly on ordered, valuable portfolios with units and amounts that fit. */
  lemma AnswersExactlyWhen(assets: seq<AssetRiskInput>, account: AccountInput, gates: set<Gate>, now: nat)
    ensures Outcome(assets, account, gates, now).Ok?
            <==> Ascending(assets) && AllValuable(assets)
                 && (forall i :: 0 <= i < |assets| ==> assets[i].decimals <= 38)
                 && !SomeAmountTooWide(assets, account, gates, now)
  {
    if Outcome(assets, account, gates, now).Ok? {
      OutcomeByStage(assets, account, gates, now);
      AcceptedPassIsOrdered(assets, |assets|);
      AcceptedUnitsFit(assets, |assets|);
      assert assets[..|assets|] == assets;
    }
    if Ascending(assets) && AllValuable(assets) && forall i :: 0 <= i < |assets| ==> assets[i].decimals <= 38 {
      OverflowExactlyWhenTooWide(assets, account, gates, now);
    }
  }

  // ------------------------------------------------------------------------------------ the browser

  lemma {:induction false} FirstValuationErrorMeans(assets: seq<AssetRiskInput>) returns (i: nat)
    requires FirstValuationError(assets).Some?
    ensures i < |assets| && AllValuable(assets[..i])
    ensures FirstValuationError(assets).value
            == if HaircutsInRange(Haircuts(assets[i].params)) then ExitCurveIsEmpty else NegativeInput
    ensures HaircutsInRange(Haircuts(assets[i].params)) ==> assets[i].exitCurve == []
    decreases |assets|
  {
    var n := |assets| - 1;
    if FirstValuationError(assets[..n]).Some? {
      i := FirstValuationErrorMeans(assets[..n]);
      assert assets[..n][..i] == assets[..i];
    } else {
      i := n;
    }
  }

  /** The unbounded engine answers exactly on ordered, valuable portfolios. */
  lemma BrowserAnswersExactlyWhen(assets: seq<AssetRiskInput>, account: AccountInput, s: SequencerInput, now: nat)
    ensures BrowserOutcome(assets, account, s, now).Ok? <==> Ascending(assets) && AllValuable(assets)
    ensures BrowserOutcome(assets, account, s, now) == Err(AssetsNotSorted) <==> !Ascending(assets)
  {
    if FirstValuationError(assets).Some? {
      var i := FirstValuationErrorMeans(assets);
    }
  }

  /** A position is valuable exactly when it has an exit curve and none of its five haircuts exceeds the whole. */
  lemma ValuableMeans(a: AssetRiskInput)
    ensures Valuable(a)
            <==> a.exitCurve != [] && a.params.haircutMarketBps <= 10_000 && a.params.haircutLiquidityBps <= 10_000
                 && a.params.haircutIssuerBps <= 10_000 && a.params.haircutSettlementBps <= 10_000
                 && a.params.haircutCrosschainBps <= 10_000
  {
    var hs := Haircuts(a.params);
    assert HaircutsInRange(hs) <==> hs[0] <= BPS && hs[1] <= BPS && hs[2] <= BPS && hs[3] <= BPS && hs[4] <= BPS;
  }
}
