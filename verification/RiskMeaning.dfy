/**
 * What a risk report says, in the terms of its own fields and of the inputs: sections 4 and 5 of
 * spec/accounting.md read off the numbers, without the functions that compute them.
 */
module RiskMeaning {
  import opened Wrappers
  import opened Arithmetic
  import opened MoneyMath
  import opened Decimal
  import opened RiskModel
  import opened RiskProperties
  import opened RiskOrder
  import RateMeaning

  // ---------------------------------------------------------------------------------- one position

  lemma ShareIsFloor(v: nat, bps: nat)
    ensures IsFloor(Share(v, bps), v * bps, 10_000)
  {
    FloorBounds(v * bps, 10_000);
  }

  /** The k-th tier is the first to reach the value, or the last when none does. */
  predicate TierTaken(curve: seq<ExitTier>, market: nat, k: nat) {
    && k < |curve|
    && (forall i :: 0 <= i < k ==> curve[i].thresholdUsd18 < market)
    && (k == |curve| - 1 || market <= curve[k].thresholdUsd18)
  }

  lemma {:induction false} RecoveryIsOfTierTaken(curve: seq<ExitTier>, market: nat) returns (k: nat)
    requires curve != []
    ensures TierTaken(curve, market, k) && RecoveryBps(curve, market) == curve[k].recoveryBps
  {
    if market <= curve[0].thresholdUsd18 || |curve| == 1 {
      k := 0;
    } else {
      var j := RecoveryIsOfTierTaken(curve[1..], market);
      k := j + 1;
      assert forall i :: 0 < i < |curve| ==> curve[i] == curve[1..][i - 1];
    }
  }

  lemma ProductOfFive(a: nat, b: nat, c: nat, d: nat, e: nat)
    requires a <= BPS && b <= BPS && c <= BPS && d <= BPS && e <= BPS
    ensures Product([a, b, c, d, e]) == (BPS - a) * (BPS - b) * (BPS - c) * (BPS - d) * (BPS - e)
  {
    ProductSnoc([], a);
    ProductSnoc([a], b);
    ProductSnoc([a, b], c);
    ProductSnoc([a, b, c], d);
    ProductSnoc([a, b, c, d], e);
    assert [] + [a] == [a] && [a] + [b] == [a, b] && [a, b] + [c] == [a, b, c];
    assert [a, b, c] + [d] == [a, b, c, d] && [a, b, c, d] + [e] == [a, b, c, d, e];
  }

  /** The mark is the market value less the five haircuts, rounded down by less than five units. */
  lemma FiveHaircuts(a: AssetRiskInput)
    requires Valuable(a)
    ensures
      var v, p := Valuation(a), a.params;
      var kept := (10_000 - p.haircutMarketBps) * (10_000 - p.haircutLiquidityBps) * (10_000 - p.haircutIssuerBps)
                  * (10_000 - p.haircutSettlementBps) * (10_000 - p.haircutCrosschainBps);
      v.haircutMarkUsd18 * 100_000_000_000_000_000_000 <= v.marketValueUsd18 * kept
      < (v.haircutMarkUsd18 + 5) * 100_000_000_000_000_000_000
  {
    var p, hs := a.params, Haircuts(a.params);
    ChainIsWithinItsLength(MarketValue(a), hs);
    assert forall i :: 0 <= i < 5 ==> hs[i] <= BPS;
    ProductOfFive(hs[0], hs[1], hs[2], hs[3], hs[4]);
    assert hs == [hs[0], hs[1], hs[2], hs[3], hs[4]];
    FifthPower(5);
  }

  lemma FifthPower(n: nat)
    requires n == 5
    ensures BpsPower(n) == 100_000_000_000_000_000_000
  {
    assert BpsPower(2) == 100_000_000;
    assert BpsPower(4) == 10_000_000_000_000_000;
  }

  /** The values of one position: what each is rounded down from, and which of them is recognised. */
  lemma ValuationMeans(a: AssetRiskInput) returns (k: nat)
    requires Valuable(a)
    ensures
      var v := Valuation(a);
      && v.assetId == a.assetId
      && IsFloor(v.marketValueUsd18, a.quantity * a.priceUsd18, Pow10(a.decimals))
      && TierTaken(a.exitCurve, v.marketValueUsd18, k)
      && IsFloor(v.stressedExitUsd18, v.marketValueUsd18 * a.exitCurve[k].recoveryBps, 10_000)
      && (v.redemptionFloorUsd18.Some? <==> a.redemptionSupported)
      && (a.redemptionSupported ==>
            IsFloor(v.redemptionFloorUsd18.value, v.marketValueUsd18 * a.redemptionFloorBps, 10_000))
  {
    FloorBounds(a.quantity * a.priceUsd18, Pow10(a.decimals));
    k := RecoveryIsOfTierTaken(a.exitCurve, MarketValue(a));
    ShareIsFloor(MarketValue(a), a.exitCurve[k].recoveryBps);
    ShareIsFloor(MarketValue(a), a.redemptionFloorBps);
    MulDist(MarketValue(a), 1, Pow10(a.decimals));
  }

  /** What is recognised is the least of the mark, the stressed exit and the redemption floor, if there is one. */
  lemma RecognizedIsLeast(a: AssetRiskInput)
    requires Valuable(a)
    ensures
      var v := Valuation(a);
      && v.recognizedUsd18 <= v.haircutMarkUsd18 && v.recognizedUsd18 <= v.stressedExitUsd18
      && (v.redemptionFloorUsd18.Some? ==> v.recognizedUsd18 <= v.redemptionFloorUsd18.value)
      && (v.recognizedUsd18 == v.haircutMarkUsd18 || v.recognizedUsd18 == v.stressedExitUsd18
          || Some(v.recognizedUsd18) == v.redemptionFloorUsd18)
  {
  }

  // ---------------------------------------------------------------------------------- the portfolio

  function SumRecognized(vs: seq<AssetValuation>): nat {
    if vs == [] then 0 else SumRecognized(vs[..|vs| - 1]) + vs[|vs| - 1].recognizedUsd18
  }

  function SumCapped(vs: seq<AssetValuation>): nat {
    if vs == [] then 0 else SumCapped(vs[..|vs| - 1]) + vs[|vs| - 1].cappedUsd18
  }

  /** Each capped value weighted in basis points and rounded down, added up. */
  function SumWeighted(vs: seq<AssetValuation>, weights: seq<nat>): nat
    requires |vs| == |weights|
  {
    if vs == [] then 0
    else
      var n := |vs| - 1;
      FloorBounds(vs[n].cappedUsd18 * weights[n], 10_000);
      SumWeighted(vs[..n], weights[..n]) + vs[n].cappedUsd18 * weights[n] / 10_000
  }

  lemma {:induction false} RecognizedAddsUp(assets: seq<AssetRiskInput>, raw: nat)
    requires AllValuable(assets)
    ensures SumRecognized(CappedValuations(assets, raw)) == RawTotal(assets)
  {
    if assets != [] {
      var n := |assets| - 1;
      RecognizedAddsUp(assets[..n], raw);
      assert CappedValuations(assets, raw)[..n] == CappedValuations(assets[..n], raw);
    }
  }

  lemma {:induction false} CappedAddsUp(assets: seq<AssetRiskInput>, raw: nat)
    requires AllValuable(assets)
    ensures SumCapped(CappedValuations(assets, raw)) == BandTotal(assets, raw, Whole)
  {
    if assets != [] {
      var n := |assets| - 1;
      CappedAddsUp(assets[..n], raw);
      assert CappedValuations(assets, raw)[..n] == CappedValuations(assets[..n], raw);
    }
  }

  lemma {:induction false} WeightedAddsUp(assets: seq<AssetRiskInput>, raw: nat, band: Band, weights: seq<nat>)
    requires AllValuable(assets) && band != Whole && |weights| == |assets|
    requires forall i :: 0 <= i < |assets| ==> weights[i] == BandBps(assets[i].params, band)
    ensures SumWeighted(CappedValuations(assets, raw), weights) == BandTotal(assets, raw, band)
  {
    if assets != [] {
      var n := |assets| - 1;
      WeightedAddsUp(assets[..n], raw, band, weights[..n]);
      assert CappedValuations(assets, raw)[..n] == CappedValuations(assets[..n], raw);
    }
  }

  /** The caps of a report: each position at what it is recognised for, or at its share of what all are. */
  lemma CapsMean(assets: seq<AssetRiskInput>, account: AccountInput, gates: set<Gate>, now: nat, i: nat)
    requires AllValuable(assets) && i < |assets|
    ensures
      var r := Report(assets, account, gates, now);
      && |r.perAsset| == |assets|
      && r.perAsset[i] == Valuation(assets[i]).(cappedUsd18 := r.perAsset[i].cappedUsd18)
      && var (v, weight) := (r.perAsset[i], assets[i].params.maxConcentrationBps);
         && v.cappedUsd18 <= v.recognizedUsd18
         && v.cappedUsd18 * 10_000 <= SumRecognized(r.perAsset) * weight
         && (v.cappedUsd18 == v.recognizedUsd18
             || IsFloor(v.cappedUsd18, SumRecognized(r.perAsset) * weight, 10_000))
  {
    var raw := RawTotal(assets);
    RecognizedAddsUp(assets, raw);
    ShareIsFloor(raw, assets[i].params.maxConcentrationBps);
  }

  /** The totals of a report: the capped values, whole and weighted by each position's own three ratios. */
  lemma TotalsMean(assets: seq<AssetRiskInput>, account: AccountInput, gates: set<Gate>, now: nat,
                   initial: seq<nat>, maintenance: seq<nat>, liquidation: seq<nat>)
    requires AllValuable(assets) && |initial| == |maintenance| == |liquidation| == |assets|
    requires forall i :: 0 <= i < |assets| ==> initial[i] == assets[i].params.initialLtvBps
    requires forall i :: 0 <= i < |assets| ==> maintenance[i] == assets[i].params.maintenanceLtvBps
    requires forall i :: 0 <= i < |assets| ==> liquidation[i] == assets[i].params.liquidationLtvBps
    ensures
      var r := Report(assets, account, gates, now);
      && |r.perAsset| == |assets|
      && r.totalRecognizedUsd18 == SumCapped(r.perAsset)
      && r.borrowLimitUsd18 == SumWeighted(r.perAsset, initial)
      && r.maintenanceLimitUsd18 == SumWeighted(r.perAsset, maintenance)
      && r.liquidationLimitUsd18 == SumWeighted(r.perAsset, liquidation)
  {
    var raw := RawTotal(assets);
    CappedAddsUp(assets, raw);
    WeightedAddsUp(assets, raw, Initial, initial);
    WeightedAddsUp(assets, raw, Maintenance, maintenance);
    WeightedAddsUp(assets, raw, Liquidation, liquidation);
  }

  // ------------------------------------------------------------------------------------- the gates

  /** A position's gate is up exactly when it holds anything and has the gate's reason. */
  lemma GatesMean(a: AssetRiskInput, now: nat)
    ensures OracleStaleGate in AssetGates(a, now)
            <==> a.quantity != 0 && now > a.priceUpdatedAt + a.params.maxOracleAge
    ensures OracleInvalidGate in AssetGates(a, now) <==> a.quantity != 0 && a.priceUsd18 == 0
    ensures PassportStaleGate in AssetGates(a, now)
            <==> a.quantity != 0 && now > a.passportCommittedAt + a.params.maxPassportAge
    ensures ClaimConflictGate in AssetGates(a, now) <==> a.quantity != 0 && a.passportStatus == Conflicted
    ensures AssetSuspendedGate in AssetGates(a, now)
            <==> a.quantity != 0 && (a.passportStatus == PassportSuspended || a.assetStatus == AssetSuspended)
    ensures SequencerDownGate !in AssetGates(a, now) && SequencerGraceGate !in AssetGates(a, now)
  {
  }

  /** A report's gates are the sequencer's and every position's. */
  lemma ReportGatesMean(assets: seq<AssetRiskInput>, account: AccountInput, s: SequencerInput, now: nat, g: Gate)
    requires AllValuable(assets)
    ensures
      var r := Evaluate(assets, account, s, now);
      && (SequencerDownGate in r.gates <==> !s.up)
      && (SequencerGraceGate in r.gates <==> s.up && now < s.lastRestartAt + s.gracePeriod)
      && (g != SequencerDownGate && g != SequencerGraceGate ==>
            (g in r.gates <==> exists a :: a in assets && g in AssetGates(a, now)))
  {
    GateOfSome(assets, now, g);
    GateOfSome(assets, now, SequencerDownGate);
    GateOfSome(assets, now, SequencerGraceGate);
    forall a: AssetRiskInput
      ensures SequencerDownGate !in AssetGates(a, now) && SequencerGraceGate !in AssetGates(a, now)
    {
      GatesMean(a, now);
    }
  }

  // ------------------------------------------------------------------------- debt, status, capacity

  /** Past MARGIN_CALL, where only a guardian puts an account. */
  predicate Closing(s: AccountStatus) {
    s == Liquidating || s == Settled || s == BadDebt
  }

  /** At MARGIN_CALL or further along. */
  predicate CalledOrWorse(s: AccountStatus) {
    s == MarginCall || Closing(s)
  }

  /** At REDUCE_ONLY or further along. */
  predicate ReducingOrWorse(s: AccountStatus) {
    s == ReduceOnly || CalledOrWorse(s)
  }

  /**
   * Which limit gives which status, with the gates and the guardian's override: every status is reached
   * exactly when the debt, the health, a gate or the override asks for it.
   */
  lemma StatusMeans(assets: seq<AssetRiskInput>, account: AccountInput, gates: set<Gate>, now: nat)
    requires AllValuable(assets)
    ensures
      var r := Report(assets, account, gates, now);
      && (r.status == Normal
          <==> r.debtUsd18 <= r.borrowLimitUsd18 && r.gates == {} && account.statusOverride == Normal)
      && (ReducingOrWorse(r.status)
          <==> (r.debtUsd18 > r.borrowLimitUsd18 && r.healthFactorWad < 1_000_000_000_000_000_000)
               || ReducingOrWorse(account.statusOverride))
      && (CalledOrWorse(r.status)
          <==> (r.debtUsd18 > r.borrowLimitUsd18 && r.healthFactorWad < 1_000_000_000_000_000_000
                && r.debtUsd18 > r.liquidationLimitUsd18)
               || CalledOrWorse(account.statusOverride))
      && (Closing(r.status) <==> Closing(account.statusOverride))
      && (Closing(r.status) ==> r.status == account.statusOverride)
  {
    HealthBelowOneMeansBreached(LimitsOf(assets, RawTotal(assets)).maintenance, DebtOf(account));
  }

  /** Debt is rounded up, health down, and the capacity is what the borrow limit leaves while NORMAL. */
  lemma AccountMeans(assets: seq<AssetRiskInput>, account: AccountInput, gates: set<Gate>, now: nat)
    requires AllValuable(assets)
    ensures
      var r := Report(assets, account, gates, now);
      && account.scaledPrincipal * account.borrowIndex <= r.debtUsd18 * 1_000_000_000_000_000_000
         < account.scaledPrincipal * account.borrowIndex + 1_000_000_000_000_000_000
      && (r.debtUsd18 == 0 ==>
            r.healthFactorWad
            == 0xFFFF_FFFF_FFFF_FFFF_FFFF_FFFF_FFFF_FFFF_FFFF_FFFF_FFFF_FFFF_FFFF_FFFF_FFFF_FFFF)
      && (r.debtUsd18 != 0 ==>
            IsFloor(r.healthFactorWad, r.maintenanceLimitUsd18 * 1_000_000_000_000_000_000, r.debtUsd18))
      && r.availableBorrowUsd18
         == (if r.status == Normal && r.debtUsd18 + account.reservedUsd18 < r.borrowLimitUsd18
             then r.borrowLimitUsd18 - r.debtUsd18 - account.reservedUsd18 else 0)
  {
    var r := Report(assets, account, gates, now);
    RateMeaning.DebtMeans(account.scaledPrincipal, account.borrowIndex);
    if r.debtUsd18 != 0 {
      FloorBounds(r.maintenanceLimitUsd18 * 1_000_000_000_000_000_000, r.debtUsd18);
      MulDist(r.healthFactorWad, 1, r.debtUsd18);
    }
  }
}
