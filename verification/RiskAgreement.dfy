/**
 * The 128-bit pipeline against the unbounded one: when it answers, both answer the same, and when
 * it refuses with Overflow some unbounded amount really is at least 2^128.
 */
module RiskAgreement {
  import opened Wrappers
  import opened MoneyMath
  import opened RiskModel
  import opened RustPipeline
  import opened Decimal
  import opened U256
  import BrowserPipeline

  /** The one input on which the two clocks differ: a restart in the future with no grace period. */
  predicate RestartInFutureWithoutGrace(s: SequencerInput, now: nat) {
    s.up && s.lastRestartAt > now && s.gracePeriod == 0
  }

  lemma {:induction false} AcceptedPassIsOrdered(assets: seq<AssetRiskInput>, k: nat)
    requires k <= |assets| && PassRefusal(assets, k).None?
    ensures Ascending(assets[..k]) && AllValuable(assets[..k])
  {
    if k > 0 {
      AcceptedPassIsOrdered(assets, k - 1);
      OneMoreInOrder(assets, k);
    }
  }

  lemma OneMoreInOrder(assets: seq<AssetRiskInput>, k: nat)
    requires 0 < k <= |assets| && Ascending(assets[..k - 1]) && AllValuable(assets[..k - 1])
    requires Valuable(assets[k - 1]) && (k > 1 ==> assets[k - 2].assetId < assets[k - 1].assetId)
    ensures Ascending(assets[..k]) && AllValuable(assets[..k])
  {
    assert forall i :: 0 <= i < k - 1 ==> assets[..k][i] == assets[..k - 1][i];
  }

  lemma {:induction false} NoSequencerGate(assets: seq<AssetRiskInput>, now: nat)
    ensures SequencerGraceGate !in PortfolioGates(assets, now)
    ensures SequencerDownGate !in PortfolioGates(assets, now)
  {
    if assets != [] {
      NoSequencerGate(assets[..|assets| - 1], now);
    }
  }

  lemma GatesDifferInOneCorner(s: SequencerInput, now: nat)
    ensures SaturatingSequencerGates(s, now) == SequencerGates(s, now) <==> !RestartInFutureWithoutGrace(s, now)
    ensures RestartInFutureWithoutGrace(s, now) ==>
      SaturatingSequencerGates(s, now) == {} && SequencerGates(s, now) == {SequencerGraceGate}
  {
    if RestartInFutureWithoutGrace(s, now) {
      assert SequencerGraceGate in SequencerGates(s, now);
    }
  }

  /**
   * Whenever the 128-bit evaluation returns a report, the browser accepts the same inputs, and the
   * two reports are equal in every field exactly when the clocks are not in their one corner.
   */
  lemma ImplementationsAgree(assets: seq<AssetRiskInput>, account: AccountInput, s: SequencerInput, now: nat)
    requires Outcome(assets, account, SaturatingSequencerGates(s, now), now).Ok?
    ensures
      var rust := Outcome(assets, account, SaturatingSequencerGates(s, now), now);
      var browser := BrowserPipeline.BrowserOutcome(assets, account, s, now);
      browser.Ok? && (rust.value == browser.value <==> !RestartInFutureWithoutGrace(s, now))
  {
    OutcomeByStage(assets, account, SaturatingSequencerGates(s, now), now);
    AcceptedPassIsOrdered(assets, |assets|);
    assert assets[..|assets|] == assets;
    GatesDifferInOneCorner(s, now);
    if RestartInFutureWithoutGrace(s, now) {
      NoSequencerGate(assets, now);
      assert SequencerGraceGate in Evaluate(assets, account, s, now).gates;
    }
  }

  // ------------------------------------------------------------------------- overflow is honest

  predicate PositionTooWide(a: AssetRiskInput) {
    || MarketValue(a) >= TWO128
    || (a.exitCurve != [] && StressedExit(a) >= TWO128)
    || (RedemptionFloor(a).Some? && RedemptionFloor(a).value >= TWO128)
  }

  /** Some amount of the unbounded evaluation needs more than 128 bits. */
  predicate SomeAmountTooWide(assets: seq<AssetRiskInput>, account: AccountInput, gates: set<Gate>, now: nat)
    requires AllValuable(assets)
  {
    var raw := RawTotal(assets);
    var report := Report(assets, account, gates, now);
    || (exists i :: 0 <= i < |assets| && PositionTooWide(assets[i]))
    || raw >= TWO128
    || (exists i :: 0 <= i < |assets| && Cap(assets[i], raw) >= TWO128)
    || report.totalRecognizedUsd18 >= TWO128
    || report.borrowLimitUsd18 >= TWO128
    || report.maintenanceLimitUsd18 >= TWO128
    || report.liquidationLimitUsd18 >= TWO128
    || report.debtUsd18 >= TWO128
    || (report.status == Normal && report.debtUsd18 + account.reservedUsd18 >= TWO128)
  }

  /** The recognised values of the first k positions, all valuable, add up to more than 128 bits. */
  predicate TotalTooWide(assets: seq<AssetRiskInput>, k: nat)
    requires k <= |assets|
  {
    AllValuable(assets[..k]) && RawTotal(assets[..k]) >= TWO128
  }

  predicate SomePrefixTooWide(assets: seq<AssetRiskInput>, n: nat)
    requires n <= |assets|
  {
    || (exists i :: 0 <= i < n && PositionTooWide(assets[i]))
    || (exists k :: 0 <= k <= n && TotalTooWide(assets, k))
  }

  lemma {:induction false} PassOverflowMeansTooWide(assets: seq<AssetRiskInput>, n: nat)
    requires n <= |assets| && PassRefusal(assets, n) == Some(Overflow)
    ensures SomePrefixTooWide(assets, n)
  {
    if PassRefusal(assets, n - 1).Some? {
      PassOverflowMeansTooWide(assets, n - 1);
    } else if ValuationRefusal(assets[n - 1]).Some? {
      assert PositionTooWide(assets[n - 1]);
    } else {
      assert assets[..n][..n - 1] == assets[..n - 1];
      assert TotalTooWide(assets, n);
    }
  }

  /**
   * Overflow is honest on every input there is, unordered lists, unfit units and unvaluable positions
   * included: some position's own amounts, or the running total, or on valuable positions an amount of
   * the unbounded report, need more than 128 bits.
   */
  lemma OverflowMeansTooWide(assets: seq<AssetRiskInput>, account: AccountInput, gates: set<Gate>, now: nat)
    requires Outcome(assets, account, gates, now) == Err(Overflow)
    ensures SomePrefixTooWide(assets, |assets|)
            || (AllValuable(assets) && SomeAmountTooWide(assets, account, gates, now))
    ensures AllValuable(assets) ==> SomeAmountTooWide(assets, account, gates, now)
  {
    OutcomeByStage(assets, account, gates, now);
    if PassRefusal(assets, |assets|).Some? {
      PassOverflowMeansTooWide(assets, |assets|);
      if AllValuable(assets) {
        PrefixWithinWhole(assets);
      }
    } else {
      var raw := RawTotal(assets);
      assert CapsFit(assets, raw) <==> !exists i :: 0 <= i < |assets| && Cap(assets[i], raw) >= TWO128;
    }
  }

  lemma PrefixWithinWhole(assets: seq<AssetRiskInput>)
    requires AllValuable(assets) && SomePrefixTooWide(assets, |assets|)
    ensures (exists i :: 0 <= i < |assets| && PositionTooWide(assets[i])) || RawTotal(assets) >= TWO128
  {
    if k: nat :| k <= |assets| && TotalTooWide(assets, k) {
      RawTotalMono(assets, k);
    }
  }

  /** The largest number of decimals whose unit fits 128 bits. */
  lemma DecimalsLimit(d: nat)
    ensures Pow10(d) < TWO128 <==> d <= 38
  {
    TenTo38(38);
    if d <= 38 {
      Pow10Mono(d, 38);
    } else {
      TenTimes(38);
      Pow10Mono(39, d);
    }
  }

  lemma TenTimes(k: nat)
    ensures Pow10(k + 1) == 10 * Pow10(k)
  {
  }

  lemma TenTo38(n: nat)
    requires n == 38
    ensures Pow10(n) == 100_000_000_000_000_000_000_000_000_000_000_000_000
  {
    TenTo19(19);
    Pow10Add(19, 19);
  }

  lemma TenTo19(n: nat)
    requires n == 19
    ensures Pow10(n) == 10_000_000_000_000_000_000
  {
    assert Pow10(5) == 100_000;
    Pow10Add(5, 5);
    Pow10Add(10, 5);
    assert Pow10(4) == 10_000;
    Pow10Add(15, 4);
  }

  lemma {:induction false} RawTotalMono(assets: seq<AssetRiskInput>, k: nat)
    requires k <= |assets| && AllValuable(assets)
    ensures AllValuable(assets[..k]) && RawTotal(assets[..k]) <= RawTotal(assets)
  {
    if k == |assets| {
      assert assets[..k] == assets;
    } else {
      RawTotalMono(assets[..|assets| - 1], k);
      assert assets[..|assets| - 1][..k] == assets[..k];
    }
  }

  lemma {:induction false} OnlyWidthRefuses(assets: seq<AssetRiskInput>, n: nat)
    requires n <= |assets| && AllValuable(assets) && Ascending(assets)
    requires forall i :: 0 <= i < |assets| ==> assets[i].decimals <= 38
    ensures PassRefusal(assets, n).Some? ==> PassRefusal(assets, n).value == Overflow
  {
    if n > 0 {
      OnlyWidthRefuses(assets, n - 1);
      DecimalsLimit(assets[n - 1].decimals);
      assert Valuable(assets[n - 1]);
    }
  }

  lemma {:induction false} AcceptedPassFits(assets: seq<AssetRiskInput>, n: nat)
    requires n <= |assets| && PassRefusal(assets, n).None?
    ensures !SomePrefixTooWide(assets, n)
  {
    if n > 0 {
      AcceptedPassFits(assets, n - 1);
      assert assets[..n][..n - 1] == assets[..n - 1];
      assert !PositionTooWide(assets[n - 1]) && !TotalTooWide(assets, n);
    } else {
      assert assets[..0] == [] && !TotalTooWide(assets, 0);
    }
  }

  /**
   * On every input the browser accepts, with units that fit, the 128-bit evaluation either answers
   * or reports Overflow, and it reports Overflow exactly when some unbounded amount is too wide.
   */
  lemma OverflowExactlyWhenTooWide(assets: seq<AssetRiskInput>, account: AccountInput, gates: set<Gate>, now: nat)
    requires Ascending(assets) && AllValuable(assets)
    requires forall i :: 0 <= i < |assets| ==> assets[i].decimals <= 38
    ensures Outcome(assets, account, gates, now) ==
            if SomeAmountTooWide(assets, account, gates, now) then Err(Overflow)
            else Ok(Report(assets, account, gates, now))
  {
    OnlyWidthRefuses(assets, |assets|);
    OutcomeByStage(assets, account, gates, now);
    if PassRefusal(assets, |assets|).Some? {
      OverflowMeansTooWide(assets, account, gates, now);
    } else {
      AcceptedPassFits(assets, |assets|);
      assert assets[..|assets|] == assets && !TotalTooWide(assets, |assets|);
      var raw := RawTotal(assets);
      assert CapsFit(assets, raw) <==> !exists i :: 0 <= i < |assets| && Cap(assets[i], raw) >= TWO128;
    }
  }
}
