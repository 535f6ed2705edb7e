/** What the pipeline guarantees: rounding of the haircut chain, and which changes can only restrict. */
module RiskProperties {
  import opened Arithmetic
  import opened Sequences
  import opened MoneyMath
  import opened RiskModel
  import Interest

  // -------------------------------------------------------------------------- the haircut chain

  /** The exact product of the complements, BPS-scaled once per haircut. */
  function Product(hs: seq<nat>): nat
    requires HaircutsInRange(hs)
  {
    if hs == [] then 1
    else
      MulLe(0, BPS - hs[|hs| - 1], Product(hs[..|hs| - 1]));
      Product(hs[..|hs| - 1]) * (BPS - hs[|hs| - 1])
  }

  function BpsPower(n: nat): (p: nat)
    ensures 0 < p
  {
    if n == 0 then 1 else BpsPower(n - 1) * BPS
  }

  /** One floored step: the error grows by less than one unit. */
  lemma StepError(mark: nat, complement: nat, exact: nat, scale: nat, n: nat)
    requires complement <= BPS && 0 < scale
    requires mark * scale <= exact <= (mark + n) * scale
    ensures Share(mark, complement) * (scale * BPS) <= exact * complement
    ensures exact * complement < (Share(mark, complement) + n + 1) * (scale * BPS)
  {
    FloorBounds(mark * complement, BPS);
    StepNotAbove(mark, complement, exact, scale, Share(mark, complement));
    StepNotFarBelow(mark, complement, exact, scale, n, Share(mark, complement));
  }

  lemma StepNotAbove(mark: nat, complement: nat, exact: nat, scale: nat, next: nat)
    requires mark * scale <= exact && next * BPS <= mark * complement
    ensures next * (scale * BPS) <= exact * complement
  {
    MulLe(next * BPS, mark * complement, scale);
    MulLe(mark * scale, exact, complement);
    MulAssoc(scale, next, BPS);
    MulAssoc(scale, mark, complement);
  }

  lemma StepNotFarBelow(mark: nat, complement: nat, exact: nat, scale: nat, n: nat, next: nat)
    requires complement <= BPS && 0 < scale
    requires exact <= (mark + n) * scale && mark * complement < next * BPS + BPS
    ensures exact * complement < (next + n + 1) * (scale * BPS)
  {
    MulLe(exact, (mark + n) * scale, complement);
    MulLe(complement, BPS, n);
    MulDist(mark, n, complement);
    MulLt((mark + n) * complement, (next + n + 1) * BPS, scale);
    MulAssoc(complement, mark + n, scale);
    MulAssoc(next + n + 1, scale, BPS);
    MulSwap(mark + n, scale, complement);
  }

  /** After n floored haircuts the mark is within n units below the exact product. */
  lemma {:induction false} ChainIsWithinItsLength(market: nat, hs: seq<nat>)
    requires HaircutsInRange(hs)
    ensures Mark(market, hs) * BpsPower(|hs|) <= market * Product(hs)
    ensures market * Product(hs) <= (Mark(market, hs) + |hs|) * BpsPower(|hs|)
    ensures hs != [] ==> market * Product(hs) < (Mark(market, hs) + |hs|) * BpsPower(|hs|)
  {
    if hs != [] {
      var front, complement := hs[..|hs| - 1], BPS - hs[|hs| - 1];
      ChainIsWithinItsLength(market, front);
      StepError(Mark(market, front), complement, market * Product(front), BpsPower(|front|), |front|);
      MulAssoc(market, Product(front), complement);
    }
  }

  lemma {:induction false} ProductWithout(hs: seq<nat>, k: nat)
    requires HaircutsInRange(hs) && k < |hs|
    ensures HaircutsInRange(Without(hs, k))
    ensures Product(hs) == Product(Without(hs, k)) * (BPS - hs[k])
  {
    var front, last := hs[..|hs| - 1], hs[|hs| - 1];
    if k == |hs| - 1 {
      assert Without(hs, k) == front;
    } else {
      ProductWithout(front, k);
      assert Without(hs, k) == Without(front, k) + [last];
      ProductSnoc(Without(front, k), last);
      MulSwap(Product(Without(front, k)), BPS - hs[k], BPS - last);
    }
  }

  lemma ProductSnoc(rest: seq<nat>, last: nat)
    requires HaircutsInRange(rest) && last <= BPS
    ensures HaircutsInRange(rest + [last])
    ensures Product(rest + [last]) == Product(rest) * (BPS - last)
  {
    assert (rest + [last])[..|rest|] == rest;
  }

  /** The exact product does not depend on the order of the haircuts. */
  lemma {:induction false} ProductIgnoresOrder(hs: seq<nat>, hs': seq<nat>)
    requires HaircutsInRange(hs) && HaircutsInRange(hs') && multiset(hs) == multiset(hs')
    ensures Product(hs) == Product(hs')
  {
    if hs == [] {
      assert |multiset(hs')| == 0;
    } else {
      var k := LastElsewhere(hs, hs');
      ProductWithout(hs', k);
      ProductIgnoresOrder(hs[..|hs| - 1], Without(hs', k));
    }
  }

  lemma SameLength(hs: seq<nat>, hs': seq<nat>)
    requires multiset(hs) == multiset(hs')
    ensures |hs| == |hs'|
  {
    assert |multiset(hs)| == |hs| && |multiset(hs')| == |hs'|;
  }

  /** Two orders of the same haircuts differ by less than the number of haircuts: four wei for five. */
  lemma OrderCostsAtMostFourWei(market: nat, hs: seq<nat>, hs': seq<nat>)
    requires HaircutsInRange(hs) && HaircutsInRange(hs') && multiset(hs) == multiset(hs') && hs != []
    ensures Mark(market, hs) <= Mark(market, hs') + |hs| - 1
    ensures |hs| == 5 ==> Mark(market, hs) <= Mark(market, hs') + 4
  {
    ProductIgnoresOrder(hs, hs');
    SameLength(hs, hs');
    ChainIsWithinItsLength(market, hs);
    ChainIsWithinItsLength(market, hs');
    MulLtCancel(Mark(market, hs), Mark(market, hs') + |hs|, BpsPower(|hs|));
  }

  /** Larger haircuts, one by one, never raise the mark. */
  lemma {:induction false} LargerHaircutsLowerTheMark(market: nat, market': nat, hs: seq<nat>, hs': seq<nat>)
    requires HaircutsInRange(hs) && HaircutsInRange(hs') && |hs| == |hs'| && market' <= market
    requires forall i :: 0 <= i < |hs| ==> hs[i] <= hs'[i]
    ensures Mark(market', hs') <= Mark(market, hs)
  {
    if hs != [] {
      var n := |hs| - 1;
      LargerHaircutsLowerTheMark(market, market', hs[..n], hs'[..n]);
      var m, m' := Mark(market, hs[..n]), Mark(market', hs'[..n]);
      MulLe(m', m, BPS - hs'[n]);
      MulLe(BPS - hs'[n], BPS - hs[n], m);
      FloorMono(m' * (BPS - hs'[n]), m * (BPS - hs[n]), BPS);
    }
  }

  /** A position is never recognised above its market value. */
  lemma RecognizedAtMostMarket(a: AssetRiskInput)
    requires Valuable(a)
    ensures Recognized(a) <= HaircutMark(a) <= MarketValue(a)
  {
    MarkBelowMarket(MarketValue(a), Haircuts(a.params));
  }

  lemma {:induction false} MarkBelowMarket(market: nat, hs: seq<nat>)
    requires HaircutsInRange(hs)
    ensures Mark(market, hs) <= market
  {
    if hs != [] {
      MarkBelowMarket(market, hs[..|hs| - 1]);
      FloorShare(Mark(market, hs[..|hs| - 1]), BPS - hs[|hs| - 1], BPS);
    }
  }

  // ------------------------------------------------------------------------------ new collateral

  lemma {:induction false} RawTotalConcat(xs: seq<AssetRiskInput>, ys: seq<AssetRiskInput>)
    requires AllValuable(xs) && AllValuable(ys)
    ensures AllValuable(xs + ys) && RawTotal(xs + ys) == RawTotal(xs) + RawTotal(ys)
  {
    if ys == [] {
      assert xs + ys == xs;
    } else {
      RawTotalConcat(xs, ys[..|ys| - 1]);
      assert (xs + ys)[..|xs + ys| - 1] == xs + ys[..|ys| - 1];
    }
  }

  lemma {:induction false} BandTotalConcat(xs: seq<AssetRiskInput>, ys: seq<AssetRiskInput>, raw: nat, band: Band)
    requires AllValuable(xs) && AllValuable(ys)
    ensures AllValuable(xs + ys)
    ensures BandTotal(xs + ys, raw, band) == BandTotal(xs, raw, band) + BandTotal(ys, raw, band)
  {
    if ys == [] {
      assert xs + ys == xs;
    } else {
      BandTotalConcat(xs, ys[..|ys| - 1], raw, band);
      assert (xs + ys)[..|xs + ys| - 1] == xs + ys[..|ys| - 1];
    }
  }

  lemma ContributionMono(a: AssetRiskInput, raw: nat, raw': nat, band: Band)
    requires Valuable(a) && raw <= raw'
    ensures Capped(a, raw) <= Capped(a, raw')
    ensures Contribution(a, raw, band) <= Contribution(a, raw', band)
  {
    FloorMulDivMono(raw, raw', a.params.maxConcentrationBps, BPS);
    FloorMulDivMono(Capped(a, raw), Capped(a, raw'), BandBps(a.params, band), BPS);
  }

  lemma {:induction false} BandTotalGrowsWithRaw(xs: seq<AssetRiskInput>, raw: nat, raw': nat, band: Band)
    requires AllValuable(xs) && raw <= raw'
    ensures BandTotal(xs, raw, band) <= BandTotal(xs, raw', band)
  {
    if xs != [] {
      BandTotalGrowsWithRaw(xs[..|xs| - 1], raw, raw', band);
      ContributionMono(xs[|xs| - 1], raw, raw', band);
    }
  }

  /**
   * Inserting a position anywhere in the order never lowers another position's capped value, the
   * total, or any of the three limits.
   */
  lemma NewCollateralOnlyHelps(before: seq<AssetRiskInput>, x: AssetRiskInput, after: seq<AssetRiskInput>, band: Band)
    requires AllValuable(before) && Valuable(x) && AllValuable(after)
    ensures AllValuable(before + after) && AllValuable(before + [x] + after)
    ensures
      var raw, raw' := RawTotal(before + after), RawTotal(before + [x] + after);
      && BandTotal(before + after, raw, band) <= BandTotal(before + [x] + after, raw', band)
      && (forall i :: 0 <= i < |before + after| ==>
            Capped((before + after)[i], raw) <= Capped((before + after)[i], raw'))
  {
    RawTotalConcat(before, after);
    RawTotalConcat(before, [x]);
    RawTotalConcat(before + [x], after);
    var raw, raw' := RawTotal(before + after), RawTotal(before + [x] + after);
    BandTotalConcat(before, after, raw, band);
    BandTotalConcat(before, [x], raw', band);
    BandTotalConcat(before + [x], after, raw', band);
    BandTotalGrowsWithRaw(before, raw, raw', band);
    BandTotalGrowsWithRaw(after, raw, raw', band);
    forall i | 0 <= i < |before + after|
      ensures Capped((before + after)[i], raw) <= Capped((before + after)[i], raw')
    {
      ContributionMono((before + after)[i], raw, raw', Whole);
    }
  }

  // ------------------------------------------------------------------------------ restriction only

  /** The passport is conflicted, or it or the asset is suspended. */
  predicate Suspect(a: AssetRiskInput) {
    a.passportStatus == Conflicted || Suspended(a)
  }

  predicate Suspended(a: AssetRiskInput) {
    a.passportStatus == PassportSuspended || a.assetStatus == AssetSuspended
  }

  /**
   * The position with older observations, its price or none, and, if it was suspect, statuses that leave
   * it suspect.
   */
  predicate Degraded(a: AssetRiskInput, a': AssetRiskInput) {
    && a' == a.(priceUpdatedAt := a'.priceUpdatedAt, passportCommittedAt := a'.passportCommittedAt,
                passportStatus := a'.passportStatus, assetStatus := a'.assetStatus, priceUsd18 := a'.priceUsd18)
    && (a'.priceUsd18 == a.priceUsd18 || a'.priceUsd18 == 0)
    && a'.priceUpdatedAt <= a.priceUpdatedAt
    && a'.passportCommittedAt <= a.passportCommittedAt
    && (Suspect(a) ==> Suspect(a'))
  }

  /** Besides, a conflict stays a conflict and a suspension a suspension. */
  predicate DegradedInKind(a: AssetRiskInput, a': AssetRiskInput) {
    && Degraded(a, a')
    && (a.passportStatus == Conflicted ==> a'.passportStatus == Conflicted)
    && (Suspended(a) ==> Suspended(a'))
  }

  predicate AllDegraded(assets: seq<AssetRiskInput>, assets': seq<AssetRiskInput>) {
    |assets| == |assets'| && forall i :: 0 <= i < |assets| ==> Degraded(assets[i], assets'[i])
  }

  predicate AllDegradedInKind(assets: seq<AssetRiskInput>, assets': seq<AssetRiskInput>) {
    |assets| == |assets'| && forall i :: 0 <= i < |assets| ==> DegradedInKind(assets[i], assets'[i])
  }

  lemma GatesGrow(a: AssetRiskInput, a': AssetRiskInput, now: nat, now': nat)
    requires Degraded(a, a') && now <= now'
    ensures AssetGates(a', now') == {} ==> AssetGates(a, now) == {}
    ensures DegradedInKind(a, a') ==> AssetGates(a, now) <= AssetGates(a', now')
  {
    if AssetGates(a', now') == {} && a.quantity != 0 {
      NoGateNoReason(a', now');
    }
  }

  lemma NoGateNoReason(a: AssetRiskInput, now: nat)
    requires AssetGates(a, now) == {} && a.quantity != 0
    ensures now - a.priceUpdatedAt <= a.params.maxOracleAge && a.priceUsd18 != 0
    ensures now - a.passportCommittedAt <= a.params.maxPassportAge && !Suspect(a)
  {
    assert OracleStaleGate !in AssetGates(a, now) && OracleInvalidGate !in AssetGates(a, now);
    assert PassportStaleGate !in AssetGates(a, now) && ClaimConflictGate !in AssetGates(a, now);
    assert AssetSuspendedGate !in AssetGates(a, now);
  }

  lemma {:induction false} DegradationKeepsGates(assets: seq<AssetRiskInput>, assets': seq<AssetRiskInput>,
                                                 now: nat, now': nat)
    requires AllDegraded(assets, assets') && now <= now'
    ensures PortfolioGates(assets', now') == {} ==> PortfolioGates(assets, now) == {}
    ensures AllDegradedInKind(assets, assets') ==> PortfolioGates(assets, now) <= PortfolioGates(assets', now')
  {
    if assets != [] {
      var n := |assets| - 1;
      DegradationKeepsGates(assets[..n], assets'[..n], now, now');
      GatesGrow(assets[n], assets'[n], now, now');
    }
  }

  lemma StaysValuable(assets: seq<AssetRiskInput>, assets': seq<AssetRiskInput>)
    requires AllValuable(assets) && AllDegraded(assets, assets')
    ensures AllValuable(assets')
  {
    forall i | 0 <= i < |assets'|
      ensures Valuable(assets'[i])
    {
      assert Valuable(assets[i]) && Degraded(assets[i], assets'[i]);
    }
  }

  /** Without a price a position is worth nothing. */
  lemma NoPriceNoValue(a: AssetRiskInput, raw: nat, band: Band)
    requires Valuable(a) && a.priceUsd18 == 0
    ensures Recognized(a) == 0 && Contribution(a, raw, band) == 0
  {
    assert MarketValue(a) == 0;
    RecognizedAtMostMarket(a);
  }

  lemma SameNumbers(a: AssetRiskInput, a': AssetRiskInput, raw: nat, band: Band)
    requires Valuable(a) && Degraded(a, a') && a'.priceUsd18 == a.priceUsd18
    ensures Valuable(a') && Recognized(a) == Recognized(a')
    ensures Contribution(a, raw, band) == Contribution(a', raw, band)
  {
    assert HaircutMark(a) == HaircutMark(a') && StressedExit(a) == StressedExit(a');
    assert RedemptionFloor(a) == RedemptionFloor(a');
  }

  lemma DegradedIsWorthNoMore(a: AssetRiskInput, a': AssetRiskInput, raw: nat, raw': nat, band: Band)
    requires Valuable(a) && Degraded(a, a') && raw' <= raw
    ensures Valuable(a') && Recognized(a') <= Recognized(a)
    ensures Contribution(a', raw', band) <= Contribution(a, raw, band)
  {
    if a'.priceUsd18 == a.priceUsd18 {
      SameNumbers(a, a', raw', band);
      ContributionMono(a, raw', raw, band);
    } else {
      NoPriceNoValue(a', raw', band);
    }
  }

  lemma {:induction false} DegradationLowersTotal(assets: seq<AssetRiskInput>, assets': seq<AssetRiskInput>)
    requires AllValuable(assets) && AllValuable(assets') && AllDegraded(assets, assets')
    ensures RawTotal(assets') <= RawTotal(assets)
    decreases |assets|
  {
    if assets != [] {
      var n := |assets| - 1;
      DegradationLowersTotal(assets[..n], assets'[..n]);
      DegradedIsWorthNoMore(assets[n], assets'[n], 0, 0, Whole);
    }
  }

  lemma {:induction false} DegradationLowersBand(assets: seq<AssetRiskInput>, assets': seq<AssetRiskInput>,
                                                 raw: nat, raw': nat, band: Band)
    requires AllValuable(assets) && AllValuable(assets') && AllDegraded(assets, assets') && raw' <= raw
    ensures BandTotal(assets', raw', band) <= BandTotal(assets, raw, band)
    decreases |assets|
  {
    if assets != [] {
      var n := |assets| - 1;
      DegradationLowersBand(assets[..n], assets'[..n], raw, raw', band);
      DegradedIsWorthNoMore(assets[n], assets'[n], raw, raw', band);
    }
  }

  /** The limits one by one. */
  predicate LimitsNoMore(l: Limits, l': Limits) {
    l'.total <= l.total && l'.borrow <= l.borrow && l'.maintenance <= l.maintenance && l'.liquidation <= l.liquidation
  }

  lemma DegradationLowersLimits(assets: seq<AssetRiskInput>, assets': seq<AssetRiskInput>)
    requires AllValuable(assets) && AllDegraded(assets, assets')
    ensures AllValuable(assets')
    ensures LimitsNoMore(LimitsOf(assets, RawTotal(assets)), LimitsOf(assets', RawTotal(assets')))
  {
    StaysValuable(assets, assets');
    DegradationLowersTotal(assets, assets');
    var raw, raw' := RawTotal(assets), RawTotal(assets');
    DegradationLowersBand(assets, assets', raw, raw', Whole);
    DegradationLowersBand(assets, assets', raw, raw', Initial);
    DegradationLowersBand(assets, assets', raw, raw', Maintenance);
    DegradationLowersBand(assets, assets', raw, raw', Liquidation);
  }

  /** Lower limits, more debt, gates that do not become empty and a stricter override move no status back. */
  lemma StatusMono(l: Limits, l': Limits, debt: nat, debt': nat, gates: set<Gate>, gates': set<Gate>,
                   floor: AccountStatus, floor': AccountStatus)
    requires LimitsNoMore(l, l') && debt <= debt' && (gates' == {} ==> gates == {}) && floor.Rank() <= floor'.Rank()
    ensures StatusOf(l, debt, gates, floor).Rank() <= StatusOf(l', debt', gates', floor').Rank()
  {
  }

  /** What may change between two evaluations for the second to be the more restricted one. */
  predicate MoreRestricted(account: AccountInput, account': AccountInput, s: SequencerInput, s': SequencerInput,
                           now: nat) {
    && account.scaledPrincipal <= account'.scaledPrincipal
    && account.borrowIndex <= account'.borrowIndex
    && account.reservedUsd18 <= account'.reservedUsd18
    && account.statusOverride.Rank() <= account'.statusOverride.Rank()
    && (s.up ==> now - s.lastRestartAt >= s.gracePeriod)
    && (s' == s || (s.up && s' == s.(up := false)))
  }

  /**
   * More debt, a higher index, more reservations, a guardian override, conflicts and suspensions in any
   * order, older evidence, a lost price, a sequencer outage and elapsed time outside its grace period
   * never raise a limit or available borrow and never lower the status. No gate disappears either, unless
   * a conflict gives way to a suspension or the reverse.
   */
  lemma DegradedInputsOnlyRestrict(assets: seq<AssetRiskInput>, assets': seq<AssetRiskInput>,
                                   account: AccountInput, account': AccountInput,
                                   s: SequencerInput, s': SequencerInput, now: nat, now': nat)
    requires AllValuable(assets) && AllDegraded(assets, assets')
    requires MoreRestricted(account, account', s, s', now) && now <= now'
    ensures AllValuable(assets')
    ensures
      var report, report' := Evaluate(assets, account, s, now), Evaluate(assets', account', s', now');
      && report'.availableBorrowUsd18 <= report.availableBorrowUsd18
      && report'.totalRecognizedUsd18 <= report.totalRecognizedUsd18
      && report'.borrowLimitUsd18 <= report.borrowLimitUsd18
      && report'.maintenanceLimitUsd18 <= report.maintenanceLimitUsd18
      && report'.liquidationLimitUsd18 <= report.liquidationLimitUsd18
      && report.status.Rank() <= report'.status.Rank()
      && (AllDegradedInKind(assets, assets') ==> report.gates <= report'.gates)
  {
    DegradationLowersLimits(assets, assets');
    DegradationKeepsGates(assets, assets', now, now');
    var l, l' := LimitsOf(assets, RawTotal(assets)), LimitsOf(assets', RawTotal(assets'));
    var debt, debt' := DebtOf(account), DebtOf(account');
    DebtGrows(account, account');
    var gates := SequencerGates(s, now) + PortfolioGates(assets, now);
    var gates' := SequencerGates(s', now') + PortfolioGates(assets', now');
    assert SequencerGates(s, now) <= SequencerGates(s', now');
    StatusMono(l, l', debt, debt', gates, gates', account.statusOverride, account'.statusOverride);
  }

  lemma DebtGrows(account: AccountInput, account': AccountInput)
    requires account.scaledPrincipal <= account'.scaledPrincipal && account.borrowIndex <= account'.borrowIndex
    ensures DebtOf(account) <= DebtOf(account')
  {
    MulLe(account.scaledPrincipal, account'.scaledPrincipal, account.borrowIndex);
    MulLe(account.borrowIndex, account'.borrowIndex, account'.scaledPrincipal);
    CeilMono(account.scaledPrincipal * account.borrowIndex, account'.scaledPrincipal * account'.borrowIndex, WAD);
  }

  // --------------------------------------------------------------------------- health, and borrowing

  /** Health is below one WAD exactly when the maintenance requirement is breached. */
  lemma HealthBelowOneMeansBreached(maintenance: nat, debt: nat)
    ensures Health(maintenance, debt) < WAD <==> maintenance < debt
  {
    if 0 < debt {
      FloorBelow(maintenance * WAD, debt, WAD);
      if maintenance < debt {
        MulLt(maintenance, debt, WAD);
      } else {
        MulLe(debt, maintenance, WAD);
      }
    }
  }

  /** The account after borrowing `amount` more. */
  function AfterBorrow(account: AccountInput, amount: nat): AccountInput
    requires 0 < account.borrowIndex
  {
    account.(scaledPrincipal := account.scaledPrincipal + Interest.BorrowedPrincipal(amount, account.borrowIndex))
  }

  /**
   * Borrowing an amount that leaves room for the index's rounding keeps the account NORMAL, and takes
   * at least the amount and at most the amount plus that rounding from its capacity.
   */
  lemma BorrowingWithinCapacityStaysNormal(assets: seq<AssetRiskInput>, account: AccountInput,
                                           s: SequencerInput, now: nat, amount: nat)
    requires AllValuable(assets) && 0 < account.borrowIndex
    requires Evaluate(assets, account, s, now).status == Normal
    requires amount + CeilDiv(account.borrowIndex - 1, WAD) <= Evaluate(assets, account, s, now).availableBorrowUsd18
    ensures
      var report := Evaluate(assets, account, s, now);
      var report' := Evaluate(assets, AfterBorrow(account, amount), s, now);
      && report'.status == Normal
      && report.availableBorrowUsd18 - amount - CeilDiv(account.borrowIndex - 1, WAD)
         <= report'.availableBorrowUsd18 <= report.availableBorrowUsd18 - amount
  {
    DebtAfterBorrow(account, amount);
    var l := LimitsOf(assets, RawTotal(assets));
    assert DebtOf(AfterBorrow(account, amount)) <= l.borrow;
  }

  lemma DebtAfterBorrow(account: AccountInput, amount: nat)
    requires 0 < account.borrowIndex
    ensures DebtOf(account) + amount <= DebtOf(AfterBorrow(account, amount))
    ensures DebtOf(AfterBorrow(account, amount)) <= DebtOf(account) + amount + CeilDiv(account.borrowIndex - 1, WAD)
  {
    var index := account.borrowIndex;
    var principal, added := account.scaledPrincipal, Interest.BorrowedPrincipal(amount, index);
    Interest.FurtherBorrowDebt(principal, amount, index);
    MulDist(principal, added, index);
    CeilMono(amount * WAD + principal * index, (principal + added) * index, WAD);
    CeilShift(principal * index, amount, WAD);
  }
}
