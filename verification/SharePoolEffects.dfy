/**
 * What each kind of action does to a pool, field by field and account by account: who is credited, what is
 * rounded and in which direction, and when the action is refused.
 */
module SharePoolEffects {
  import opened Wrappers
  import opened Arithmetic
  import opened SharePool
  import opened SharePoolProperties

  // --------------------------------------------------------------------------------- entitlements

  /** An account is entitled to its share of the balance that is not surplus, rounded down. */
  lemma EntitlementMeans(p: Pool, account: string)
    requires Inv(p)
    ensures p.totalShares == 0 ==> EffectiveOf(p, account) == 0
    ensures 0 < p.totalShares ==>
      IsFloor(EffectiveOf(p, account), SharesOf(p, account) * (p.tokenBalance - p.surplus), p.totalShares)
    ensures SharesOf(p, account) == if account in p.shares then p.shares[account] else 0
  {
    if 0 < p.totalShares {
      EffectiveIsFloor(p, account);
      DivisionFloors(SharesOf(p, account) * Backed(p), p.totalShares);
    }
  }

  /** The conservation report is not ok exactly when more is owed than backed or the surplus is negative. */
  lemma ReportMeans(p: Pool)
    ensures
      var owed, r := Sum(p.shares.Keys, Effective(p)), ReportOf(p);
      && (r.ok <==> owed <= p.tokenBalance - p.surplus && 0 <= p.surplus)
      && r.totalEffective == owed && r.surplus == p.surplus && r.tokenBalance == p.tokenBalance
      && (r.ok ==> r.totalEffective + r.surplus + r.dust == r.tokenBalance && 0 <= r.dust)
  {
  }

  /**
   * A fee of 11 overdraws a pool that backs its shares with 10. The report says so when the shortfall of one
   * falls between two holders, whose entitlements are cut to zero, but not when a single holder bears it.
   */
  lemma OverdrawnPoolIsReportedByRounding()
    ensures
      var one, two := Pool(10, 4, 5, map["a" := 10]), Pool(10, 4, 5, map["a" := 5, "b" := 5]);
      && Step(one.(tokenBalance := 15), Action(Fee, 11, "", "")).Ok?
      && Step(one.(tokenBalance := 15), Action(Fee, 11, "", "")).value.0 == one
      && Step(two.(tokenBalance := 15), Action(Fee, 11, "", "")).Ok?
      && Step(two.(tokenBalance := 15), Action(Fee, 11, "", "")).value.0 == two
      && ReportOf(one).ok && !ReportOf(two).ok
  {
    var one, two := Pool(10, 4, 5, map["a" := 10]), Pool(10, 4, 5, map["a" := 5, "b" := 5]);
    SumPick(one.shares.Keys, Effective(one), "a");
    assert one.shares.Keys - {"a"} == {};
    SumPick(two.shares.Keys, Effective(two), "a");
    SumPick(two.shares.Keys - {"a"}, Effective(two), "b");
    assert two.shares.Keys - {"a"} - {"b"} == {};
  }

  function EntitlementPlusOne(p: Pool): string -> int {
    account => EffectiveOf(p, account) + 1
  }

  lemma {:induction false} OneMoreEach(keys: set<string>, p: Pool)
    ensures Sum(keys, EntitlementPlusOne(p)) == Sum(keys, Effective(p)) + |keys|
    decreases |keys|
  {
    if keys != {} {
      var k :| k in keys;
      SumPick(keys, EntitlementPlusOne(p), k);
      SumPick(keys, Effective(p), k);
      OneMoreEach(keys - {k}, p);
    }
  }

  lemma {:induction false} SumBelow(keys: set<string>, f: string -> int, g: string -> int, t: nat, b: nat)
    requires keys != {} && forall k :: k in keys ==> f(k) * t < g(k) * b
    ensures Sum(keys, f) * t < Sum(keys, g) * b
    decreases |keys|
  {
    var k :| k in keys;
    SumPick(keys, f, k);
    SumPick(keys, g, k);
    MulDist(f(k), Sum(keys - {k}, f), t);
    MulDist(g(k), Sum(keys - {k}, g), b);
    if keys - {k} == {} {
      assert Sum(keys - {k}, f) == 0 && Sum(keys - {k}, g) == 0;
    } else {
      SumBelow(keys - {k}, f, g, t, b);
    }
  }

  lemma ShareBelowNext(p: Pool, k: string)
    requires Inv(p) && 0 < p.totalShares
    ensures Shares(p)(k) * Backed(p) < EntitlementPlusOne(p)(k) * p.totalShares
  {
    EntitlementMeans(p, k);
  }

  /** What rounding leaves unclaimed is less than one unit for every account. */
  lemma DustIsBelowOnePerAccount(p: Pool)
    requires Inv(p) && 0 < p.totalShares
    ensures ReportOf(p).dust < |p.shares|
  {
    var keys := p.shares.Keys;
    assert keys != {};
    forall k | k in keys
      ensures Shares(p)(k) * Backed(p) < EntitlementPlusOne(p)(k) * p.totalShares
    {
      ShareBelowNext(p, k);
    }
    SumBelow(keys, Shares(p), EntitlementPlusOne(p), Backed(p), p.totalShares);
    OneMoreEach(keys, p);
    OwedAtMostBacked(p);
    BelowByProduct(p.totalShares, Backed(p), Sum(keys, EntitlementPlusOne(p)));
  }

  lemma BelowByProduct(t: nat, b: nat, claims: int)
    requires t * b < claims * t
    ensures b < claims
  {
    if claims <= b {
      MulLe(claims, b, t);
    }
  }

  // ------------------------------------------------------------------------------------- deposits

  /** The pool after a change to one account, and with new totals. */
  predicate ChangesTo(p: Pool, q: Pool, account: string, shares: int, balance: int) {
    && q.shares == p.shares[account := SharesOf(p, account) + shares]
    && q.totalShares == p.totalShares + shares
    && q.tokenBalance == p.tokenBalance + balance
    && q.surplus == p.surplus
  }

  /** A deposit mints in proportion to what backs the shares, rounded down; the first one mints its own amount. */
  lemma DepositMeans(p: Pool, a: Action)
    requires Inv(p) && a.kind == Deposit
    ensures a.account == "" ==> Step(p, a) == Err(NeedsAccount)
    ensures a.account != "" && a.value <= 0 ==> Step(p, a) == Err(DepositNotPositive)
    ensures a.account != "" && 0 < a.value ==>
      && Step(p, a).Ok?
      && var (q, e) := Step(p, a).value;
         && ChangesTo(p, q, a.account, e.shares, a.value)
         && e == Effect(SharesMinted, Some(a.account), e.shares, a.value, None)
         && (p.totalShares == 0 ==> e.shares == a.value)
         && (0 < p.totalShares && p.surplus < p.tokenBalance ==>
               IsFloor(e.shares, a.value * p.totalShares, p.tokenBalance - p.surplus))
         && (0 < p.totalShares && p.surplus == p.tokenBalance ==> e.shares == p.totalShares)
  {
    SharesBounded(p, a.account);
    if a.account != "" && 0 < a.value && 0 < p.totalShares {
      var d := if Backed(p) == 0 then a.value else Backed(p);
      MulLe(0, a.value, p.totalShares);
      TruncIsFloor(a.value * p.totalShares, d);
      DivisionFloors(a.value * p.totalShares, d);
      FloorExact(p.totalShares, a.value);
    }
  }

  // ---------------------------------------------------------------------------------- redemptions

  /** A redemption pays in proportion, rounded towards zero, and burns exactly the count. */
  lemma RedemptionMeans(p: Pool, a: Action)
    requires Inv(p) && Redeems(a)
    ensures a.account == "" ==> Step(p, a) == Err(NeedsAccount)
    ensures a.account != "" && SharesOf(p, a.account) < a.value ==> Step(p, a) == Err(MoreSharesThanHeld)
    ensures a.account != "" && a.value <= SharesOf(p, a.account) && p.totalShares == 0 ==>
      Step(p, a) == Err(DivisionByZero)
    ensures a.account != "" && a.value <= SharesOf(p, a.account) && p.totalShares != 0 ==>
      && Step(p, a).Ok?
      && var (q, e) := Step(p, a).value;
         && ChangesTo(p, q, a.account, -a.value, e.rawDelta)
         && e == Effect(SharesBurned, Some(a.account), a.value, e.rawDelta, None)
         && (0 <= a.value ==> IsFloor(-e.rawDelta, a.value * (p.tokenBalance - p.surplus), p.totalShares))
         && (a.value < 0 ==> IsFloor(e.rawDelta, -a.value * (p.tokenBalance - p.surplus), p.totalShares))
  {
    SharesBounded(p, a.account);
    if p.totalShares != 0 {
      ShareTruncates(a.value, Backed(p), p.totalShares);
    }
  }

  lemma ShareTruncates(count: int, backed: nat, total: nat)
    requires 0 < total
    ensures 0 <= count ==> IsFloor(TruncDiv(count * backed, total), count * backed, total)
    ensures count < 0 ==> IsFloor(-TruncDiv(count * backed, total), -count * backed, total)
  {
    if 0 <= count {
      MulLe(0, count, backed);
      TruncIsFloor(count * backed, total);
      DivisionFloors(count * backed, total);
    } else {
      MulLe(count, 0, backed);
      MulAssoc(-1, count, backed);
      TruncOfNonPositive(count * backed, total);
      DivisionFloors(-count * backed, total);
    }
  }

  lemma TruncOfNonPositive(x: int, t: nat)
    requires x <= 0 && 0 < t
    ensures TruncDiv(x, t) == -(-x / t)
  {
  }

  // ------------------------------------------------------------------------------------- rebases

  /**
   * An increase without provenance is credited to nobody: every entitlement and what backs the shares
   * stay as they were, and the surplus takes all of it. A decrease is refused.
   */
  lemma UnprovenancedRebaseCreditsNobody(p: Pool, a: Action)
    requires a.kind == Rebase && a.provenance == ""
    ensures a.value < p.tokenBalance ==> Step(p, a) == Err(UnprovenancedDecrease)
    ensures p.tokenBalance <= a.value ==>
      && Step(p, a).Ok?
      && var (q, e) := Step(p, a).value;
         && q.tokenBalance == a.value
         && q.surplus == p.surplus + (a.value - p.tokenBalance)
         && q.tokenBalance - q.surplus == p.tokenBalance - p.surplus
         && q.totalShares == p.totalShares && q.shares == p.shares
         && (forall account :: EffectiveOf(q, account) == EffectiveOf(p, account))
         && e == Effect(UnattributedSurplus, None, 0, a.value - p.tokenBalance, None)
  {
  }

  /** A provenanced rebase scales the surplus with the balance, rounded down, and leaves every share. */
  lemma ProvenancedRebaseMeans(p: Pool, a: Action)
    requires Inv(p) && a.kind == Rebase && a.provenance != "" && 0 <= a.value
    ensures Step(p, a).Ok?
    ensures
      var (q, e) := Step(p, a).value;
      && q.tokenBalance == a.value && q.totalShares == p.totalShares && q.shares == p.shares
      && e.impliedFactorWad.Some?
      && e == Effect(RebaseObserved, None, 0, a.value - p.tokenBalance, e.impliedFactorWad)
      && (p.tokenBalance == 0 ==> q.surplus == p.surplus && e.impliedFactorWad.value == 1_000_000_000_000_000_000)
      && (0 < p.tokenBalance ==>
            && IsFloor(q.surplus, p.surplus * a.value, p.tokenBalance)
            && IsFloor(e.impliedFactorWad.value, a.value * 1_000_000_000_000_000_000, p.tokenBalance))
  {
    if 0 < p.tokenBalance {
      MulLe(0, p.surplus, a.value);
      TruncIsFloor(p.surplus * a.value, p.tokenBalance);
      TruncIsFloor(a.value * WAD, p.tokenBalance);
      DivisionFloors(p.surplus * a.value, p.tokenBalance);
      DivisionFloors(a.value * WAD, p.tokenBalance);
    }
  }

  /** Holders take the rounding of a provenanced rebase: what backs their shares scales with it, rounded up. */
  lemma HoldersScaleWithRebase(p: Pool, a: Action)
    requires Inv(p) && a.kind == Rebase && a.provenance != "" && 0 <= a.value && 0 < p.tokenBalance
    ensures
      var q := Step(p, a).value.0;
      Backed(p) * a.value <= Backed(q) * p.tokenBalance < Backed(p) * a.value + p.tokenBalance
  {
    ProvenancedRebaseMeans(p, a);
    var q := Step(p, a).value.0;
    MulDist(p.tokenBalance, -p.surplus, a.value);
    MulDist(a.value, -q.surplus, p.tokenBalance);
    MulDist(q.surplus, 1, p.tokenBalance);
  }

  // ---------------------------------------------------------------------------------------- fees

  /** A fee comes out of the balance and touches nothing else. */
  lemma FeeMeans(p: Pool, a: Action)
    requires a.kind == Fee
    ensures a.value < 0 ==> Step(p, a) == Err(NegativeFee)
    ensures 0 <= a.value ==>
      Step(p, a) == Ok((p.(tokenBalance := p.tokenBalance - a.value), Effect(FeeTaken, None, 0, -a.value, None)))
  {
  }

  // ---------------------------------------------------------------------------------- over a run

  /** The run rebases only without provenance. */
  predicate NoProvenance(actions: seq<Action>) {
    forall i :: 0 <= i < |actions| && actions[i].kind == Rebase ==> actions[i].provenance == ""
  }

  /** By how much the run's rebases raised the balance, one by one. */
  function Increases(start: Pool, actions: seq<Action>): int
    requires Run(start, actions).Some?
  {
    if actions == [] then 0
    else
      var n := |actions| - 1;
      Increases(start, actions[..n])
      + if actions[n].kind == Rebase then actions[n].value - Run(start, actions[..n]).value.0.tokenBalance else 0
  }

  /** Without provenanced rebases the surplus is what there was and every increase, whatever else happens. */
  lemma {:induction false} SurplusIsEveryIncrease(start: Pool, actions: seq<Action>)
    requires Run(start, actions).Some? && NoProvenance(actions)
    ensures Run(start, actions).value.0.surplus == start.surplus + Increases(start, actions)
    decreases |actions|
  {
    if actions != [] {
      var n := |actions| - 1;
      SurplusIsEveryIncrease(start, actions[..n]);
      var p := Run(start, actions[..n]).value.0;
      if actions[n].kind == Rebase {
        UnprovenancedRebaseCreditsNobody(p, actions[n]);
      }
    }
  }
}
