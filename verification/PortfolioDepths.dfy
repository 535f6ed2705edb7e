/** Lowering the declared depths of liquidity routes: when it cannot raise the value. */
module PortfolioDepths {
  import opened PortfolioModel
  import opened PortfolioSums
  import opened PortfolioTightening

  /** The same record with a depth that is no larger. */
  predicate ShallowerRecord(r: Record, r': Record) {
    r' == r.(depth := r'.depth) && r'.depth <= r.depth
  }

  /** No declared route is undeclared on the way: a positive depth stays positive. */
  predicate Shallower(rs: seq<Record>, rs': seq<Record>) {
    && |rs| == |rs'|
    && forall i :: 0 <= i < |rs| ==> ShallowerRecord(rs[i], rs'[i]) && (rs[i].depth > 0 ==> rs'[i].depth > 0)
  }

  lemma ShallowerGroups(rs: seq<Record>, rs': seq<Record>, d: Dimension, key: string)
    requires Shallower(rs, rs')
    ensures LastKind(rs', d, key) == LastKind(rs, d, key) && GroupTotal(rs', d, key) == GroupTotal(rs, d, key)
    ensures RouteDepth(rs, key).Some? <==> RouteDepth(rs', key).Some?
    ensures RouteDepth(rs, key).Some? ==> RouteDepth(rs', key).value <= RouteDepth(rs, key).value
    ensures Base(rs') == Base(rs)
  {
    forall i | 0 <= i < |rs|
      ensures Alike(rs[i], rs'[i], d)
    {
      SameGroups(rs[i], rs'[i], d);
    }
    AlikeKinds(rs, rs', d, key);
    AlikeTotals(rs, rs', d, key);
    SameBase(rs, rs');
    ShallowerRoute(rs, rs', key);
  }

  lemma {:induction false} ShallowerRoute(rs: seq<Record>, rs': seq<Record>, key: string)
    requires Shallower(rs, rs')
    ensures RouteDepth(rs, key).Some? <==> RouteDepth(rs', key).Some?
    ensures RouteDepth(rs, key).Some? ==> RouteDepth(rs', key).value <= RouteDepth(rs, key).value
  {
    if rs != [] {
      var n := |rs| - 1;
      ShallowerRoute(rs[..n], rs'[..n], key);
      SameGroups(rs[n], rs'[n], Liquidity);
    }
  }

  lemma SameGroups(r: Record, r': Record, d: Dimension)
    requires ShallowerRecord(r, r') && (r.depth > 0 ==> r'.depth > 0)
    ensures KindIn(r', d) == KindIn(r, d) && KeyIn(r', d) == KeyIn(r, d)
  {
  }

  lemma ShallowerScale(rs: seq<Record>, rs': seq<Record>, policy: Policy, d: Dimension, i: nat)
    requires PolicyValid(policy) && Shallower(rs, rs') && i < |rs|
    ensures DimensionScale(rs', Base(rs), policy, d, rs'[i]) <= DimensionScale(rs, Base(rs), policy, d, rs[i])
  {
    var key, base := KeyIn(rs[i], d), Base(rs);
    var kind := LastKind(rs, d, key);
    SameGroups(rs[i], rs'[i], d);
    ShallowerGroups(rs, rs', d, key);
    if kind != NoGroup {
      ScaledMono(Allowed(base, policy, d, kind, RouteDepth(rs, key)), GroupTotal(rs, d, key),
                 Allowed(base, policy, d, kind, RouteDepth(rs', key)), GroupTotal(rs', d, key));
    }
  }

  /**
   * Shallower depths never raise the value, as long as every declared route stays declared. It stands
   * beside the general LoweringDepthsNeverHelps because it assumes nothing of the group ids.
   */
  lemma ShallowerNeverHelps(rs: seq<Record>, rs': seq<Record>, policy: Policy)
    requires PolicyValid(policy) && HaircutsValid(policy) && Shallower(rs, rs')
    ensures PortfolioValue(rs', policy) <= PortfolioValue(rs, policy)
  {
    ShallowerGroups(rs, rs', Liquidity, NONE_KEY);
    forall i | 0 <= i < |rs|
      ensures WorkingOf(rs', policy, rs'[i]) <= WorkingOf(rs, policy, rs[i])
    {
      forall d: Dimension
        ensures DimensionScale(rs', Base(rs), policy, d, rs'[i]) <= DimensionScale(rs, Base(rs), policy, d, rs[i])
      {
        ShallowerScale(rs, rs', policy, d, i);
      }
      ScaleNoMore(rs, Base(rs), policy, rs[i], rs', Base(rs), policy, rs'[i], |DIMENSIONS|);
      WorkingFollowsScale(rs[i].recognized, PositionScale(rs, Base(rs), policy, rs[i]),
                          PositionScale(rs', Base(rs), policy, rs'[i]));
    }
    forall k | 0 <= k < |policy.scenarios|
      ensures Covered(rs, rs', policy.scenarios[k], policy)
    {
      assert HitsAtLeast(rs, rs', policy.scenarios[k], policy.scenarios[k]);
    }
    ValueNoMore(rs, rs', policy, policy);
  }

  /**
   * One position's depth lowered to any value at all: its own route scale does not rise exactly when
   * the route stays declared, was not declared before, or did not bind.
   */
  lemma LoweringDepthHelpsExactlyWhenUndeclared(rs: seq<Record>, policy: Policy, i: nat, depth: int)
    requires PolicyValid(policy) && i < |rs| && depth <= rs[i].depth
    requires AllReservedFree(rs)
    ensures
      var rs' := rs[i := rs[i].(depth := depth)];
      var before := DimensionScale(rs, Base(rs), policy, Liquidity, rs[i]);
      DimensionScale(rs', Base(rs), policy, Liquidity, rs'[i]) <= before
      <==> depth > 0 || KindIn(rs[i], Liquidity) == NoGroup || before == WAD
  {
    var rs' := rs[i := rs[i].(depth := depth)];
    forall j | 0 <= j < |rs'|
      ensures ReservedFree(rs'[j])
    {
      assert ReservedFree(rs[j]);
    }
    if depth > 0 {
      ShallowerScale(rs, rs', policy, Liquidity, i);
    } else {
      assert rs'[i] in rs';
      LastKindIsOwnKind(rs', Liquidity, rs'[i]);
      LastKindIsOwnKind(rs, Liquidity, rs[i]);
    }
  }

  // ------------------------------------------------------------------- lowering depths to anything

  predicate Lowered(rs: seq<Record>, rs': seq<Record>) {
    |rs| == |rs'| && forall i :: 0 <= i < |rs| ==> ShallowerRecord(rs[i], rs'[i])
  }

  /** Every position whose route is undeclared on the way was not held back by it. */
  predicate UndeclaresNoBindingRoute(rs: seq<Record>, rs': seq<Record>, policy: Policy)
    requires PolicyValid(policy) && |rs| == |rs'|
  {
    forall i :: 0 <= i < |rs| && KindIn(rs[i], Liquidity) == Named && rs'[i].depth <= 0 ==>
      DimensionScale(rs, Base(rs), policy, Liquidity, rs[i]) == WAD
  }

  lemma SameOtherGroups(r: Record, r': Record, d: Dimension)
    requires ShallowerRecord(r, r') && d != Liquidity
    ensures KindIn(r', d) == KindIn(r, d) && KeyIn(r', d) == KeyIn(r, d)
  {
  }

  lemma LoweredOtherGroups(rs: seq<Record>, rs': seq<Record>, d: Dimension, key: string)
    requires Lowered(rs, rs') && d != Liquidity
    ensures LastKind(rs', d, key) == LastKind(rs, d, key) && GroupTotal(rs', d, key) == GroupTotal(rs, d, key)
    ensures Base(rs') == Base(rs)
  {
    forall i | 0 <= i < |rs|
      ensures Alike(rs[i], rs'[i], d)
    {
      assert ShallowerRecord(rs[i], rs'[i]);
      SameOtherGroups(rs[i], rs'[i], d);
    }
    AlikeKinds(rs, rs', d, key);
    AlikeTotals(rs, rs', d, key);
    SameBase(rs, rs');
  }

  lemma LoweredIsReservedFree(rs: seq<Record>, rs': seq<Record>)
    requires Lowered(rs, rs') && AllReservedFree(rs)
    ensures AllReservedFree(rs')
  {
    forall i | 0 <= i < |rs'|
      ensures ReservedFree(rs'[i])
    {
      assert ShallowerRecord(rs[i], rs'[i]) && ReservedFree(rs[i]);
    }
  }

  /** On a route that binds, every member is still on the route afterwards, at no larger depth. */
  lemma BindingRouteKeepsMember(rs: seq<Record>, rs': seq<Record>, policy: Policy, key: string, i: nat, j: nat)
    requires PolicyValid(policy) && Lowered(rs, rs') && UndeclaresNoBindingRoute(rs, rs', policy)
    requires i < |rs| && KeyIn(rs[i], Liquidity) == key && j < |rs| && InGroup(rs[j], Liquidity, key)
    requires DimensionScale(rs, Base(rs), policy, Liquidity, rs[i]) < WAD
    ensures InGroup(rs'[j], Liquidity, key) && rs'[j].depth <= rs[j].depth
  {
    assert ShallowerRecord(rs[j], rs'[j]);
    assert rs'[j].depth > 0;
  }

  lemma BindingRouteTightens(rs: seq<Record>, rs': seq<Record>, policy: Policy, i: nat)
    requires PolicyValid(policy) && Lowered(rs, rs') && UndeclaresNoBindingRoute(rs, rs', policy)
    requires i < |rs| && InGroup(rs[i], Liquidity, KeyIn(rs[i], Liquidity))
    requires DimensionScale(rs, Base(rs), policy, Liquidity, rs[i]) < WAD
    ensures
      var key := KeyIn(rs[i], Liquidity);
      && GroupTotal(rs, Liquidity, key) <= GroupTotal(rs', Liquidity, key)
      && RouteDepth(rs, key).Some? && RouteDepth(rs', key).Some?
      && RouteDepth(rs', key).value <= RouteDepth(rs, key).value
  {
    var key := KeyIn(rs[i], Liquidity);
    forall j | 0 <= j < |rs|
      ensures RecognizedIn(Liquidity, key)(rs[j]) <= RecognizedIn(Liquidity, key)(rs'[j])
    {
      assert ShallowerRecord(rs[j], rs'[j]);
      if InGroup(rs[j], Liquidity, key) {
        BindingRouteKeepsMember(rs, rs', policy, key, i, j);
      }
    }
    SumMonoAcross(rs', rs, RecognizedIn(Liquidity, key), RecognizedIn(Liquidity, key));
    RouteDepthIsLeast(rs, key);
    RouteDepthIsLeast(rs', key);
    var j :| 0 <= j < |rs| && InGroup(rs[j], Liquidity, key) && rs[j].depth == RouteDepth(rs, key).value;
    BindingRouteKeepsMember(rs, rs', policy, key, i, j);
  }

  lemma LoweredScale(rs: seq<Record>, rs': seq<Record>, policy: Policy, d: Dimension, i: nat)
    requires PolicyValid(policy) && Lowered(rs, rs') && AllReservedFree(rs) && i < |rs|
    requires UndeclaresNoBindingRoute(rs, rs', policy)
    ensures DimensionScale(rs', Base(rs), policy, d, rs'[i]) <= DimensionScale(rs, Base(rs), policy, d, rs[i])
  {
    var key, base := KeyIn(rs[i], d), Base(rs);
    if d != Liquidity {
      SameOtherGroups(rs[i], rs'[i], d);
      LoweredOtherGroups(rs, rs', d, key);
      assert Allowed(base, policy, d, LastKind(rs, d, key), RouteDepth(rs, key))
          == Allowed(base, policy, d, LastKind(rs, d, key), RouteDepth(rs', key));
    } else if DimensionScale(rs, base, policy, d, rs[i]) < WAD {
      LastKindIsOwnKind(rs, d, rs[i]);
      BindingRouteKeepsMember(rs, rs', policy, key, i, i);
      BindingRouteTightens(rs, rs', policy, i);
      LoweredIsReservedFree(rs, rs');
      LastKindIsOwnKind(rs', d, rs'[i]);
      ScaledMono(Allowed(base, policy, d, Named, RouteDepth(rs, key)), GroupTotal(rs, d, key),
                 Allowed(base, policy, d, Named, RouteDepth(rs', key)), GroupTotal(rs', d, key));
    }
  }

  /**
   * Lowering declared depths to anything, zero included, never raises the value as long as no route is
   * undeclared for a position that it held back.
   */
  lemma LoweringDepthsNeverHelps(rs: seq<Record>, rs': seq<Record>, policy: Policy)
    requires PolicyValid(policy) && HaircutsValid(policy) && AllReservedFree(rs) && Lowered(rs, rs')
    requires UndeclaresNoBindingRoute(rs, rs', policy)
    ensures PortfolioValue(rs', policy) <= PortfolioValue(rs, policy)
  {
    LoweredOtherGroups(rs, rs', Underlying, "");
    forall i | 0 <= i < |rs|
      ensures WorkingOf(rs', policy, rs'[i]) <= WorkingOf(rs, policy, rs[i])
    {
      assert ShallowerRecord(rs[i], rs'[i]);
      forall d: Dimension
        ensures DimensionScale(rs', Base(rs), policy, d, rs'[i]) <= DimensionScale(rs, Base(rs), policy, d, rs[i])
      {
        LoweredScale(rs, rs', policy, d, i);
      }
      ScaleNoMore(rs, Base(rs), policy, rs[i], rs', Base(rs), policy, rs'[i], |DIMENSIONS|);
      WorkingFollowsScale(rs[i].recognized, PositionScale(rs, Base(rs), policy, rs[i]),
                          PositionScale(rs', Base(rs), policy, rs'[i]));
    }
    forall k | 0 <= k < |policy.scenarios|
      ensures Covered(rs, rs', policy.scenarios[k], policy)
    {
      assert HitsAtLeast(rs, rs', policy.scenarios[k], policy.scenarios[k]);
    }
    ValueNoMore(rs, rs', policy, policy);
  }
}
