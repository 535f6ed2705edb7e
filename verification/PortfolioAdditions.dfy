/** What adding a position does to the others: nothing to strangers, at most rounding on a shared route. */
module PortfolioAdditions {
  import opened Wrappers
  import opened Arithmetic
  import opened PortfolioModel
  import opened PortfolioSums
  import opened PortfolioCaps
  import opened PortfolioTightening

  // ---------------------------------------------------------------------------- an unrelated position

  /** The two positions share no group in any dimension. */
  predicate Unrelated(r: Record, added: Record) {
    forall d: Dimension :: KindIn(r, d) == NoGroup || KeyIn(added, d) != KeyIn(r, d)
  }

  lemma AllowedGrows(base: nat, base': nat, policy: Policy, d: Dimension, kind: GroupKind, depth: Option<nat>)
    requires PolicyValid(policy) && base <= base'
    ensures Allowed(base, policy, d, kind, depth) <= Allowed(base', policy, d, kind, depth)
  {
    MulLe(base, base', CapBps(policy, d, kind));
    FloorMono(base * CapBps(policy, d, kind), base' * CapBps(policy, d, kind), BPS);
  }

  lemma GroupWithoutTheAdded(rs: seq<Record>, added: Record, d: Dimension, key: string)
    requires KeyIn(added, d) != key
    ensures LastKind(rs + [added], d, key) == LastKind(rs, d, key)
    ensures GroupTotal(rs + [added], d, key) == GroupTotal(rs, d, key)
    ensures d == Liquidity ==> RouteDepth(rs + [added], key) == RouteDepth(rs, key)
  {
    assert (rs + [added])[..|rs|] == rs;
  }

  lemma DimensionScaleGrows(rs: seq<Record>, added: Record, policy: Policy, d: Dimension, r: Record)
    requires PolicyValid(policy) && AllReservedFree(rs + [added]) && r in rs && Unrelated(r, added)
    ensures DimensionScale(rs, Base(rs), policy, d, r) <= DimensionScale(rs + [added], Base(rs + [added]), policy, d, r)
  {
    var key, rs' := KeyIn(r, d), rs + [added];
    assert r in rs';
    LastKindIsOwnKind(rs', d, r);
    if KindIn(r, d) != NoGroup {
      GroupWithoutTheAdded(rs, added, d, key);
      SumConcat(rs, [added], Recognized());
      AllowedGrows(Base(rs), Base(rs'), policy, d, KindIn(r, d), RouteDepth(rs, key));
      var depth, depth' := RouteDepth(rs, key), RouteDepth(rs', key);
      assert Allowed(Base(rs'), policy, d, KindIn(r, d), depth) == Allowed(Base(rs'), policy, d, KindIn(r, d), depth');
      ScaledMono(Allowed(Base(rs'), policy, d, KindIn(r, d), depth'), GroupTotal(rs', d, key),
                 Allowed(Base(rs), policy, d, KindIn(r, d), depth), GroupTotal(rs, d, key));
    }
  }

  lemma WorkingGrows(rs: seq<Record>, added: Record, policy: Policy, r: Record)
    requires PolicyValid(policy) && AllReservedFree(rs + [added]) && r in rs && Unrelated(r, added)
    ensures WorkingOf(rs, policy, r) <= WorkingOf(rs + [added], policy, r)
  {
    var rs' := rs + [added];
    forall d: Dimension
      ensures DimensionScale(rs, Base(rs), policy, d, r) <= DimensionScale(rs', Base(rs'), policy, d, r)
    {
      DimensionScaleGrows(rs, added, policy, d, r);
    }
    ScaleNoMore(rs', Base(rs'), policy, r, rs, Base(rs), policy, r, |DIMENSIONS|);
    WorkingFollowsScale(r.recognized, PositionScale(rs', Base(rs'), policy, r), PositionScale(rs, Base(rs), policy, r));
  }

  lemma PartialSum(rs: seq<Record>, added: Record, f: Record -> nat, g: Record -> nat)
    requires forall i :: 0 <= i < |rs| ==> f(rs[i]) <= g(rs[i])
    ensures Sum(rs, f) <= Sum(rs + [added], g)
  {
    SumMono(rs, f, g);
    SumConcat(rs, [added], g);
  }

  /** A position that shares no group with the others costs none of them anything, nor the portfolio. */
  lemma UnrelatedAdditionNeverHurts(rs: seq<Record>, added: Record, policy: Policy)
    requires PolicyValid(policy) && HaircutsValid(policy) && AllReservedFree(rs + [added])
    requires forall i :: 0 <= i < |rs| ==> Unrelated(rs[i], added)
    ensures forall i :: 0 <= i < |rs| ==> WorkingOf(rs, policy, rs[i]) <= WorkingOf(rs + [added], policy, rs[i])
    ensures PortfolioValue(rs, policy) <= PortfolioValue(rs + [added], policy)
  {
    var rs', v := rs + [added], PortfolioValue(rs, policy);
    forall i | 0 <= i < |rs|
      ensures WorkingOf(rs, policy, rs[i]) <= WorkingOf(rs', policy, rs[i])
      ensures Working(rs, policy)(rs[i]) <= Working(rs', policy)(rs[i])
    {
      WorkingGrows(rs, added, policy, rs[i]);
    }
    ValueOnlyReduces(rs, policy);
    PartialSum(rs, added, Working(rs, policy), Working(rs', policy));
    forall k | 0 <= k < |policy.scenarios|
      ensures v <= Sum(rs', Stressed(rs', policy, policy.scenarios[k]))
    {
      var s := policy.scenarios[k];
      forall i | 0 <= i < |rs|
        ensures Stressed(rs, policy, s)(rs[i]) <= Stressed(rs', policy, s)(rs[i])
      {
        HaircutMono(WorkingOf(rs', policy, rs[i]), WorkingOf(rs, policy, rs[i]), s.haircutBps, s.haircutBps);
      }
      PartialSum(rs, added, Stressed(rs, policy, s), Stressed(rs', policy, s));
    }
    AtMostWorst(rs', policy, |policy.scenarios|, v);
  }

  // -------------------------------------------------------------------------- a position on the route

  /** A route's share of the base and its allowance, before and after a position of value `x` joins it. */
  lemma ShareAfterJoining(base: nat, x: nat, capBps: nat, total: nat)
    requires total <= base
    ensures ((base + x) * capBps / BPS) * total < (base * capBps / BPS + 1) * (total + x) || total + x == 0
  {
    var share, share' := base * capBps / BPS, (base + x) * capBps / BPS;
    FloorBounds(base * capBps, BPS);
    FloorBounds((base + x) * capBps, BPS);
    if 0 < total + x {
      JoinedBase(base, x, total, capBps);
      MulLe(share' * BPS, (base + x) * capBps, total);
      MulLt(base * capBps, (share + 1) * BPS, total + x);
      MulSwap(share', BPS, total);
      MulSwap(share + 1, BPS, total + x);
      MulLtCancel(share' * total, (share + 1) * (total + x), BPS);
    }
  }

  lemma JoinedBase(base: nat, x: nat, total: nat, capBps: nat)
    requires total <= base
    ensures ((base + x) * capBps) * total <= (base * capBps) * (total + x)
  {
    MulLe(total, base, x * capBps);
    MulDist(base, x, capBps);
    MulDist(base * capBps, x * capBps, total);
    MulDist(total, x, base * capBps);
    MulAssoc(base, x, capBps);
    MulSwap(base, capBps, x);
  }

  /** A route's share of the base, and what it may contribute: no more than its depth. */
  function RouteShare(rs: seq<Record>, policy: Policy): nat
    requires PolicyValid(policy)
  {
    FloorBounds(Base(rs) * CapBps(policy, Liquidity, Named), BPS);
    Base(rs) * CapBps(policy, Liquidity, Named) / BPS
  }

  function RouteAllowed(rs: seq<Record>, policy: Policy, key: string): nat
    requires PolicyValid(policy)
  {
    Min(RouteShare(rs, policy), RouteDepth(rs, key).GetOr(0))
  }

  lemma ScaleOnRoute(rs: seq<Record>, policy: Policy, r: Record)
    requires PolicyValid(policy) && AllReservedFree(rs) && r in rs && KindIn(r, Liquidity) == Named
    ensures
      var key := KeyIn(r, Liquidity);
      DimensionScale(rs, Base(rs), policy, Liquidity, r)
      == Scaled(RouteAllowed(rs, policy, key), GroupTotal(rs, Liquidity, key))
  {
    LastKindIsOwnKind(rs, Liquidity, r);
  }

  /**
   * A position added to a declared route, where the declared depth is the route's allowance: no
   * co-member's LIQUIDITY scale rises.
   */
  lemma CoMembersScaleAtTheDepth(rs: seq<Record>, added: Record, policy: Policy, r: Record)
    requires PolicyValid(policy) && AllReservedFree(rs + [added]) && r in rs
    requires KindIn(r, Liquidity) == Named && InGroup(added, Liquidity, KeyIn(r, Liquidity))
    requires RouteDepth(rs, KeyIn(r, Liquidity)).GetOr(0) <= RouteShare(rs, policy)
    ensures DimensionScale(rs + [added], Base(rs + [added]), policy, Liquidity, r)
            <= DimensionScale(rs, Base(rs), policy, Liquidity, r)
  {
    var rs', key := rs + [added], KeyIn(r, Liquidity);
    JoinedRoute(rs, added, r);
    ScaleOnRoute(rs, policy, r);
    ScaleOnRoute(rs', policy, r);
    ScaledMono(RouteAllowed(rs, policy, key), GroupTotal(rs, Liquidity, key),
               RouteAllowed(rs', policy, key), GroupTotal(rs', Liquidity, key));
  }

  /**
   * Where the share of the base is the allowance, the base grows too: the new allowance spread over the
   * new total stays below the old allowance plus one wei spread over the old total.
   */
  lemma CoMembersAllowanceOnTheRoute(rs: seq<Record>, added: Record, policy: Policy, r: Record)
    requires PolicyValid(policy) && AllReservedFree(rs + [added]) && r in rs
    requires KindIn(r, Liquidity) == Named && InGroup(added, Liquidity, KeyIn(r, Liquidity))
    ensures
      var rs', key := rs + [added], KeyIn(r, Liquidity);
      var total, total' := GroupTotal(rs, Liquidity, key), GroupTotal(rs', Liquidity, key);
      RouteAllowed(rs', policy, key) * total < (RouteAllowed(rs, policy, key) + 1) * total' || total' == 0
  {
    var rs', key := rs + [added], KeyIn(r, Liquidity);
    JoinedRoute(rs, added, r);
    TotalWithinBase(rs, Liquidity, key);
    JoiningTheRoute(Base(rs), added.recognized, CapBps(policy, Liquidity, Named), GroupTotal(rs, Liquidity, key),
                    RouteDepth(rs, key).value, RouteDepth(rs', key).value);
  }

  /** What joining does to the route's kind, total and depth, and to the base. */
  lemma JoinedRoute(rs: seq<Record>, added: Record, r: Record)
    requires AllReservedFree(rs + [added]) && r in rs
    requires KindIn(r, Liquidity) == Named && InGroup(added, Liquidity, KeyIn(r, Liquidity))
    ensures
      var rs', key := rs + [added], KeyIn(r, Liquidity);
      && LastKind(rs, Liquidity, key) == Named && LastKind(rs', Liquidity, key) == Named
      && GroupTotal(rs', Liquidity, key) == GroupTotal(rs, Liquidity, key) + added.recognized
      && Base(rs') == Base(rs) + added.recognized
      && RouteDepth(rs, key).Some? && RouteDepth(rs', key).Some?
      && RouteDepth(rs', key).value <= RouteDepth(rs, key).value
  {
    var rs', key := rs + [added], KeyIn(r, Liquidity);
    assert r in rs' && rs'[..|rs|] == rs;
    LastKindIsOwnKind(rs, Liquidity, r);
    LastKindIsOwnKind(rs', Liquidity, r);
    SumConcat(rs, [added], Recognized());
    SumOfOne(added, Recognized());
    MemberDepth(rs, key, r);
  }

  lemma MemberDepth(rs: seq<Record>, key: string, r: Record)
    requires r in rs && InGroup(r, Liquidity, key)
    ensures RouteDepth(rs, key).Some?
  {
    RouteDepthIsLeast(rs, key);
  }

  lemma TotalWithinBase(rs: seq<Record>, d: Dimension, key: string)
    ensures GroupTotal(rs, d, key) <= Base(rs)
  {
    SumMono(rs, RecognizedIn(d, key), Recognized());
  }

  lemma JoiningTheRoute(base: nat, x: nat, capBps: nat, total: nat, depth: nat, depth': nat)
    requires total <= base && depth' <= depth
    ensures
      var allowed, allowed' := Min(base * capBps / BPS, depth), Min((base + x) * capBps / BPS, depth');
      allowed' * total < (allowed + 1) * (total + x) || total + x == 0
  {
    var share, share' := base * capBps / BPS, (base + x) * capBps / BPS;
    FloorBounds(base * capBps, BPS);
    FloorBounds((base + x) * capBps, BPS);
    if depth <= share {
      LessForMore(Min(share', depth'), depth, total, x);
    } else {
      ShareAfterJoining(base, x, capBps, total);
      MulLe(Min(share', depth'), share', total);
    }
  }

  lemma LessForMore(allowed': nat, allowed: nat, total: nat, x: nat)
    requires allowed' <= allowed
    ensures allowed' * total < (allowed + 1) * (total + x) || total + x == 0
  {
    MulLe(allowed', allowed, total);
    MulLe(total, total + x, allowed);
    MulDist(allowed, 1, total + x);
  }

  /**
   * On the route itself, exactly: a co-member's LIQUIDITY scale rises when the route held it back and the
   * new allowance over the new total is the larger quotient.
   */
  lemma JoiningLiftsRouteScaleExactlyWhen(rs: seq<Record>, added: Record, policy: Policy, r: Record)
    requires PolicyValid(policy) && AllReservedFree(rs + [added]) && r in rs
    requires KindIn(r, Liquidity) == Named && InGroup(added, Liquidity, KeyIn(r, Liquidity))
    ensures
      var rs', key := rs + [added], KeyIn(r, Liquidity);
      var total, total' := GroupTotal(rs, Liquidity, key), GroupTotal(rs', Liquidity, key);
      var scale := DimensionScale(rs, Base(rs), policy, Liquidity, r);
      && total <= total'
      && (scale < DimensionScale(rs', Base(rs'), policy, Liquidity, r)
          <==> scale < WAD && 0 < total
               && RouteAllowed(rs, policy, key) * WAD / total < RouteAllowed(rs', policy, key) * WAD / total')
  {
    var rs', key := rs + [added], KeyIn(r, Liquidity);
    JoinedRoute(rs, added, r);
    ScaleOnRoute(rs, policy, r);
    ScaleOnRoute(rs', policy, r);
    LargerQuotient(RouteAllowed(rs, policy, key), GroupTotal(rs, Liquidity, key),
                   RouteAllowed(rs', policy, key), GroupTotal(rs', Liquidity, key));
  }

  lemma LargerQuotient(allowed: nat, total: nat, allowed': nat, total': nat)
    requires total <= total'
    ensures Scaled(allowed, total) < Scaled(allowed', total')
            <==> Scaled(allowed, total) < WAD && 0 < total && allowed * WAD / total < allowed' * WAD / total'
  {
  }

  // ------------------------------------------------------------------------ what a position is worth

  /**
   * Adding any position lifts another one's scale exactly when every constraint on it ends above the old
   * scale: its session and all five of its groups. Only then can its working value rise.
   */
  lemma AdditionLiftsExactlyWhen(rs: seq<Record>, added: Record, policy: Policy, r: Record)
    requires PolicyValid(policy)
    ensures
      var rs', before := rs + [added], PositionScale(rs, Base(rs), policy, r);
      && (before < PositionScale(rs', Base(rs'), policy, r)
          <==> before < SessionScale(policy, r.session)
               && forall d: Dimension :: before < DimensionScale(rs', Base(rs'), policy, d, r))
      && (WorkingOf(rs, policy, r) < WorkingOf(rs', policy, r) ==> before < PositionScale(rs', Base(rs'), policy, r))
  {
    var rs', before := rs + [added], PositionScale(rs, Base(rs), policy, r);
    PositionScaleAboveExactlyWhen(rs', Base(rs'), policy, r, before);
    if PositionScale(rs', Base(rs'), policy, r) <= before {
      WorkingFollowsScale(r.recognized, before, PositionScale(rs', Base(rs'), policy, r));
    }
  }

  /** The position's scale is that of its route, whose allowance is the declared depth. */
  predicate HeldByDepth(rs: seq<Record>, policy: Policy, r: Record)
    requires PolicyValid(policy)
  {
    && KindIn(r, Liquidity) == Named
    && RouteDepth(rs, KeyIn(r, Liquidity)).GetOr(0) <= RouteShare(rs, policy)
    && DimensionScale(rs, Base(rs), policy, Liquidity, r) == PositionScale(rs, Base(rs), policy, r)
  }

  predicate HeldBySession(rs: seq<Record>, policy: Policy, r: Record)
    requires PolicyValid(policy)
  {
    SessionScale(policy, r.session) == PositionScale(rs, Base(rs), policy, r)
  }

  /**
   * A position held back by the declared depth of its route is worth no more when another joins the
   * route, nor is one held back by its session, whatever is added.
   */
  lemma HeldCoMemberNeverGains(rs: seq<Record>, added: Record, policy: Policy, r: Record)
    requires PolicyValid(policy) && AllReservedFree(rs + [added]) && r in rs
    requires (HeldByDepth(rs, policy, r) && InGroup(added, Liquidity, KeyIn(r, Liquidity)))
             || HeldBySession(rs, policy, r)
    ensures PositionScale(rs + [added], Base(rs + [added]), policy, r) <= PositionScale(rs, Base(rs), policy, r)
    ensures WorkingOf(rs + [added], policy, r) <= WorkingOf(rs, policy, r)
  {
    AdditionLiftsExactlyWhen(rs, added, policy, r);
    if !HeldBySession(rs, policy, r) {
      CoMembersScaleAtTheDepth(rs, added, policy, r);
    }
  }
}
