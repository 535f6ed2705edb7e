/** Every concentration cap and every declared depth holds at once, and the value only ever reduces. */
module PortfolioCaps {
  import opened Arithmetic
  import opened PortfolioModel
  import opened PortfolioSums

  /** A position never works at more than the scale of any of its groups. */
  lemma ScaleAtMostEach(rs: seq<Record>, base: nat, policy: Policy, r: Record, n: nat, k: nat)
    requires PolicyValid(policy) && k < n <= |DIMENSIONS|
    ensures ScaleUpTo(rs, base, policy, r, n) <= DimensionScale(rs, base, policy, DIMENSIONS[k], r)
    ensures ScaleUpTo(rs, base, policy, r, n) <= SessionScale(policy, r.session)
    decreases n
  {
    if k < n - 1 {
      ScaleAtMostEach(rs, base, policy, r, n - 1, k);
    } else if 0 < n - 1 {
      ScaleAtMostEach(rs, base, policy, r, n - 1, 0);
    }
  }

  function IndexOfDimension(d: Dimension): (k: nat)
    ensures k < |DIMENSIONS| && DIMENSIONS[k] == d
  {
    match d
    case Underlying => 0
    case Issuer => 1
    case Custody => 2
    case Sector => 3
    case Liquidity => 4
  }

  lemma PositionScaleAtMost(rs: seq<Record>, base: nat, policy: Policy, r: Record, d: Dimension)
    requires PolicyValid(policy)
    ensures PositionScale(rs, base, policy, r) <= DimensionScale(rs, base, policy, d, r)
    ensures PositionScale(rs, base, policy, r) <= SessionScale(policy, r.session)
  {
    ScaleAtMostEach(rs, base, policy, r, |DIMENSIONS|, IndexOfDimension(d));
  }

  lemma {:induction false} ScaleAtLeast(rs: seq<Record>, base: nat, policy: Policy, r: Record, n: nat, v: nat)
    requires PolicyValid(policy) && n <= |DIMENSIONS|
    requires v <= SessionScale(policy, r.session)
    requires forall d: Dimension :: v <= DimensionScale(rs, base, policy, d, r)
    ensures v <= ScaleUpTo(rs, base, policy, r, n)
    decreases n
  {
    if n > 0 {
      ScaleAtLeast(rs, base, policy, r, n - 1, v);
    }
  }

  /** A position's scale exceeds a bound exactly when its session's and all its groups' scales do. */
  lemma PositionScaleAboveExactlyWhen(rs: seq<Record>, base: nat, policy: Policy, r: Record, v: nat)
    requires PolicyValid(policy)
    ensures v < PositionScale(rs, base, policy, r)
            <==> v < SessionScale(policy, r.session)
                 && forall d: Dimension :: v < DimensionScale(rs, base, policy, d, r)
  {
    forall d: Dimension
      ensures PositionScale(rs, base, policy, r) <= DimensionScale(rs, base, policy, d, r)
      ensures PositionScale(rs, base, policy, r) <= SessionScale(policy, r.session)
    {
      PositionScaleAtMost(rs, base, policy, r, d);
    }
    PositionScaleAtMost(rs, base, policy, r, Underlying);
    if v < SessionScale(policy, r.session) && forall d: Dimension :: v < DimensionScale(rs, base, policy, d, r) {
      ScaleAtLeast(rs, base, policy, r, |DIMENSIONS|, v + 1);
    }
  }

  /** The working value of a position within one group, zero outside it. */
  function WorkingIn(rs: seq<Record>, policy: Policy, d: Dimension, key: string): Record -> nat
    requires PolicyValid(policy)
  {
    (r: Record) => if InGroup(r, d, key) then WorkingOf(rs, policy, r) else 0
  }

  lemma ScaledTotalFits(allowed: nat, total: nat)
    ensures total * Scaled(allowed, total) <= allowed * WAD
  {
    if total != 0 {
      FloorBounds(allowed * WAD, total);
      MulLe(Scaled(allowed, total), allowed * WAD / total, total);
    }
  }

  /**
   * In every dimension and for every group key, the members together work at no more than the group
   * is allowed: its share of the base, and on a route also the smallest depth declared there.
   */
  lemma EveryCapHolds(rs: seq<Record>, policy: Policy, d: Dimension, key: string)
    requires PolicyValid(policy) && (d == Liquidity ==> key != NONE_KEY)
    ensures Sum(rs, WorkingIn(rs, policy, d, key))
            <= Allowed(Base(rs), policy, d, LastKind(rs, d, key), RouteDepth(rs, key))
  {
    var kind, base := LastKind(rs, d, key), Base(rs);
    var allowed, total := Allowed(base, policy, d, kind, RouteDepth(rs, key)), GroupTotal(rs, d, key);
    var s := Scaled(allowed, total);
    forall i | 0 <= i < |rs|
      ensures WorkingIn(rs, policy, d, key)(rs[i]) * WAD <= RecognizedIn(d, key)(rs[i]) * s
    {
      MemberScaled(rs, policy, d, key, i);
    }
    SumScaled(rs, WorkingIn(rs, policy, d, key), RecognizedIn(d, key), WAD, s);
    ScaledTotalFits(allowed, total);
    MulLeCancel(Sum(rs, WorkingIn(rs, policy, d, key)), allowed, WAD);
  }

  lemma FlooredShareTimesWhole(recognized: nat, scale: nat, bound: nat)
    requires scale <= bound
    ensures (recognized * scale / WAD) * WAD <= recognized * bound
  {
    FloorBounds(recognized * scale, WAD);
    MulLe(scale, bound, recognized);
  }

  lemma MemberScaled(rs: seq<Record>, policy: Policy, d: Dimension, key: string, i: nat)
    requires PolicyValid(policy) && (d == Liquidity ==> key != NONE_KEY) && i < |rs|
    ensures WorkingIn(rs, policy, d, key)(rs[i]) * WAD
            <= RecognizedIn(d, key)(rs[i])
               * Scaled(Allowed(Base(rs), policy, d, LastKind(rs, d, key), RouteDepth(rs, key)), GroupTotal(rs, d, key))
  {
    var r := rs[i];
    if InGroup(r, d, key) {
      GroupOfMember(rs, d, key, i);
      PositionScaleAtMost(rs, Base(rs), policy, r, d);
      FlooredShareTimesWhole(r.recognized, PositionScale(rs, Base(rs), policy, r),
                             GroupScale(rs, Base(rs), policy, d, key));
    }
  }

  /** A key somebody belongs to is kept as a group. */
  lemma GroupOfMember(rs: seq<Record>, d: Dimension, key: string, i: nat)
    requires (d == Liquidity ==> key != NONE_KEY) && i < |rs| && InGroup(rs[i], d, key)
    ensures LastKind(rs, d, key) != NoGroup
  {
    LastKindIsSomeones(rs, d, key, i);
  }

  /** In the group's own terms, when no group id is reserved: the cap of its kind, and its depth. */
  lemma CapOfEachGroupHolds(rs: seq<Record>, policy: Policy, d: Dimension, i: nat)
    requires PolicyValid(policy) && AllReservedFree(rs) && i < |rs| && KindIn(rs[i], d) != NoGroup
    ensures
      var total := Sum(rs, WorkingIn(rs, policy, d, KeyIn(rs[i], d)));
      && total * BPS <= Base(rs) * CapBps(policy, d, KindIn(rs[i], d))
      && (d == Liquidity ==> forall j :: 0 <= j < |rs| && InGroup(rs[j], d, KeyIn(rs[i], d)) ==> total <= rs[j].depth)
  {
    var key := KeyIn(rs[i], d);
    EveryCapHolds(rs, policy, d, key);
    LastKindIsOwnKind(rs, d, rs[i]);
    FloorBounds(Base(rs) * CapBps(policy, d, KindIn(rs[i], d)), BPS);
    RouteDepthIsLeast(rs, key);
    MulLe(Sum(rs, WorkingIn(rs, policy, d, key)), Base(rs) * CapBps(policy, d, KindIn(rs[i], d)) / BPS, BPS);
  }

  lemma {:induction false} WorstIsLeast(rs: seq<Record>, policy: Policy, n: nat, k: nat)
    requires PolicyValid(policy) && HaircutsValid(policy) && n <= |policy.scenarios|
    ensures WorstOf(rs, policy, n) <= Sum(rs, Working(rs, policy))
    ensures k < n ==> WorstOf(rs, policy, n) <= Sum(rs, Stressed(rs, policy, policy.scenarios[k]))
  {
    if n > 0 {
      WorstIsLeast(rs, policy, n - 1, k);
    }
  }

  /** The value never exceeds what the parts are recognised at, nor any scenario's stressed value. */
  lemma ValueOnlyReduces(rs: seq<Record>, policy: Policy)
    requires PolicyValid(policy) && HaircutsValid(policy)
    ensures PortfolioValue(rs, policy) <= Sum(rs, Working(rs, policy)) <= Base(rs)
    ensures forall k :: 0 <= k < |policy.scenarios| ==>
      PortfolioValue(rs, policy) <= Sum(rs, Stressed(rs, policy, policy.scenarios[k]))
  {
    forall i | 0 <= i < |rs|
      ensures Working(rs, policy)(rs[i]) <= Recognized()(rs[i])
    {
      FloorShare(rs[i].recognized, PositionScale(rs, Base(rs), policy, rs[i]), WAD);
    }
    SumMono(rs, Working(rs, policy), Recognized());
    WorstIsLeast(rs, policy, |policy.scenarios|, 0);
    forall k | 0 <= k < |policy.scenarios|
      ensures PortfolioValue(rs, policy) <= Sum(rs, Stressed(rs, policy, policy.scenarios[k]))
    {
      WorstIsLeast(rs, policy, |policy.scenarios|, k);
    }
  }
}
