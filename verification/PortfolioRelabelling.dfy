/**
 * Forgetting the groups of some positions in one concentration dimension: when it cannot raise the
 * value, and what exactly happens to the positions that stay behind in a group.
 */
module PortfolioRelabelling {
  import opened Wrappers
  import opened Arithmetic
  import opened PortfolioModel
  import opened PortfolioSums
  import opened PortfolioTightening

  /** The record with its group in `d` forgotten. */
  function Forget(r: Record, d: Dimension): Record {
    r.(groups := match d
                 case Underlying => r.groups.(underlying := None)
                 case Issuer => r.groups.(issuer := None)
                 case Custody => r.groups.(custody := None)
                 case Sector => r.groups.(sector := None)
                 case Liquidity => r.groups.(liquidity := None))
  }

  function ForgetAt(rs: seq<Record>, d: Dimension, who: set<nat>): (rs': seq<Record>)
    ensures |rs'| == |rs|
  {
    seq(|rs|, i requires 0 <= i < |rs| => if i in who then Forget(rs[i], d) else rs[i])
  }

  lemma ForgetOtherDimensions(r: Record, d: Dimension, e: Dimension)
    requires d != e
    ensures GroupId(Forget(r, d).groups, e) == GroupId(r.groups, e)
    ensures KindIn(Forget(r, d), e) == KindIn(r, e) && KeyIn(Forget(r, d), e) == KeyIn(r, e)
  {
  }

  lemma ForgetKeepsOtherGroups(rs: seq<Record>, d: Dimension, who: set<nat>, e: Dimension, key: string)
    requires d != e && d != Liquidity
    ensures LastKind(ForgetAt(rs, d, who), e, key) == LastKind(rs, e, key)
    ensures GroupTotal(ForgetAt(rs, d, who), e, key) == GroupTotal(rs, e, key)
    ensures RouteDepth(ForgetAt(rs, d, who), key) == RouteDepth(rs, key)
  {
    var rs' := ForgetAt(rs, d, who);
    forall i | 0 <= i < |rs|
      ensures Alike(rs[i], rs'[i], e) && Alike(rs[i], rs'[i], Liquidity) && rs'[i].depth == rs[i].depth
    {
      ForgetOtherDimensions(rs[i], d, e);
      ForgetOtherDimensions(rs[i], d, Liquidity);
    }
    AlikeKinds(rs, rs', e, key);
    AlikeTotals(rs, rs', e, key);
    AlikeDepths(rs, rs', key);
  }

  lemma ForgetIsReservedFree(rs: seq<Record>, d: Dimension, who: set<nat>)
    requires AllReservedFree(rs)
    ensures AllReservedFree(ForgetAt(rs, d, who))
  {
    forall i | 0 <= i < |rs|
      ensures ReservedFree(ForgetAt(rs, d, who)[i])
    {
      assert ReservedFree(rs[i]);
      forall e: Dimension | HasGroup(Forget(rs[i], d), e)
        ensures GroupId(Forget(rs[i], d).groups, e) == GroupId(rs[i].groups, e)
      {
        if e != d {
          ForgetOtherDimensions(rs[i], d, e);
        }
      }
    }
  }

  lemma BaseOfForgotten(rs: seq<Record>, d: Dimension, who: set<nat>)
    ensures Base(ForgetAt(rs, d, who)) == Base(rs)
  {
    SameBase(rs, ForgetAt(rs, d, who));
  }

  // ------------------------------------------------------------------------ one position's own group

  /** All members of position i's group forget it. */
  predicate LeftTogether(rs: seq<Record>, d: Dimension, who: set<nat>, i: nat)
    requires i < |rs|
  {
    forall j :: 0 <= j < |rs| && KeyIn(rs[j], d) == KeyIn(rs[i], d) ==> j in who
  }

  /** Each group that is left is left by all its members, or did not bind. */
  predicate LeavesNoBindingGroup(rs: seq<Record>, policy: Policy, d: Dimension, who: set<nat>)
    requires PolicyValid(policy)
  {
    forall i :: i in who && i < |rs| && HasGroup(rs[i], d) ==>
      LeftTogether(rs, d, who, i) || DimensionScale(rs, Base(rs), policy, d, rs[i]) == WAD
  }

  /** Where position i was held back, everyone in its group is afterwards in its group again. */
  lemma GroupStaysTogether(rs: seq<Record>, policy: Policy, d: Dimension, who: set<nat>, i: nat, j: nat)
    requires PolicyValid(policy) && AllReservedFree(rs) && d != Liquidity && i < |rs| && j < |rs|
    requires LeavesNoBindingGroup(rs, policy, d, who) && DimensionScale(rs, Base(rs), policy, d, rs[i]) < WAD
    requires KeyIn(rs[j], d) == KeyIn(rs[i], d)
    ensures KeyIn(ForgetAt(rs, d, who)[j], d) == KeyIn(ForgetAt(rs, d, who)[i], d)
  {
    KeyDeterminesKind(rs[i], rs[j], d);
    assert HasGroup(rs[i], d) && i in who ==> LeftTogether(rs, d, who, i);
    assert HasGroup(rs[j], d) && j in who ==> LeftTogether(rs, d, who, j);
  }

  /** A held-back position's group total does not fall. */
  lemma GroupGrows(rs: seq<Record>, policy: Policy, d: Dimension, who: set<nat>, i: nat)
    requires PolicyValid(policy) && AllReservedFree(rs) && d != Liquidity && i < |rs|
    requires LeavesNoBindingGroup(rs, policy, d, who) && DimensionScale(rs, Base(rs), policy, d, rs[i]) < WAD
    ensures GroupTotal(rs, d, KeyIn(rs[i], d))
            <= GroupTotal(ForgetAt(rs, d, who), d, KeyIn(ForgetAt(rs, d, who)[i], d))
  {
    var rs' := ForgetAt(rs, d, who);
    var key, key' := KeyIn(rs[i], d), KeyIn(rs'[i], d);
    forall j | 0 <= j < |rs|
      ensures RecognizedIn(d, key)(rs[j]) <= RecognizedIn(d, key')(rs'[j])
    {
      if KeyIn(rs[j], d) == key {
        GroupStaysTogether(rs, policy, d, who, i, j);
      }
    }
    SumMonoAcross(rs', rs, RecognizedIn(d, key'), RecognizedIn(d, key));
  }

  lemma AllowedWhenUnknown(base: nat, policy: Policy, d: Dimension, depth: Option<nat>, depth': Option<nat>)
    requires PolicyValid(policy) && d != Liquidity
    ensures Allowed(base, policy, d, Unknown, depth') <= Allowed(base, policy, d, Named, depth)
  {
    var c := CapsOf(policy.caps, d);
    assert CapsValid(c);
    MulLe(c.unknown, c.named, base);
    FloorMono(base * c.unknown, base * c.named, BPS);
  }

  lemma ForgottenScaleInDimension(rs: seq<Record>, policy: Policy, d: Dimension, who: set<nat>, i: nat)
    requires PolicyValid(policy) && AllReservedFree(rs) && d != Liquidity && i < |rs|
    requires LeavesNoBindingGroup(rs, policy, d, who)
    ensures DimensionScale(ForgetAt(rs, d, who), Base(rs), policy, d, ForgetAt(rs, d, who)[i])
            <= DimensionScale(rs, Base(rs), policy, d, rs[i])
  {
    var rs', base := ForgetAt(rs, d, who), Base(rs);
    if DimensionScale(rs, base, policy, d, rs[i]) < WAD {
      var key, key' := KeyIn(rs[i], d), KeyIn(rs'[i], d);
      var kind, kind' := KindIn(rs[i], d), KindIn(rs'[i], d);
      ForgetIsReservedFree(rs, d, who);
      LastKindIsOwnKind(rs, d, rs[i]);
      LastKindIsOwnKind(rs', d, rs'[i]);
      GroupGrows(rs, policy, d, who, i);
      if kind' != kind {
        AllowedWhenUnknown(base, policy, d, RouteDepth(rs, key), RouteDepth(rs', key'));
      }
      ScaledMono(Allowed(base, policy, d, kind, RouteDepth(rs, key)), GroupTotal(rs, d, key),
                 Allowed(base, policy, d, kind', RouteDepth(rs', key')), GroupTotal(rs', d, key'));
    }
  }

  /**
   * A position that stays behind in its named group has a smaller group afterwards. Its scale rises
   * exactly when the group held it back and the smaller total divides the same allowance into more.
   */
  lemma StayingBehindHelpsExactlyWhen(rs: seq<Record>, policy: Policy, d: Dimension, who: set<nat>, i: nat)
    requires PolicyValid(policy) && AllReservedFree(rs) && d != Liquidity
    requires i < |rs| && i !in who && KindIn(rs[i], d) == Named
    ensures
      var rs', key := ForgetAt(rs, d, who), KeyIn(rs[i], d);
      var allowed := Allowed(Base(rs), policy, d, Named, None);
      var total, total' := GroupTotal(rs, d, key), GroupTotal(rs', d, key);
      var scale := DimensionScale(rs, Base(rs), policy, d, rs[i]);
      && total' <= total
      && (scale < DimensionScale(rs', Base(rs), policy, d, rs'[i])
          <==> scale < WAD && (total' == 0 || allowed * WAD / total < allowed * WAD / total'))
  {
    var rs', key := ForgetAt(rs, d, who), KeyIn(rs[i], d);
    ForgetIsReservedFree(rs, d, who);
    LastKindIsOwnKind(rs, d, rs[i]);
    LastKindIsOwnKind(rs', d, rs'[i]);
    LeftGroupShrinks(rs, d, who, key);
    SmallerTotalHelpsExactlyWhen(Allowed(Base(rs), policy, d, Named, None),
                                 GroupTotal(rs, d, key), GroupTotal(rs', d, key));
  }

  /** Leaving can only make a group that is not the unknown one smaller. */
  lemma LeftGroupShrinks(rs: seq<Record>, d: Dimension, who: set<nat>, key: string)
    requires d != Liquidity && key != UnknownKey(d)
    ensures GroupTotal(ForgetAt(rs, d, who), d, key) <= GroupTotal(rs, d, key)
  {
    SumMonoAcross(rs, ForgetAt(rs, d, who), RecognizedIn(d, key), RecognizedIn(d, key));
  }

  lemma SmallerTotalHelpsExactlyWhen(allowed: nat, total: nat, total': nat)
    requires total' <= total
    ensures Scaled(allowed, total) < Scaled(allowed, total')
            <==> Scaled(allowed, total) < WAD && (total' == 0 || allowed * WAD / total < allowed * WAD / total')
  {
  }

  // ------------------------------------------------------------------------------- the scenarios

  /** The scenario names a group that the record has in another dimension. */
  predicate NamedElsewhere(s: Scenario, r: Record, d: Dimension) {
    exists e: Dimension :: e != d && HasGroup(r, e) && GroupId(r.groups, e).value in s.groupIds
  }

  /** A scenario still hits the record exactly when it names its session or a group of another dimension. */
  lemma StillHitExactlyWhen(s: Scenario, r: Record, d: Dimension)
    ensures Hit(s, Forget(r, d)) <==> r.session in s.sessions || NamedElsewhere(s, r, d)
  {
    var r' := Forget(r, d);
    forall e: Dimension | e != d
      ensures HasGroup(r', e) <==> HasGroup(r, e)
      ensures GroupId(r'.groups, e) == GroupId(r.groups, e)
    {
      ForgetOtherDimensions(r, d, e);
    }
    assert !HasGroup(r', d);
  }

  /** No position escapes a scenario by forgetting its group. */
  predicate EscapesNoScenario(rs: seq<Record>, policy: Policy, d: Dimension, who: set<nat>) {
    forall k, i :: 0 <= k < |policy.scenarios| && 0 <= i < |rs| && i in who && Hit(policy.scenarios[k], rs[i]) ==>
      rs[i].session in policy.scenarios[k].sessions || NamedElsewhere(policy.scenarios[k], rs[i], d)
  }

  /** That is so exactly when every scenario still hits every position that it hit. */
  lemma EscapesNoScenarioExactlyWhen(rs: seq<Record>, policy: Policy, d: Dimension, who: set<nat>)
    ensures EscapesNoScenario(rs, policy, d, who)
            <==> forall k :: 0 <= k < |policy.scenarios| ==>
                   HitsAtLeast(rs, ForgetAt(rs, d, who), policy.scenarios[k], policy.scenarios[k])
  {
    forall k, i | 0 <= k < |policy.scenarios| && 0 <= i < |rs|
      ensures Hit(policy.scenarios[k], Forget(rs[i], d))
              <==> rs[i].session in policy.scenarios[k].sessions || NamedElsewhere(policy.scenarios[k], rs[i], d)
    {
      StillHitExactlyWhen(policy.scenarios[k], rs[i], d);
    }
  }

  lemma EscapingNoneIsCovered(rs: seq<Record>, policy: Policy, d: Dimension, who: set<nat>)
    requires EscapesNoScenario(rs, policy, d, who)
    ensures ScenariosCovered(rs, ForgetAt(rs, d, who), policy, policy)
  {
    EscapesNoScenarioExactlyWhen(rs, policy, d, who);
    forall k | 0 <= k < |policy.scenarios|
      ensures Covered(rs, ForgetAt(rs, d, who), policy.scenarios[k], policy)
    {
      assert HitsAtLeast(rs, ForgetAt(rs, d, who), policy.scenarios[k], policy.scenarios[k]);
    }
  }

  // ------------------------------------------------------------------------------- the whole value

  lemma ForgottenScale(rs: seq<Record>, policy: Policy, d: Dimension, who: set<nat>, i: nat)
    requires PolicyValid(policy) && AllReservedFree(rs) && d != Liquidity && i < |rs|
    requires LeavesNoBindingGroup(rs, policy, d, who)
    ensures
      var rs' := ForgetAt(rs, d, who);
      PositionScale(rs', Base(rs'), policy, rs'[i]) <= PositionScale(rs, Base(rs), policy, rs[i])
  {
    var rs', base := ForgetAt(rs, d, who), Base(rs);
    BaseOfForgotten(rs, d, who);
    forall e: Dimension
      ensures DimensionScale(rs', base, policy, e, rs'[i]) <= DimensionScale(rs, base, policy, e, rs[i])
    {
      if e == d {
        ForgottenScaleInDimension(rs, policy, d, who, i);
      } else {
        ForgetOtherDimensions(rs[i], d, e);
        ForgetKeepsOtherGroups(rs, d, who, e, KeyIn(rs[i], e));
      }
    }
    ScaleNoMore(rs, base, policy, rs[i], rs', base, policy, rs'[i], |DIMENSIONS|);
  }

  /**
   * Forgetting the groups of any set of positions in a concentration dimension never raises a scale
   * when it leaves no binding group behind, nor the value when besides no position escapes a scenario,
   * or every scenario has one that hits as it did.
   */
  lemma ForgettingNeverHelps(rs: seq<Record>, policy: Policy, d: Dimension, who: set<nat>)
    requires PolicyValid(policy) && HaircutsValid(policy) && AllReservedFree(rs) && d != Liquidity
    requires LeavesNoBindingGroup(rs, policy, d, who)
    ensures
      var rs' := ForgetAt(rs, d, who);
      && (forall i :: 0 <= i < |rs| ==>
            PositionScale(rs', Base(rs'), policy, rs'[i]) <= PositionScale(rs, Base(rs), policy, rs[i]))
      && (EscapesNoScenario(rs, policy, d, who) || ScenariosCovered(rs, rs', policy, policy) ==>
            PortfolioValue(rs', policy) <= PortfolioValue(rs, policy))
  {
    var rs' := ForgetAt(rs, d, who);
    if EscapesNoScenario(rs, policy, d, who) {
      EscapingNoneIsCovered(rs, policy, d, who);
    }
    forall i | 0 <= i < |rs|
      ensures PositionScale(rs', Base(rs'), policy, rs'[i]) <= PositionScale(rs, Base(rs), policy, rs[i])
      ensures WorkingOf(rs', policy, rs'[i]) <= WorkingOf(rs, policy, rs[i])
    {
      ForgottenScale(rs, policy, d, who, i);
      WorkingFollowsScale(rs[i].recognized, PositionScale(rs, Base(rs), policy, rs[i]),
                          PositionScale(rs', Base(rs'), policy, rs'[i]));
    }
    if ScenariosCovered(rs, rs', policy, policy) {
      assert WorksNoMore(rs, rs', policy, policy);
      ValueNoMore(rs, rs', policy, policy);
    }
  }

  // ------------------------------------------------------------------------------- whole groups

  /** The positions of the named groups. */
  function Members(rs: seq<Record>, d: Dimension, ids: set<string>): set<nat> {
    set i: nat | i < |rs| && HasGroup(rs[i], d) && GroupId(rs[i].groups, d).value in ids
  }

  /** No scenario names one of the groups. */
  predicate Unnamed(policy: Policy, ids: set<string>) {
    forall k :: 0 <= k < |policy.scenarios| ==> forall g :: g in policy.scenarios[k].groupIds ==> g !in ids
  }

  lemma UnnamedGroupsEscapeNothing(rs: seq<Record>, policy: Policy, d: Dimension, ids: set<string>)
    requires Unnamed(policy, ids)
    ensures EscapesNoScenario(rs, policy, d, Members(rs, d, ids))
  {
    var who := Members(rs, d, ids);
    forall k, i | 0 <= k < |policy.scenarios| && 0 <= i < |rs| && i in who && Hit(policy.scenarios[k], rs[i])
      ensures rs[i].session in policy.scenarios[k].sessions || NamedElsewhere(policy.scenarios[k], rs[i], d)
    {
      HitElsewhere(policy.scenarios[k], rs[i], d);
    }
  }

  lemma HitElsewhere(s: Scenario, r: Record, d: Dimension)
    requires Hit(s, r) && (HasGroup(r, d) ==> GroupId(r.groups, d).value !in s.groupIds)
    ensures r.session in s.sessions || NamedElsewhere(s, r, d)
  {
  }

  lemma WholeGroupsLeaveTogether(rs: seq<Record>, policy: Policy, d: Dimension, ids: set<string>)
    requires PolicyValid(policy) && AllReservedFree(rs) && d != Liquidity
    ensures LeavesNoBindingGroup(rs, policy, d, Members(rs, d, ids))
  {
    var who := Members(rs, d, ids);
    forall i | i in who && i < |rs|
      ensures LeftTogether(rs, d, who, i)
    {
      forall j | 0 <= j < |rs| && KeyIn(rs[j], d) == KeyIn(rs[i], d)
        ensures j in who
      {
        KeyDeterminesKind(rs[i], rs[j], d);
      }
    }
  }

  /**
   * Forgetting whole named groups in a concentration dimension never raises a position's scale, nor
   * the value when no scenario names those groups.
   */
  lemma UnknownNeverHelps(rs: seq<Record>, policy: Policy, d: Dimension, ids: set<string>)
    requires PolicyValid(policy) && HaircutsValid(policy) && AllReservedFree(rs) && d != Liquidity
    ensures
      var rs' := ForgetAt(rs, d, Members(rs, d, ids));
      && (forall i :: 0 <= i < |rs| ==>
            PositionScale(rs', Base(rs'), policy, rs'[i]) <= PositionScale(rs, Base(rs), policy, rs[i]))
      && (Unnamed(policy, ids) ==> PortfolioValue(rs', policy) <= PortfolioValue(rs, policy))
  {
    WholeGroupsLeaveTogether(rs, policy, d, ids);
    ForgettingNeverHelps(rs, policy, d, Members(rs, d, ids));
    if Unnamed(policy, ids) {
      UnnamedGroupsEscapeNothing(rs, policy, d, ids);
    }
  }
}
