/** Comparing two portfolio values position by position; tightening a policy never raises the value. */
module PortfolioTightening {
  import opened Wrappers
  import opened Arithmetic
  import opened PortfolioModel
  import opened PortfolioCaps

  // ------------------------------------------------------------------------------ comparing two values

  lemma {:induction false} SumMonoAcross(rs: seq<Record>, rs': seq<Record>, f: Record -> nat, f': Record -> nat)
    requires |rs| == |rs'| && forall i :: 0 <= i < |rs| ==> f'(rs'[i]) <= f(rs[i])
    ensures Sum(rs', f') <= Sum(rs, f)
  {
    if rs != [] {
      SumMonoAcross(rs[..|rs| - 1], rs'[..|rs| - 1], f, f');
    }
  }

  lemma {:induction false} AtMostWorst(rs: seq<Record>, policy: Policy, n: nat, v: nat)
    requires PolicyValid(policy) && HaircutsValid(policy) && n <= |policy.scenarios|
    requires v <= Sum(rs, Working(rs, policy))
    requires forall k :: 0 <= k < n ==> v <= Sum(rs, Stressed(rs, policy, policy.scenarios[k]))
    ensures v <= WorstOf(rs, policy, n)
  {
    if n > 0 {
      AtMostWorst(rs, policy, n - 1, v);
    }
  }

  /** `s'` hits every record that `s` hits, position by position, at least as hard. */
  ghost predicate HitsAtLeast(rs: seq<Record>, rs': seq<Record>, s: Scenario, s': Scenario) {
    && s.haircutBps <= s'.haircutBps
    && |rs| == |rs'|
    && forall i :: 0 <= i < |rs| && Hit(s, rs[i]) ==> Hit(s', rs'[i])
  }

  ghost predicate Covered(rs: seq<Record>, rs': seq<Record>, s: Scenario, policy': Policy) {
    exists k' :: 0 <= k' < |policy'.scenarios| && HitsAtLeast(rs, rs', s, policy'.scenarios[k'])
  }

  /** Every scenario has a counterpart that hits at least as much. */
  ghost predicate ScenariosCovered(rs: seq<Record>, rs': seq<Record>, policy: Policy, policy': Policy) {
    forall k :: 0 <= k < |policy.scenarios| ==> Covered(rs, rs', policy.scenarios[k], policy')
  }

  ghost predicate WorksNoMore(rs: seq<Record>, rs': seq<Record>, policy: Policy, policy': Policy)
    requires PolicyValid(policy) && PolicyValid(policy')
  {
    |rs| == |rs'| && forall i :: 0 <= i < |rs| ==> WorkingOf(rs', policy', rs'[i]) <= WorkingOf(rs, policy, rs[i])
  }

  lemma HaircutMono(w: nat, w': nat, bps: nat, bps': nat)
    requires w' <= w && bps <= bps' <= BPS
    ensures Haircut(w', bps') <= Haircut(w, bps)
  {
    MulLe(w', w, BPS - bps');
    MulLe(BPS - bps', BPS - bps, w);
    FloorMono(w' * (BPS - bps'), w * (BPS - bps), BPS);
  }

  lemma StressedNoMore(rs: seq<Record>, rs': seq<Record>, policy: Policy, policy': Policy, s: Scenario, s': Scenario)
    requires PolicyValid(policy) && PolicyValid(policy') && WorksNoMore(rs, rs', policy, policy')
    requires HitsAtLeast(rs, rs', s, s') && s'.haircutBps <= BPS
    ensures Sum(rs', Stressed(rs', policy', s')) <= Sum(rs, Stressed(rs, policy, s))
  {
    forall i | 0 <= i < |rs|
      ensures Stressed(rs', policy', s')(rs'[i]) <= Stressed(rs, policy, s)(rs[i])
    {
      HaircutMono(WorkingOf(rs, policy, rs[i]), WorkingOf(rs', policy', rs'[i]), s.haircutBps, s'.haircutBps);
    }
    SumMonoAcross(rs, rs', Stressed(rs, policy, s), Stressed(rs', policy', s'));
  }

  /** Positions that work no more under scenarios that hit no less are worth no more together. */
  lemma ValueNoMore(rs: seq<Record>, rs': seq<Record>, policy: Policy, policy': Policy)
    requires PolicyValid(policy) && HaircutsValid(policy) && PolicyValid(policy') && HaircutsValid(policy')
    requires WorksNoMore(rs, rs', policy, policy') && ScenariosCovered(rs, rs', policy, policy')
    ensures PortfolioValue(rs', policy') <= PortfolioValue(rs, policy)
  {
    var v := PortfolioValue(rs', policy');
    ValueOnlyReduces(rs', policy');
    forall i | 0 <= i < |rs|
      ensures Working(rs', policy')(rs'[i]) <= Working(rs, policy)(rs[i])
    {
    }
    SumMonoAcross(rs, rs', Working(rs, policy), Working(rs', policy'));
    forall k | 0 <= k < |policy.scenarios|
      ensures v <= Sum(rs, Stressed(rs, policy, policy.scenarios[k]))
    {
      assert Covered(rs, rs', policy.scenarios[k], policy');
      var k' :| 0 <= k' < |policy'.scenarios| && HitsAtLeast(rs, rs', policy.scenarios[k], policy'.scenarios[k']);
      StressedNoMore(rs, rs', policy, policy', policy.scenarios[k], policy'.scenarios[k']);
    }
    AtMostWorst(rs, policy, |policy.scenarios|, v);
  }

  lemma ScaledMono(allowed: nat, total: nat, allowed': nat, total': nat)
    requires allowed' <= allowed && total <= total'
    ensures Scaled(allowed', total') <= Scaled(allowed, total)
  {
    if total != 0 {
      MulLe(allowed', allowed, WAD);
      FloorMono(allowed' * WAD, allowed * WAD, total');
      FloorAnti(allowed * WAD, total, total');
    }
  }

  lemma WorkingFollowsScale(recognized: nat, scale: nat, scale': nat)
    requires scale' <= scale
    ensures recognized * scale' / WAD <= recognized * scale / WAD
  {
    MulLe(scale', scale, recognized);
    FloorMono(recognized * scale', recognized * scale, WAD);
  }

  /** Compared dimension by dimension, and by session, the scale is no larger. */
  lemma {:induction false} ScaleNoMore(rs: seq<Record>, base: nat, policy: Policy, r: Record,
                                       rs': seq<Record>, base': nat, policy': Policy, r': Record, n: nat)
    requires PolicyValid(policy) && PolicyValid(policy') && n <= |DIMENSIONS|
    requires SessionScale(policy', r'.session) <= SessionScale(policy, r.session)
    requires forall d: Dimension :: DimensionScale(rs', base', policy', d, r') <= DimensionScale(rs, base, policy, d, r)
    ensures ScaleUpTo(rs', base', policy', r', n) <= ScaleUpTo(rs, base, policy, r, n)
  {
    if n > 0 {
      ScaleNoMore(rs, base, policy, r, rs', base', policy', r', n - 1);
    }
  }

  // ------------------------------------------------------------------------------ a tighter policy

  /** No cap and no session factor is higher, and every scenario is kept or hardened; more may be added. */
  ghost predicate Tighter(policy: Policy, policy': Policy) {
    && (forall d: Dimension ::
          CapsOf(policy'.caps, d).named <= CapsOf(policy.caps, d).named
          && CapsOf(policy'.caps, d).unknown <= CapsOf(policy.caps, d).unknown)
    && (forall s: Session :: FactorOf(policy'.sessionFactors, s) <= FactorOf(policy.sessionFactors, s))
    && (forall k :: 0 <= k < |policy.scenarios| ==> KeptOrHardened(policy.scenarios[k], policy'))
  }

  predicate KeptOrHardened(s: Scenario, policy': Policy) {
    exists k' :: 0 <= k' < |policy'.scenarios| && Hardened(s, policy'.scenarios[k'])
  }

  predicate Hardened(s: Scenario, s': Scenario) {
    s'.groupIds == s.groupIds && s'.sessions == s.sessions && s.haircutBps <= s'.haircutBps
  }

  lemma AllowedNoMore(base: nat, policy: Policy, policy': Policy, d: Dimension, kind: GroupKind, depth: Option<nat>)
    requires PolicyValid(policy) && PolicyValid(policy') && Tighter(policy, policy')
    ensures Allowed(base, policy', d, kind, depth) <= Allowed(base, policy, d, kind, depth)
  {
    MulLe(CapBps(policy', d, kind), CapBps(policy, d, kind), base);
    FloorMono(base * CapBps(policy', d, kind), base * CapBps(policy, d, kind), BPS);
  }

  lemma SessionNoMore(policy: Policy, policy': Policy, s: Session)
    requires Tighter(policy, policy')
    ensures SessionScale(policy', s) <= SessionScale(policy, s)
  {
    var f, f' := Min(BPS, FactorOf(policy.sessionFactors, s)), Min(BPS, FactorOf(policy'.sessionFactors, s));
    MulLe(f', f, WAD);
    FloorMono(f' * WAD, f * WAD, BPS);
  }

  lemma TighterWorksNoMore(rs: seq<Record>, policy: Policy, policy': Policy)
    requires PolicyValid(policy) && PolicyValid(policy') && Tighter(policy, policy')
    ensures WorksNoMore(rs, rs, policy, policy')
  {
    forall i | 0 <= i < |rs|
      ensures WorkingOf(rs, policy', rs[i]) <= WorkingOf(rs, policy, rs[i])
    {
      var r, base := rs[i], Base(rs);
      SessionNoMore(policy, policy', r.session);
      forall d: Dimension
        ensures DimensionScale(rs, base, policy', d, r) <= DimensionScale(rs, base, policy, d, r)
      {
        var key := KeyIn(r, d);
        var kind, depth := LastKind(rs, d, key), RouteDepth(rs, key);
        AllowedNoMore(base, policy, policy', d, kind, depth);
        ScaledMono(Allowed(base, policy, d, kind, depth), GroupTotal(rs, d, key),
                   Allowed(base, policy', d, kind, depth), GroupTotal(rs, d, key));
      }
      ScaleNoMore(rs, base, policy, r, rs, base, policy', r, |DIMENSIONS|);
      WorkingFollowsScale(r.recognized, PositionScale(rs, base, policy, r), PositionScale(rs, base, policy', r));
    }
  }

  /** Lower caps, lower session factors, harder or more scenarios: never a higher value. */
  lemma TighteningNeverHelps(rs: seq<Record>, policy: Policy, policy': Policy)
    requires PolicyValid(policy) && HaircutsValid(policy) && PolicyValid(policy') && HaircutsValid(policy')
    requires Tighter(policy, policy')
    ensures PortfolioValue(rs, policy') <= PortfolioValue(rs, policy)
  {
    TighterWorksNoMore(rs, policy, policy');
    forall k | 0 <= k < |policy.scenarios|
      ensures Covered(rs, rs, policy.scenarios[k], policy')
    {
      assert KeptOrHardened(policy.scenarios[k], policy');
      var k' :| 0 <= k' < |policy'.scenarios| && Hardened(policy.scenarios[k], policy'.scenarios[k']);
      assert HitsAtLeast(rs, rs, policy.scenarios[k], policy'.scenarios[k']);
    }
    ValueNoMore(rs, rs, policy, policy');
  }

  /** Neither the order of the scenarios nor their repetition matters. */
  lemma ScenarioOrderDoesNotMatter(rs: seq<Record>, policy: Policy, policy': Policy)
    requires PolicyValid(policy) && HaircutsValid(policy)
    requires policy'.caps == policy.caps && policy'.sessionFactors == policy.sessionFactors
    requires forall s :: s in policy'.scenarios <==> s in policy.scenarios
    ensures HaircutsValid(policy') && PortfolioValue(rs, policy') == PortfolioValue(rs, policy)
  {
    forall i | 0 <= i < |policy'.scenarios|
      ensures policy'.scenarios[i].haircutBps <= BPS
    {
      assert policy'.scenarios[i] in policy.scenarios;
    }
    TightenedByItself(policy, policy');
    TightenedByItself(policy', policy);
    TighteningNeverHelps(rs, policy, policy');
    TighteningNeverHelps(rs, policy', policy);
  }

  lemma TightenedByItself(policy: Policy, policy': Policy)
    requires policy'.caps == policy.caps && policy'.sessionFactors == policy.sessionFactors
    requires forall s :: s in policy.scenarios ==> s in policy'.scenarios
    ensures Tighter(policy, policy')
  {
    forall k | 0 <= k < |policy.scenarios|
      ensures KeptOrHardened(policy.scenarios[k], policy')
    {
      assert policy.scenarios[k] in policy'.scenarios;
      var k' :| 0 <= k' < |policy'.scenarios| && policy'.scenarios[k'] == policy.scenarios[k];
      assert Hardened(policy.scenarios[k], policy'.scenarios[k']);
    }
  }
}
