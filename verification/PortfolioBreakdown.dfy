/**
 * packages/portfolio-risk/src/evaluate.ts: which constraint binds a position, what each constraint
 * would take on its own, and what of this report survives a reordering of the positions.
 */
module PortfolioBreakdown {
  import opened Wrappers
  import opened Arithmetic
  import opened Sequences
  import opened PortfolioModel
  import opened PortfolioSums
  import opened PortfolioCaps
  import opened PortfolioInvariance

  datatype Binding = Unbound | BySession | InDimension(d: Dimension) | ByStress

  /** `groups` lists the keys, sessions or scenarios that bind. */
  datatype Reduction = Reduction(kind: Binding, usd18: int, groups: seq<string>)

  // -------------------------------------------------------------------------- what binds a position

  /** The session, or the first of `n` dimensions to bring the scale to where it ends. */
  function BindingUpTo(rs: seq<Record>, base: nat, policy: Policy, r: Record, n: nat): Binding
    requires PolicyValid(policy) && n <= |DIMENSIONS|
  {
    if n == 0 then (if SessionScale(policy, r.session) < WAD then BySession else Unbound)
    else if DimensionScale(rs, base, policy, DIMENSIONS[n - 1], r) < ScaleUpTo(rs, base, policy, r, n - 1)
    then InDimension(DIMENSIONS[n - 1])
    else BindingUpTo(rs, base, policy, r, n - 1)
  }

  function BindingOf(rs: seq<Record>, base: nat, policy: Policy, r: Record): Binding
    requires PolicyValid(policy)
  {
    BindingUpTo(rs, base, policy, r, |DIMENSIONS|)
  }

  /** The group that binds the position, if a dimension does. */
  function BindingGroupOf(r: Record, b: Binding): Option<string> {
    if b.InDimension? then Some(KeyIn(r, b.d)) else None
  }

  /** The scale the named constraint alone would give. */
  function ScaleOf(rs: seq<Record>, base: nat, policy: Policy, r: Record, b: Binding): nat
    requires PolicyValid(policy)
  {
    match b
    case Unbound => WAD
    case BySession => SessionScale(policy, r.session)
    case InDimension(d) => DimensionScale(rs, base, policy, d, r)
    case ByStress => WAD
  }

  lemma {:induction false} BindingExplainsUpTo(rs: seq<Record>, base: nat, policy: Policy, r: Record, n: nat)
    requires PolicyValid(policy) && n <= |DIMENSIONS|
    ensures
      var b := BindingUpTo(rs, base, policy, r, n);
      && b != ByStress
      && ScaleOf(rs, base, policy, r, b) == ScaleUpTo(rs, base, policy, r, n)
      && (b == Unbound <==> ScaleUpTo(rs, base, policy, r, n) == WAD)
  {
    if n > 0 {
      BindingExplainsUpTo(rs, base, policy, r, n - 1);
    }
  }

  /** The reported constraint is one that alone gives the position its scale; none exactly at full scale. */
  lemma BindingExplainsScale(rs: seq<Record>, policy: Policy, r: Record)
    requires PolicyValid(policy)
    ensures
      var b, scale := BindingOf(rs, Base(rs), policy, r), PositionScale(rs, Base(rs), policy, r);
      && ScaleOf(rs, Base(rs), policy, r, b) == scale
      && (b == Unbound <==> scale == WAD)
  {
    BindingExplainsUpTo(rs, Base(rs), policy, r, |DIMENSIONS|);
  }

  // ------------------------------------------------------------------------- standalone reductions

  /** What the position would work at under one dimension alone. */
  function DimensionOnlyOf(rs: seq<Record>, policy: Policy, d: Dimension, r: Record): nat
    requires PolicyValid(policy)
  {
    AtScale(r.recognized, DimensionScale(rs, Base(rs), policy, d, r))
  }

  function DimensionOnly(rs: seq<Record>, policy: Policy, d: Dimension): Record -> nat
    requires PolicyValid(policy)
  {
    (r: Record) => DimensionOnlyOf(rs, policy, d, r)
  }

  function SessionOnlyOf(policy: Policy, r: Record): nat {
    AtScale(r.recognized, SessionScale(policy, r.session))
  }

  function SessionOnly(policy: Policy): Record -> nat {
    (r: Record) => SessionOnlyOf(policy, r)
  }

  function SessionName(s: Session): string {
    match s
    case Open => "OPEN"
    case PreMarket => "PRE_MARKET"
    case PostMarket => "POST_MARKET"
    case Closed => "CLOSED"
    case UnknownSession => "UNKNOWN"
  }

  function OverKey(rs: seq<Record>, policy: Policy, d: Dimension): Record -> Option<string>
    requires PolicyValid(policy)
  {
    (r: Record) => if DimensionScale(rs, Base(rs), policy, d, r) < WAD then Some(KeyIn(r, d)) else None
  }

  function ShortSession(policy: Policy): Record -> Option<string> {
    (r: Record) => if FactorOf(policy.sessionFactors, r.session) < BPS then Some(SessionName(r.session)) else None
  }

  /** The keys that bind in a dimension, in the order in which the positions meet them. */
  function BindingGroups(rs: seq<Record>, policy: Policy, d: Dimension): seq<string>
    requires PolicyValid(policy)
  {
    Firsts(Map(OverKey(rs, policy, d), rs))
  }

  function DimensionPart(rs: seq<Record>, policy: Policy, d: Dimension): Reduction
    requires PolicyValid(policy)
  {
    Reduction(InDimension(d), Base(rs) - Sum(rs, DimensionOnly(rs, policy, d)), BindingGroups(rs, policy, d))
  }

  function SessionPart(rs: seq<Record>, policy: Policy): Reduction {
    Reduction(BySession, Base(rs) - Sum(rs, SessionOnly(policy)), Firsts(Map(ShortSession(policy), rs)))
  }

  function ScenarioIds(policy: Policy): seq<string> {
    seq(|policy.scenarios|, i requires 0 <= i < |policy.scenarios| => policy.scenarios[i].id)
  }

  function StressPart(rs: seq<Record>, policy: Policy): Reduction
    requires PolicyValid(policy) && HaircutsValid(policy)
  {
    var left := Base(rs) - PortfolioValue(rs, policy);
    Reduction(ByStress, if left < 0 then 0 else left, ScenarioIds(policy))
  }

  function Breakdown(rs: seq<Record>, policy: Policy): (parts: seq<Reduction>)
    requires PolicyValid(policy) && HaircutsValid(policy)
    ensures |parts| == |DIMENSIONS| + 2
  {
    seq(|DIMENSIONS|, k requires 0 <= k < |DIMENSIONS| => DimensionPart(rs, policy, DIMENSIONS[k]))
    + [SessionPart(rs, policy), StressPart(rs, policy)]
  }

  /** The first part with the largest reduction, if any reduces at all. */
  function Largest(parts: seq<Reduction>): (Binding, int) {
    if parts == [] then (Unbound, 0)
    else
      var before, last := Largest(parts[..|parts| - 1]), parts[|parts| - 1];
      if last.usd18 > before.1 then (last.kind, last.usd18) else before
  }

  lemma {:induction false} LargestIsFirstLargest(parts: seq<Reduction>)
    ensures 0 <= Largest(parts).1 && forall k :: 0 <= k < |parts| ==> parts[k].usd18 <= Largest(parts).1
    ensures Largest(parts).1 == 0 ==> Largest(parts).0 == Unbound
    ensures Largest(parts).1 > 0 ==>
      exists k :: 0 <= k < |parts| && parts[k].kind == Largest(parts).0 && parts[k].usd18 == Largest(parts).1
                  && forall j :: 0 <= j < k ==> parts[j].usd18 < Largest(parts).1
  {
    if parts != [] {
      var n := |parts| - 1;
      LargestIsFirstLargest(parts[..n]);
      if parts[n].usd18 <= Largest(parts[..n]).1 && Largest(parts[..n]).1 > 0 {
        var k :| 0 <= k < n && parts[..n][k].kind == Largest(parts).0 && parts[..n][k].usd18 == Largest(parts).1
                 && forall j :: 0 <= j < k ==> parts[..n][j].usd18 < Largest(parts).1;
        assert forall j :: 0 <= j < k ==> parts[j] == parts[..n][j];
        assert parts[k] == parts[..n][k];
      } else {
        assert forall j :: 0 <= j < n ==> parts[j] == parts[..n][j];
      }
    }
  }

  /** Every constraint takes something between nothing and the base, and the value bears them all. */
  lemma EveryReductionIsBorne(rs: seq<Record>, policy: Policy, k: nat)
    requires PolicyValid(policy) && HaircutsValid(policy) && k < |Breakdown(rs, policy)|
    ensures 0 <= Breakdown(rs, policy)[k].usd18 <= Base(rs)
    ensures PortfolioValue(rs, policy) <= Base(rs) - Breakdown(rs, policy)[k].usd18
  {
    ValueOnlyReduces(rs, policy);
    if k < |DIMENSIONS| {
      DimensionBearsWorking(rs, policy, DIMENSIONS[k]);
    } else {
      SessionBearsWorking(rs, policy);
    }
  }

  lemma DimensionBearsWorking(rs: seq<Record>, policy: Policy, d: Dimension)
    requires PolicyValid(policy)
    ensures Sum(rs, Working(rs, policy)) <= Sum(rs, DimensionOnly(rs, policy, d)) <= Base(rs)
  {
    forall i | 0 <= i < |rs|
      ensures Working(rs, policy)(rs[i]) <= DimensionOnly(rs, policy, d)(rs[i]) <= Recognized()(rs[i])
    {
      PositionScaleAtMost(rs, Base(rs), policy, rs[i], d);
      ShareMono(rs[i].recognized, PositionScale(rs, Base(rs), policy, rs[i]),
                DimensionScale(rs, Base(rs), policy, d, rs[i]));
    }
    SumMono(rs, Working(rs, policy), DimensionOnly(rs, policy, d));
    SumMono(rs, DimensionOnly(rs, policy, d), Recognized());
  }

  lemma SessionBearsWorking(rs: seq<Record>, policy: Policy)
    requires PolicyValid(policy)
    ensures Sum(rs, Working(rs, policy)) <= Sum(rs, SessionOnly(policy)) <= Base(rs)
  {
    forall i | 0 <= i < |rs|
      ensures Working(rs, policy)(rs[i]) <= SessionOnly(policy)(rs[i]) <= Recognized()(rs[i])
    {
      PositionScaleAtMost(rs, Base(rs), policy, rs[i], Underlying);
      ShareMono(rs[i].recognized, PositionScale(rs, Base(rs), policy, rs[i]), SessionScale(policy, rs[i].session));
    }
    SumMono(rs, Working(rs, policy), SessionOnly(policy));
    SumMono(rs, SessionOnly(policy), Recognized());
  }

  lemma ShareMono(r: nat, s: nat, s': nat)
    requires s <= s' <= WAD
    ensures 0 <= r * s / WAD <= r * s' / WAD <= r
  {
    FloorShare(r, s, WAD);
    FloorShare(r, s', WAD);
    MulLe(s, s', r);
    FloorMono(r * s, r * s', WAD);
  }

  // --------------------------------------------------------------------- what a reordering changes

  lemma OverKeysPermute(xs: seq<Record>, ys: seq<Record>, policy: Policy, d: Dimension)
    requires PolicyValid(policy) && multiset(xs) == multiset(ys) && AllReservedFree(xs)
    ensures multiset(Map(OverKey(xs, policy, d), xs)) == multiset(Map(OverKey(ys, policy, d), ys))
    ensures forall i :: 0 <= i < |ys| ==> OverKey(xs, policy, d)(ys[i]) == OverKey(ys, policy, d)(ys[i])
  {
    SumPermutes(xs, ys, Recognized());
    SameElements(xs, ys);
    forall i | 0 <= i < |ys|
      ensures OverKey(xs, policy, d)(ys[i]) == OverKey(ys, policy, d)(ys[i])
    {
      assert ys[i] in xs;
      DimensionScalePermutes(xs, ys, Base(xs), policy, d, ys[i]);
    }
    MapPermutes(OverKey(xs, policy, d), xs, ys);
    assert Map(OverKey(xs, policy, d), ys) == Map(OverKey(ys, policy, d), ys);
  }

  lemma {:induction false} BindingPermutes(xs: seq<Record>, ys: seq<Record>, base: nat, policy: Policy, r: Record,
                                           n: nat)
    requires PolicyValid(policy) && multiset(xs) == multiset(ys) && n <= |DIMENSIONS|
    requires AllReservedFree(xs) && AllReservedFree(ys) && r in xs && r in ys
    ensures BindingUpTo(xs, base, policy, r, n) == BindingUpTo(ys, base, policy, r, n)
    decreases n
  {
    if n > 0 {
      BindingPermutes(xs, ys, base, policy, r, n - 1);
      ScalePermutes(xs, ys, base, policy, r, n - 1);
      DimensionScalePermutes(xs, ys, base, policy, DIMENSIONS[n - 1], r);
      BindingStep(xs, ys, base, policy, r, n);
    }
  }

  lemma BindingStep(xs: seq<Record>, ys: seq<Record>, base: nat, policy: Policy, r: Record, n: nat)
    requires PolicyValid(policy) && 0 < n <= |DIMENSIONS|
    requires BindingUpTo(xs, base, policy, r, n - 1) == BindingUpTo(ys, base, policy, r, n - 1)
    requires ScaleUpTo(xs, base, policy, r, n - 1) == ScaleUpTo(ys, base, policy, r, n - 1)
    requires DimensionScale(xs, base, policy, DIMENSIONS[n - 1], r)
          == DimensionScale(ys, base, policy, DIMENSIONS[n - 1], r)
    ensures BindingUpTo(xs, base, policy, r, n) == BindingUpTo(ys, base, policy, r, n)
  {
  }

  lemma DimensionOnlyPermutes(xs: seq<Record>, ys: seq<Record>, policy: Policy, d: Dimension)
    requires PolicyValid(policy) && multiset(xs) == multiset(ys) && AllReservedFree(xs)
    ensures Sum(xs, DimensionOnly(xs, policy, d)) == Sum(ys, DimensionOnly(ys, policy, d))
  {
    SumPermutes(xs, ys, Recognized());
    SameElements(xs, ys);
    forall i | 0 <= i < |xs|
      ensures DimensionOnly(xs, policy, d)(xs[i]) == DimensionOnly(ys, policy, d)(xs[i])
    {
      assert xs[i] in ys;
      DimensionScalePermutes(xs, ys, Base(xs), policy, d, xs[i]);
    }
    SumEqual(xs, DimensionOnly(xs, policy, d), DimensionOnly(ys, policy, d));
    SumPermutes(xs, ys, DimensionOnly(ys, policy, d));
  }

  /** The two parts have the same constraint, the same amount and the same groups, in whatever order. */
  ghost predicate SameReduction(a: Reduction, b: Reduction) {
    a.kind == b.kind && a.usd18 == b.usd18 && forall g :: g in a.groups <==> g in b.groups
  }

  lemma PartPermutes(xs: seq<Record>, ys: seq<Record>, policy: Policy, k: nat)
    requires PolicyValid(policy) && HaircutsValid(policy) && k < |DIMENSIONS| + 2
    requires multiset(xs) == multiset(ys) && AllReservedFree(xs)
    ensures SameReduction(Breakdown(xs, policy)[k], Breakdown(ys, policy)[k])
  {
    SumPermutes(xs, ys, Recognized());
    if k < |DIMENSIONS| {
      DimensionOnlyPermutes(xs, ys, policy, DIMENSIONS[k]);
      OverKeysPermute(xs, ys, policy, DIMENSIONS[k]);
      SameFirsts(Map(OverKey(xs, policy, DIMENSIONS[k]), xs), Map(OverKey(ys, policy, DIMENSIONS[k]), ys));
    } else if k == |DIMENSIONS| {
      SumPermutes(xs, ys, SessionOnly(policy));
      MapPermutes(ShortSession(policy), xs, ys);
      SameFirsts(Map(ShortSession(policy), xs), Map(ShortSession(policy), ys));
    } else {
      WorstPermutes(xs, ys, policy, |policy.scenarios|);
    }
  }

  lemma {:induction false} LargestFollows(ps: seq<Reduction>, qs: seq<Reduction>)
    requires |ps| == |qs| && forall k :: 0 <= k < |ps| ==> SameReduction(ps[k], qs[k])
    ensures Largest(ps) == Largest(qs)
  {
    if ps != [] {
      var n := |ps| - 1;
      assert SameReduction(ps[n], qs[n]);
      assert forall k :: 0 <= k < n ==> SameReduction(ps[..n][k], qs[..n][k]);
      LargestFollows(ps[..n], qs[..n]);
    }
  }

  /** Reordering the positions keeps every reduction, its groups as a set, and the binding constraint. */
  lemma BreakdownPermutes(xs: seq<Record>, ys: seq<Record>, policy: Policy)
    requires PolicyValid(policy) && HaircutsValid(policy)
    requires multiset(xs) == multiset(ys) && AllReservedFree(xs)
    ensures forall k :: 0 <= k < |DIMENSIONS| + 2 ==> SameReduction(Breakdown(xs, policy)[k], Breakdown(ys, policy)[k])
    ensures Largest(Breakdown(xs, policy)) == Largest(Breakdown(ys, policy))
  {
    forall k | 0 <= k < |DIMENSIONS| + 2
      ensures SameReduction(Breakdown(xs, policy)[k], Breakdown(ys, policy)[k])
    {
      PartPermutes(xs, ys, policy, k);
    }
    LargestFollows(Breakdown(xs, policy), Breakdown(ys, policy));
  }

  // --------------------------------------------------- when the whole breakdown survives reordering

  /** No two positions held back in the dimension are in different groups. */
  predicate OneGroupBinds(rs: seq<Record>, policy: Policy, d: Dimension)
    requires PolicyValid(policy)
  {
    forall i, j :: 0 <= i < j < |rs| && HeldBack(rs, policy, d, rs[i]) && HeldBack(rs, policy, d, rs[j]) ==>
      KeyIn(rs[i], d) == KeyIn(rs[j], d)
  }

  predicate HeldBack(rs: seq<Record>, policy: Policy, d: Dimension, r: Record)
    requires PolicyValid(policy)
  {
    DimensionScale(rs, Base(rs), policy, d, r) < WAD
  }

  /** No two positions are in different sessions with a factor below one. */
  predicate OneSessionBinds(rs: seq<Record>, policy: Policy) {
    forall i, j :: 0 <= i < j < |rs| && Short(policy, rs[i]) && Short(policy, rs[j]) ==>
      rs[i].session == rs[j].session
  }

  predicate Short(policy: Policy, r: Record) {
    FactorOf(policy.sessionFactors, r.session) < BPS
  }

  predicate OneBindsOfEach(rs: seq<Record>, policy: Policy)
    requires PolicyValid(policy)
  {
    (forall d: Dimension :: OneGroupBinds(rs, policy, d)) && OneSessionBinds(rs, policy)
  }

  lemma OneGroupIsAlike(rs: seq<Record>, policy: Policy, d: Dimension)
    requires PolicyValid(policy)
    ensures OneGroupBinds(rs, policy, d) <==> AllAlike(Map(OverKey(rs, policy, d), rs))
  {
    AlikeLabels(OverKey(rs, policy, d), rs);
  }

  lemma OneSessionIsAlike(rs: seq<Record>, policy: Policy)
    ensures OneSessionBinds(rs, policy) <==> AllAlike(Map(ShortSession(policy), rs))
  {
    AlikeLabels(ShortSession(policy), rs);
    forall s: Session, t: Session | SessionName(s) == SessionName(t)
      ensures s == t
    {
      if s != t {
        NamesDiffer(s, t);
      }
    }
  }

  lemma NamesDiffer(s: Session, t: Session)
    requires s != t
    ensures SessionName(s) != SessionName(t)
  {
    assert |"OPEN"| == 4 && |"PRE_MARKET"| == 10 && |"POST_MARKET"| == 11 && |"CLOSED"| == 6 && |"UNKNOWN"| == 7;
  }

  /** The breakdown is the same, lists included, however the positions are arranged. */
  ghost predicate BreakdownIsStable(rs: seq<Record>, policy: Policy)
    requires PolicyValid(policy) && HaircutsValid(policy)
  {
    forall rs' :: multiset(rs') == multiset(rs) ==> Breakdown(rs', policy) == Breakdown(rs, policy)
  }

  lemma OneOfEachIsStable(rs: seq<Record>, rs': seq<Record>, policy: Policy)
    requires PolicyValid(policy) && HaircutsValid(policy) && AllReservedFree(rs)
    requires multiset(rs') == multiset(rs) && OneBindsOfEach(rs, policy)
    ensures Breakdown(rs', policy) == Breakdown(rs, policy)
  {
    BreakdownPermutes(rs, rs', policy);
    forall k | 0 <= k < |DIMENSIONS| + 2
      ensures Breakdown(rs', policy)[k] == Breakdown(rs, policy)[k]
    {
      assert SameReduction(Breakdown(rs, policy)[k], Breakdown(rs', policy)[k]);
      if k < |DIMENSIONS| {
        OneGroupIsAlike(rs, policy, DIMENSIONS[k]);
        OverKeysPermute(rs, rs', policy, DIMENSIONS[k]);
        OneFirstIsStable(Map(OverKey(rs, policy, DIMENSIONS[k]), rs), Map(OverKey(rs', policy, DIMENSIONS[k]), rs'));
      } else if k == |DIMENSIONS| {
        OneSessionIsAlike(rs, policy);
        MapPermutes(ShortSession(policy), rs, rs');
        OneFirstIsStable(Map(ShortSession(policy), rs), Map(ShortSession(policy), rs'));
      }
    }
  }

  lemma TwoGroupsAreUnstable(rs: seq<Record>, policy: Policy, d: Dimension) returns (rs': seq<Record>)
    requires PolicyValid(policy) && AllReservedFree(rs) && !OneGroupBinds(rs, policy, d)
    ensures multiset(rs') == multiset(rs) && BindingGroups(rs', policy, d) != BindingGroups(rs, policy, d)
  {
    OneGroupIsAlike(rs, policy, d);
    rs' := SecondFirst(OverKey(rs, policy, d), rs);
    OverKeysPermute(rs, rs', policy, d);
    assert Map(OverKey(rs, policy, d), rs') == Map(OverKey(rs', policy, d), rs');
  }

  /** `rs` lists its binding groups in the same order however it is arranged. */
  ghost predicate GroupOrderIsStable(rs: seq<Record>, policy: Policy, d: Dimension)
    requires PolicyValid(policy)
  {
    forall rs' :: multiset(rs') == multiset(rs) ==> BindingGroups(rs', policy, d) == BindingGroups(rs, policy, d)
  }

  /** One dimension's list survives every reordering exactly when at most one of its groups binds. */
  lemma GroupOrderIsStableExactlyWhen(rs: seq<Record>, policy: Policy, d: Dimension)
    requires PolicyValid(policy) && AllReservedFree(rs)
    ensures GroupOrderIsStable(rs, policy, d) <==> OneGroupBinds(rs, policy, d)
    ensures OneGroupBinds(rs, policy, d) <==> |BindingGroups(rs, policy, d)| <= 1
  {
    OneGroupIsAlike(rs, policy, d);
    FewWhenAlike(Map(OverKey(rs, policy, d), rs));
    if OneGroupBinds(rs, policy, d) {
      forall rs' | multiset(rs') == multiset(rs)
        ensures BindingGroups(rs', policy, d) == BindingGroups(rs, policy, d)
      {
        OverKeysPermute(rs, rs', policy, d);
        OneFirstIsStable(Map(OverKey(rs, policy, d), rs), Map(OverKey(rs', policy, d), rs'));
      }
    } else {
      var rs' := TwoGroupsAreUnstable(rs, policy, d);
      assert BindingGroups(rs', policy, d) != BindingGroups(rs, policy, d);
    }
  }

  lemma TwoSessionsAreUnstable(rs: seq<Record>, policy: Policy) returns (rs': seq<Record>)
    requires !OneSessionBinds(rs, policy)
    ensures multiset(rs') == multiset(rs) && SessionPart(rs', policy) != SessionPart(rs, policy)
  {
    OneSessionIsAlike(rs, policy);
    rs' := SecondFirst(ShortSession(policy), rs);
  }

  /**
   * The whole breakdown survives every reordering exactly when in no dimension two positions are held
   * back by different groups, and no two positions are in different sessions with a factor below one.
   */
  lemma BreakdownIsStableExactlyWhen(rs: seq<Record>, policy: Policy)
    requires PolicyValid(policy) && HaircutsValid(policy) && AllReservedFree(rs)
    ensures BreakdownIsStable(rs, policy) <==> OneBindsOfEach(rs, policy)
  {
    if OneBindsOfEach(rs, policy) {
      forall rs' | multiset(rs') == multiset(rs)
        ensures Breakdown(rs', policy) == Breakdown(rs, policy)
      {
        OneOfEachIsStable(rs, rs', policy);
      }
    } else {
      var rs' := AnotherBreakdown(rs, policy);
      assert Breakdown(rs', policy) != Breakdown(rs, policy);
    }
  }

  lemma AnotherBreakdown(rs: seq<Record>, policy: Policy) returns (rs': seq<Record>)
    requires PolicyValid(policy) && HaircutsValid(policy) && AllReservedFree(rs) && !OneBindsOfEach(rs, policy)
    ensures multiset(rs') == multiset(rs) && Breakdown(rs', policy) != Breakdown(rs, policy)
  {
    if d: Dimension :| !OneGroupBinds(rs, policy, d) {
      rs' := TwoGroupsAreUnstable(rs, policy, d);
      DimensionPartIn(rs, policy, d);
      DimensionPartIn(rs', policy, d);
    } else {
      rs' := TwoSessionsAreUnstable(rs, policy);
      assert Breakdown(rs, policy)[|DIMENSIONS|] == SessionPart(rs, policy);
      assert Breakdown(rs', policy)[|DIMENSIONS|] == SessionPart(rs', policy);
    }
  }

  lemma DimensionPartIn(rs: seq<Record>, policy: Policy, d: Dimension)
    requires PolicyValid(policy) && HaircutsValid(policy)
    ensures Breakdown(rs, policy)[IndexOfDimension(d)] == DimensionPart(rs, policy, d)
  {
  }

  /** Without a base there is nothing to break down. */
  function PartsOf(rs: seq<Record>, policy: Policy): seq<Reduction>
    requires PolicyValid(policy) && HaircutsValid(policy)
  {
    if Base(rs) == 0 then [] else Breakdown(rs, policy)
  }

  /** What an evaluation reports survives every reordering exactly then, or when there is no base at all. */
  lemma ReportedBreakdownIsStableExactlyWhen(rs: seq<Record>, policy: Policy)
    requires PolicyValid(policy) && HaircutsValid(policy) && AllReservedFree(rs)
    ensures (forall rs' :: multiset(rs') == multiset(rs) ==> PartsOf(rs', policy) == PartsOf(rs, policy))
            <==> Base(rs) == 0 || OneBindsOfEach(rs, policy)
  {
    forall rs' | multiset(rs') == multiset(rs)
      ensures Base(rs') == Base(rs)
    {
      SumPermutes(rs', rs, Recognized());
    }
    BreakdownIsStableExactlyWhen(rs, policy);
    if Base(rs) != 0 && !OneBindsOfEach(rs, policy) {
      var rs' := AnotherBreakdown(rs, policy);
      assert PartsOf(rs', policy) != PartsOf(rs, policy);
    }
  }
}
