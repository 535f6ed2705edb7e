/**
 * Portfolios on which a rule of the specification fails: each is one or two holdings of 100 under caps
 * that bind in at most one dimension.
 */
module PortfolioExamples {
  import opened Wrappers
  import opened Arithmetic
  import opened Sequences
  import opened PortfolioModel
  import opened PortfolioSums
  import opened PortfolioCaps
  import opened PortfolioBreakdown
  import opened PortfolioRelabelling

  const WHOLE: Caps := Caps(BPS, BPS)

  /** No scenarios, full sessions, and only ISSUER capped, named groups at 40%, the unknown one at 30%. */
  function IssuerPolicy(): (policy: Policy)
    ensures PolicyValid(policy) && HaircutsValid(policy)
  {
    Policy("p", 1, "t", DimensionCaps(WHOLE, Caps(4000, 3000), WHOLE, WHOLE, WHOLE),
           SessionFactors(10_000, 10_000, 10_000, 10_000, 10_000), [], 10, 10)
  }

  /** The same with no dimension capped. */
  function OpenPolicy(): (policy: Policy)
    ensures PolicyValid(policy) && HaircutsValid(policy)
  {
    IssuerPolicy().(caps := DimensionCaps(WHOLE, WHOLE, WHOLE, WHOLE, WHOLE))
  }

  function Holding(id: string, issuer: Option<string>, route: Option<string>, depth: int): Record {
    Record(id, "", 100, 100, Open, Groups(None, issuer, None, None, route), depth)
  }

  // ----------------------------------------------------------------------- lists of one and of two

  lemma SingleGroups(a: Record, d: Dimension, key: string)
    ensures LastKind([a], d, key) == if KeyIn(a, d) == key then KindIn(a, d) else NoGroup
    ensures GroupTotal([a], d, key) == RecognizedIn(d, key)(a)
    ensures RouteDepth([a], key) == if InGroup(a, Liquidity, key) then Some(a.depth) else None
  {
    assert [a][..0] == [];
    SumOfOne(a, RecognizedIn(d, key));
    assert LastKind([], d, key) == NoGroup && RouteDepth([], key) == None;
  }

  lemma PairGroups(a: Record, b: Record, d: Dimension, key: string)
    ensures LastKind([a, b], d, key) == if KeyIn(b, d) == key then KindIn(b, d) else LastKind([a], d, key)
    ensures GroupTotal([a, b], d, key) == RecognizedIn(d, key)(a) + RecognizedIn(d, key)(b)
    ensures InGroup(a, Liquidity, key) && InGroup(b, Liquidity, key) ==>
      RouteDepth([a, b], key) == Some(Min(a.depth, b.depth))
  {
    assert [a, b][..1] == [a];
    SingleGroups(a, d, key);
    PairSum(a, b, RecognizedIn(d, key));
  }

  lemma PairSum(a: Record, b: Record, f: Record -> nat)
    ensures Sum([a, b], f) == f(a) + f(b)
  {
    assert [a, b][..1] == [a];
    SumOfOne(a, f);
  }

  // ----------------------------------------------------------------------- one binding dimension

  /** A group within the whole base, and within its depth, is not held back. */
  lemma NotHeldBack(rs: seq<Record>, policy: Policy, d: Dimension, r: Record)
    requires PolicyValid(policy)
    requires
      var key := KeyIn(r, d);
      LastKind(rs, d, key) == NoGroup
      || (CapBps(policy, d, LastKind(rs, d, key)) == BPS && GroupTotal(rs, d, key) <= Base(rs)
          && (d == Liquidity ==> GroupTotal(rs, d, key) <= RouteDepth(rs, key).GetOr(0)))
    ensures DimensionScale(rs, Base(rs), policy, d, r) == WAD
  {
    var key := KeyIn(r, d);
    var kind, total := LastKind(rs, d, key), GroupTotal(rs, d, key);
    if kind != NoGroup && total != 0 {
      FloorExact(Base(rs), BPS);
      var allowed := Allowed(Base(rs), policy, d, kind, RouteDepth(rs, key));
      MulLe(total, allowed, WAD);
      FloorAtLeast(allowed * WAD, total, WAD);
    }
  }

  /** When at most one dimension binds, its scale is the position's. */
  lemma {:induction false} OneBinds(rs: seq<Record>, policy: Policy, r: Record, e: Dimension, n: nat)
    requires PolicyValid(policy) && SessionScale(policy, r.session) == WAD && n <= |DIMENSIONS|
    requires forall d: Dimension :: d != e ==> DimensionScale(rs, Base(rs), policy, d, r) == WAD
    ensures ScaleUpTo(rs, Base(rs), policy, r, n)
            == if IndexOfDimension(e) < n then DimensionScale(rs, Base(rs), policy, e, r) else WAD
  {
    if n > 0 {
      OneBinds(rs, policy, r, e, n - 1);
      assert DIMENSIONS[n - 1] == e <==> IndexOfDimension(e) == n - 1;
    }
  }

  lemma WorkingAt(rs: seq<Record>, policy: Policy, r: Record, e: Dimension, scale: nat)
    requires PolicyValid(policy) && SessionScale(policy, r.session) == WAD
    requires forall d: Dimension :: d != e ==> DimensionScale(rs, Base(rs), policy, d, r) == WAD
    requires DimensionScale(rs, Base(rs), policy, e, r) == scale
    ensures WorkingOf(rs, policy, r) == r.recognized * scale / WAD
  {
    OneBinds(rs, policy, r, e, |DIMENSIONS|);
  }

  // ------------------------------------------------------------------------ one member made unknown

  predicate IsHolding(r: Record) {
    r == Holding(r.id, r.groups.issuer, r.groups.liquidity, r.depth)
  }

  /** Two holdings on one route deeper than both together, or on none. */
  predicate OnOneDeepRoute(a: Record, b: Record) {
    && IsHolding(a) && IsHolding(b)
    && a.groups.liquidity == b.groups.liquidity
    && (a.groups.liquidity.Some? ==> 200 <= a.depth && 200 <= b.depth)
  }

  lemma PairDoesNotBind(a: Record, b: Record, r: Record, d: Dimension)
    requires d != Issuer && (r == a || r == b)
    requires OnOneDeepRoute(a, b)
    ensures DimensionScale([a, b], Base([a, b]), IssuerPolicy(), d, r) == WAD
  {
    PairSum(a, b, Recognized());
    PairGroups(a, b, d, KeyIn(r, d));
    SingleGroups(a, d, KeyIn(r, d));
    NotHeldBack([a, b], IssuerPolicy(), d, r);
  }

  /** A member of a pair works at its group's allowance spread over the group. */
  lemma PairWorking(a: Record, b: Record, r: Record, allowed: nat, total: nat)
    requires r == a || r == b
    requires OnOneDeepRoute(a, b)
    requires allowed == if KindIn(r, Issuer) == Named then 80 else 60
    requires KindIn(a, Issuer) == KindIn(b, Issuer) || KeyIn(a, Issuer) != KeyIn(b, Issuer)
    requires total == if KeyIn(a, Issuer) == KeyIn(b, Issuer) then 200 else 100
    ensures WorkingOf([a, b], IssuerPolicy(), r) == 100 * (allowed * WAD / total) / WAD
  {
    forall d: Dimension | d != Issuer
      ensures DimensionScale([a, b], Base([a, b]), IssuerPolicy(), d, r) == WAD
    {
      PairDoesNotBind(a, b, r, d);
    }
    PairSum(a, b, Recognized());
    PairGroups(a, b, Issuer, KeyIn(r, Issuer));
    SingleGroups(a, Issuer, KeyIn(r, Issuer));
    assert Allowed(200, IssuerPolicy(), Issuer, KindIn(r, Issuer), RouteDepth([a, b], KeyIn(r, Issuer))) == allowed;
    WorkingAt([a, b], IssuerPolicy(), r, Issuer, allowed * WAD / total);
  }

  /**
   * Forgetting the issuer of one of two holdings, instead of the whole group, raises the value here:
   * the caps then apply to two groups where they applied to one.
   */
  lemma OneForgottenMemberCanHelp()
    ensures PortfolioValue([Holding("x", Some("i"), None, 0), Holding("y", Some("i"), None, 0)], IssuerPolicy()) == 80
    ensures PortfolioValue([Holding("x", Some("i"), None, 0), Holding("y", None, None, 0)], IssuerPolicy()) == 140
  {
    var a, b, c := Holding("x", Some("i"), None, 0), Holding("y", Some("i"), None, 0), Holding("y", None, None, 0);
    PairWorking(a, b, a, 80, 200);
    PairWorking(a, b, b, 80, 200);
    PairSum(a, b, Working([a, b], IssuerPolicy()));
    assert UnknownKey(Issuer)[0] == 'U' && "i"[0] == 'i';
    PairWorking(a, c, a, 80, 100);
    PairWorking(a, c, c, 60, 100);
    PairSum(a, c, Working([a, c], IssuerPolicy()));
  }

  // ------------------------------------------------------------------------ a scenario escaped

  /** No dimension capped, and one scenario halving what is issued by "i". */
  function StressPolicy(): (policy: Policy)
    ensures PolicyValid(policy) && HaircutsValid(policy)
  {
    OpenPolicy().(scenarios := [Scenario("s", 5000, ["i"], [])])
  }

  lemma UncappedWorking(a: Record, policy: Policy)
    requires policy == StressPolicy() && a == Holding(a.id, a.groups.issuer, None, 0)
    ensures WorkingOf([a], policy, a) == 100
  {
    SumOfOne(a, Recognized());
    forall d: Dimension
      ensures DimensionScale([a], Base([a]), policy, d, a) == WAD
    {
      SingleGroups(a, d, KeyIn(a, d));
      NotHeldBack([a], policy, d, a);
    }
    WorkingAt([a], policy, a, Issuer, WAD);
  }

  /** Forgetting a whole group, which leaves no binding group, raises the value when a scenario named it. */
  lemma EscapingAScenarioCanHelp()
    ensures
      var a, b := Holding("x", Some("i"), None, 0), Holding("x", None, None, 0);
      ForgetAt([a], Issuer, {0}) == [b] && LeavesNoBindingGroup([a], StressPolicy(), Issuer, {0})
    ensures PortfolioValue([Holding("x", Some("i"), None, 0)], StressPolicy()) == 50
    ensures PortfolioValue([Holding("x", None, None, 0)], StressPolicy()) == 100
  {
    var a, b, policy := Holding("x", Some("i"), None, 0), Holding("x", None, None, 0), StressPolicy();
    UncappedWorking(a, policy);
    UncappedWorking(b, policy);
    var s := policy.scenarios[0];
    assert HasGroup(a, Issuer) && GroupId(a.groups, Issuer).value in s.groupIds;
    SumOfOne(a, Working([a], policy));
    SumOfOne(b, Working([b], policy));
    SumOfOne(a, Stressed([a], policy, s));
    SumOfOne(b, Stressed([b], policy, s));
    assert WorstOf([a], policy, 1) == Min(WorstOf([a], policy, 0), Sum([a], Stressed([a], policy, s)));
    assert WorstOf([b], policy, 1) == Min(WorstOf([b], policy, 0), Sum([b], Stressed([b], policy, s)));
  }

  // ------------------------------------------------------------------------- an undeclared route

  lemma SingleValue(a: Record, policy: Policy, scale: nat)
    requires policy == OpenPolicy() && a == Holding(a.id, None, a.groups.liquidity, a.depth)
    requires DimensionScale([a], 100, policy, Liquidity, a) == scale
    ensures PortfolioValue([a], policy) == 100 * scale / WAD
  {
    SumOfOne(a, Recognized());
    forall d: Dimension | d != Liquidity
      ensures DimensionScale([a], Base([a]), policy, d, a) == WAD
    {
      SingleGroups(a, d, KeyIn(a, d));
      NotHeldBack([a], policy, d, a);
    }
    WorkingAt([a], policy, a, Liquidity, scale);
    SumOfOne(a, Working([a], policy));
  }

  /** Lowering a depth of 10 to zero undeclares the route and frees the position: 10 becomes 100. */
  lemma UndeclaringARouteCanHelp()
    ensures PortfolioValue([Holding("x", None, Some("r"), 10)], OpenPolicy()) == 10
    ensures PortfolioValue([Holding("x", None, Some("r"), 0)], OpenPolicy()) == 100
  {
    var a, b := Holding("x", None, Some("r"), 10), Holding("x", None, Some("r"), 0);
    SingleGroups(a, Liquidity, "r");
    SingleValue(a, OpenPolicy(), WAD / 10);
    SingleGroups(b, Liquidity, NONE_KEY);
    SingleValue(b, OpenPolicy(), WAD);
  }

  // --------------------------------------------------------------------- a position on the same route

  lemma AloneOnTheRoute(a: Record)
    requires a == Holding(a.id, Some("i"), Some("r"), 1000)
    ensures WorkingOf([a], IssuerPolicy(), a) == 40
  {
    SumOfOne(a, Recognized());
    forall d: Dimension | d != Issuer
      ensures DimensionScale([a], Base([a]), IssuerPolicy(), d, a) == WAD
    {
      SingleGroups(a, d, KeyIn(a, d));
      NotHeldBack([a], IssuerPolicy(), d, a);
    }
    SingleGroups(a, Issuer, "i");
    WorkingAt([a], IssuerPolicy(), a, Issuer, 40 * WAD / 100);
  }

  /** A second position on the same route lifts the first one's working value from 40 to 80. */
  lemma CoMemberCanGain()
    ensures
      var a, b := Holding("x", Some("i"), Some("r"), 1000), Holding("y", Some("j"), Some("r"), 1000);
      && WorkingOf([a], IssuerPolicy(), a) == 40
      && WorkingOf([a] + [b], IssuerPolicy(), a) == 80
  {
    var a, b := Holding("x", Some("i"), Some("r"), 1000), Holding("y", Some("j"), Some("r"), 1000);
    AloneOnTheRoute(a);
    assert "i"[0] == 'i' && "j"[0] == 'j' && [a] + [b] == [a, b];
    PairWorking(a, b, a, 80, 100);
  }

  // ------------------------------------------------------------------------- the breakdown reordered

  lemma TwoIssuersBind(a: Record, b: Record)
    requires OnOneDeepRoute(a, b) && KindIn(a, Issuer) == Named && KindIn(b, Issuer) == Named
    requires KeyIn(a, Issuer) != KeyIn(b, Issuer)
    ensures BindingGroups([a, b], IssuerPolicy(), Issuer) == [KeyIn(a, Issuer), KeyIn(b, Issuer)]
  {
    PairSum(a, b, Recognized());
    forall r | r == a || r == b
      ensures DimensionScale([a, b], Base([a, b]), IssuerPolicy(), Issuer, r) < WAD
    {
      PairGroups(a, b, Issuer, KeyIn(r, Issuer));
      SingleGroups(a, Issuer, KeyIn(r, Issuer));
      assert Allowed(200, IssuerPolicy(), Issuer, Named, RouteDepth([a, b], KeyIn(r, Issuer))) == 80;
    }
    var labels := Map(OverKey([a, b], IssuerPolicy(), Issuer), [a, b]);
    TwoFirsts(labels, KeyIn(a, Issuer), KeyIn(b, Issuer));
  }

  lemma TwoFirsts(labels: seq<Option<string>>, x: string, y: string)
    requires labels == [Some(x), Some(y)] && x != y
    ensures Firsts(labels) == [x, y]
  {
    assert labels[..1] == [Some(x)] && labels[..1][..0] == [];
    assert Firsts(labels[..1]) == [x];
  }

  /** Two binding issuers are listed in the order of the positions, so reordering changes the breakdown. */
  lemma ReorderingReordersGroups()
    ensures
      var a, b := Holding("x", Some("i"), None, 0), Holding("y", Some("j"), None, 0);
      && BindingGroups([a, b], IssuerPolicy(), Issuer) == ["i", "j"]
      && BindingGroups([b, a], IssuerPolicy(), Issuer) == ["j", "i"]
  {
    var a, b := Holding("x", Some("i"), None, 0), Holding("y", Some("j"), None, 0);
    assert "i"[0] == 'i' && "j"[0] == 'j';
    TwoIssuersBind(a, b);
    TwoIssuersBind(b, a);
  }

  /** The same with short factors outside regular hours and no dimension capped. */
  function HoursPolicy(): (policy: Policy)
    ensures PolicyValid(policy) && HaircutsValid(policy)
  {
    OpenPolicy().(sessionFactors := SessionFactors(10_000, 8_000, 8_000, 5_000, 3_000))
  }

  /** A holding of 100 in a closed session works at the factor of that session, one half. */
  lemma ClosedSessionHalves()
    ensures PortfolioValue([Holding("x", None, None, 0).(session := Closed)], HoursPolicy()) == 50
  {
    var a, policy := Holding("x", None, None, 0).(session := Closed), HoursPolicy();
    SumOfOne(a, Recognized());
    forall d: Dimension
      ensures DimensionScale([a], Base([a]), policy, d, a) == WAD
    {
      SingleGroups(a, d, KeyIn(a, d));
      NotHeldBack([a], policy, d, a);
    }
    assert SessionScale(policy, Closed) == WAD / 2;
    ScaleAtLeast([a], Base([a]), policy, a, |DIMENSIONS|, WAD / 2);
    PositionScaleAtMost([a], Base([a]), policy, a, Issuer);
    SumOfOne(a, Working([a], policy));
  }

  /** Two short sessions are listed in the order of the positions too, though no group binds. */
  lemma ReorderingReordersSessions()
    ensures
      var a, b := Holding("x", None, None, 0).(session := Closed), Holding("y", None, None, 0).(session := PreMarket);
      && SessionPart([a, b], HoursPolicy()).groups == ["CLOSED", "PRE_MARKET"]
      && SessionPart([b, a], HoursPolicy()).groups == ["PRE_MARKET", "CLOSED"]
  {
    var a, b := Holding("x", None, None, 0).(session := Closed), Holding("y", None, None, 0).(session := PreMarket);
    assert |"CLOSED"| != |"PRE_MARKET"|;
    var f := ShortSession(HoursPolicy());
    assert Map(f, [a, b]) == [Some("CLOSED"), Some("PRE_MARKET")];
    assert Map(f, [b, a]) == [Some("PRE_MARKET"), Some("CLOSED")];
    TwoFirsts(Map(f, [a, b]), "CLOSED", "PRE_MARKET");
    TwoFirsts(Map(f, [b, a]), "PRE_MARKET", "CLOSED");
  }
}
