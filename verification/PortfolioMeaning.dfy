/**
 * What a portfolio evaluation reports, in the terms of its input positions and of the policy's own fields:
 * packages/portfolio-risk/src/evaluate.ts read off the numbers, without the functions that compute them.
 */
module PortfolioMeaning {
  import opened Wrappers
  import opened Arithmetic
  import opened PortfolioModel
  import opened PortfolioSums
  import opened PortfolioCaps
  import opened PortfolioBreakdown
  import opened PortfolioEvaluate

  // ------------------------------------------------------------------------------ groups and totals

  /** The group a position names in a dimension; missing, null and empty ones are none. */
  function GroupOf(p: Position, d: Dimension): Option<string> {
    if d in p.groups && p.groups[d].Some? && p.groups[d].value != "" then p.groups[d] else None
  }

  /** The route a position declares: a group with a positive depth. */
  function RouteOf(p: Position): Option<string> {
    if p.depthUsd18.Some? && p.depthUsd18.value > 0 then GroupOf(p, Liquidity) else None
  }

  /** Everyone in the same named group, or everyone in none. */
  function SameGroup(p: Position, d: Dimension): Position -> bool {
    (q: Position) => GroupOf(q, d) == GroupOf(p, d)
  }

  function SameRoute(p: Position): Position -> bool {
    (q: Position) => RouteOf(q) == RouteOf(p)
  }

  function TotalWhere(ps: seq<Position>, keep: Position -> bool): nat {
    if ps == [] then 0
    else TotalWhere(ps[..|ps| - 1], keep) + if keep(ps[|ps| - 1]) then ps[|ps| - 1].recognizedUsd18 else 0
  }

  function Everyone(): Position -> bool {
    (q: Position) => true
  }

  function TotalMarket(ps: seq<Position>): nat {
    if ps == [] then 0 else TotalMarket(ps[..|ps| - 1]) + ps[|ps| - 1].marketUsd18
  }

  lemma {:induction false} TotalsAgree(ps: seq<Position>, keep: Position -> bool, f: Record -> nat)
    requires forall i :: 0 <= i < |ps| ==> f(RecordOf(ps[i])) == if keep(ps[i]) then ps[i].recognizedUsd18 else 0
    ensures Sum(Records(ps), f) == TotalWhere(ps, keep)
  {
    if ps != [] {
      var n := |ps| - 1;
      TotalsAgree(ps[..n], keep, f);
      assert Records(ps)[..n] == Records(ps[..n]);
    }
  }

  lemma {:induction false} MarketsAgree(ps: seq<Position>)
    ensures Sum(Records(ps), Market()) == TotalMarket(ps)
  {
    if ps != [] {
      var n := |ps| - 1;
      MarketsAgree(ps[..n]);
      assert Records(ps)[..n] == Records(ps[..n]);
    }
  }

  lemma BaseIsTotal(ps: seq<Position>)
    ensures Base(Records(ps)) == TotalWhere(ps, Everyone())
  {
    TotalsAgree(ps, Everyone(), Recognized());
  }

  /** The key a position is grouped under: its group, or a made-up one that says what is missing. */
  lemma KeysMean(p: Position)
    ensures KeyIn(RecordOf(p), Underlying) == GroupOf(p, Underlying).GetOr("UNKNOWN_UNDERLYING")
    ensures KeyIn(RecordOf(p), Issuer) == GroupOf(p, Issuer).GetOr("UNKNOWN_ISSUER")
    ensures KeyIn(RecordOf(p), Custody) == GroupOf(p, Custody).GetOr("UNKNOWN_CUSTODY")
    ensures KeyIn(RecordOf(p), Sector) == GroupOf(p, Sector).GetOr("UNKNOWN_SECTOR")
    ensures KeyIn(RecordOf(p), Liquidity) == RouteOf(p).GetOr("NONE")
  {
    assert UnknownKey(Underlying) == "UNKNOWN_UNDERLYING" && UnknownKey(Issuer) == "UNKNOWN_ISSUER";
    assert UnknownKey(Custody) == "UNKNOWN_CUSTODY" && UnknownKey(Sector) == "UNKNOWN_SECTOR";
  }

  lemma GroupIsGroup(p: Position, q: Position, d: Dimension)
    requires ReservedFree(RecordOf(p)) && ReservedFree(RecordOf(q)) && d != Liquidity
    ensures KindIn(RecordOf(p), d) == if GroupOf(p, d).Some? then Named else Unknown
    ensures InGroup(RecordOf(q), d, KeyIn(RecordOf(p), d)) <==> GroupOf(q, d) == GroupOf(p, d)
  {
  }

  lemma RouteIsRoute(p: Position, q: Position)
    requires ReservedFree(RecordOf(p)) && ReservedFree(RecordOf(q))
    ensures KindIn(RecordOf(p), Liquidity) == if RouteOf(p).Some? then Named else NoGroup
    ensures RouteOf(p).Some? ==>
      (InGroup(RecordOf(q), Liquidity, KeyIn(RecordOf(p), Liquidity)) <==> RouteOf(q) == RouteOf(p))
  {
  }

  /** The records that share a key in a dimension are those of the positions kept. */
  predicate KeptInGroup(ps: seq<Position>, keep: Position -> bool, d: Dimension, key: string) {
    forall j :: 0 <= j < |ps| ==> (InGroup(RecordOf(ps[j]), d, key) <==> keep(ps[j]))
  }

  lemma GroupIsKept(ps: seq<Position>, i: nat, d: Dimension)
    requires AllReservedFree(Records(ps)) && i < |ps| && d != Liquidity
    ensures KeptInGroup(ps, SameGroup(ps[i], d), d, KeyIn(RecordOf(ps[i]), d))
  {
    forall j | 0 <= j < |ps|
      ensures InGroup(RecordOf(ps[j]), d, KeyIn(RecordOf(ps[i]), d)) <==> SameGroup(ps[i], d)(ps[j])
    {
      assert ReservedFree(Records(ps)[i]) && ReservedFree(Records(ps)[j]);
      GroupIsGroup(ps[i], ps[j], d);
    }
  }

  lemma RouteIsKept(ps: seq<Position>, i: nat)
    requires AllReservedFree(Records(ps)) && i < |ps| && RouteOf(ps[i]).Some?
    ensures KeptInGroup(ps, SameRoute(ps[i]), Liquidity, KeyIn(RecordOf(ps[i]), Liquidity))
  {
    forall j | 0 <= j < |ps|
      ensures InGroup(RecordOf(ps[j]), Liquidity, KeyIn(RecordOf(ps[i]), Liquidity)) <==> SameRoute(ps[i])(ps[j])
    {
      assert ReservedFree(Records(ps)[i]) && ReservedFree(Records(ps)[j]);
      RouteIsRoute(ps[i], ps[j]);
    }
  }

  lemma KeptTotal(ps: seq<Position>, keep: Position -> bool, d: Dimension, key: string)
    requires KeptInGroup(ps, keep, d, key)
    ensures GroupTotal(Records(ps), d, key) == TotalWhere(ps, keep)
  {
    TotalsAgree(ps, keep, RecognizedIn(d, key));
  }

  lemma GroupTotalIs(ps: seq<Position>, i: nat, d: Dimension)
    requires AllReservedFree(Records(ps)) && i < |ps| && d != Liquidity
    ensures GroupTotal(Records(ps), d, KeyIn(RecordOf(ps[i]), d)) == TotalWhere(ps, SameGroup(ps[i], d))
  {
    GroupIsKept(ps, i, d);
    KeptTotal(ps, SameGroup(ps[i], d), d, KeyIn(RecordOf(ps[i]), d));
  }

  lemma RouteTotalIs(ps: seq<Position>, i: nat)
    requires AllReservedFree(Records(ps)) && i < |ps| && RouteOf(ps[i]).Some?
    ensures GroupTotal(Records(ps), Liquidity, KeyIn(RecordOf(ps[i]), Liquidity))
            == TotalWhere(ps, SameRoute(ps[i]))
  {
    RouteIsKept(ps, i);
    KeptTotal(ps, SameRoute(ps[i]), Liquidity, KeyIn(RecordOf(ps[i]), Liquidity));
  }

  // -------------------------------------------------------------------------- the scale, exactly

  /** A scale within the factor of the position's session. */
  predicate WithinSession(p: Position, f: SessionFactors, s: nat) {
    match p.session
    case Open => s * 10_000 <= f.open * 1_000_000_000_000_000_000
    case PreMarket => s * 10_000 <= f.preMarket * 1_000_000_000_000_000_000
    case PostMarket => s * 10_000 <= f.postMarket * 1_000_000_000_000_000_000
    case Closed => s * 10_000 <= f.closed * 1_000_000_000_000_000_000
    case UnknownSession => s * 10_000 <= f.unknown * 1_000_000_000_000_000_000
  }

  /** A share of the whole portfolio in basis points, rounded down. */
  function ShareOfAll(ps: seq<Position>, bps: int): int {
    TotalWhere(ps, Everyone()) * bps / 10_000
  }

  /** A scale under which the position's group stays within its cap, named or unknown. */
  predicate WithinCap(ps: seq<Position>, p: Position, d: Dimension, caps: Caps, s: nat) {
    s * TotalWhere(ps, SameGroup(p, d))
    <= ShareOfAll(ps, if GroupOf(p, d).Some? then caps.named else caps.unknown) * 1_000_000_000_000_000_000
  }

  /** A scale under which the position's route, if it has one, stays within its cap and every depth on it. */
  predicate WithinRoute(ps: seq<Position>, p: Position, caps: Caps, s: nat) {
    RouteOf(p).Some? ==>
      && s * TotalWhere(ps, SameRoute(p)) <= ShareOfAll(ps, caps.named) * 1_000_000_000_000_000_000
      && forall j :: 0 <= j < |ps| && RouteOf(ps[j]) == RouteOf(p) ==>
           s * TotalWhere(ps, SameRoute(p)) <= ps[j].depthUsd18.value * 1_000_000_000_000_000_000
  }

  /** Every constraint on the position, each with the policy's own field. */
  predicate Tolerated(ps: seq<Position>, p: Position, policy: Policy, s: nat) {
    && s <= 1_000_000_000_000_000_000
    && WithinSession(p, policy.sessionFactors, s)
    && WithinCap(ps, p, Underlying, policy.caps.underlying, s)
    && WithinCap(ps, p, Issuer, policy.caps.issuer, s)
    && WithinCap(ps, p, Custody, policy.caps.custody, s)
    && WithinCap(ps, p, Sector, policy.caps.sector, s)
    && WithinRoute(ps, p, policy.caps.liquidity, s)
  }

  lemma FloorGalois(q: int, x: int, d: int)
    requires 0 < d
    ensures q <= x / d <==> q * d <= x
  {
    FloorBounds(x, d);
    if q <= x / d {
      MulLe(q, x / d, d);
    } else {
      MulLe(x / d + 1, q, d);
      MulDist(x / d, 1, d);
    }
  }

  lemma SessionGalois(p: Position, policy: Policy, s: nat)
    ensures s <= SessionScale(policy, p.session)
            <==> s <= 1_000_000_000_000_000_000 && WithinSession(p, policy.sessionFactors, s)
  {
    var f := FactorOf(policy.sessionFactors, p.session);
    FloorGalois(s, Min(BPS, f) * WAD, BPS);
    MulLe(Min(BPS, f), BPS, WAD);
  }

  lemma ScaledGalois(allowed: nat, total: nat, s: nat)
    ensures s <= Scaled(allowed, total) <==> s <= WAD && s * total <= allowed * WAD
  {
    if total == 0 {
      MulLe(0, allowed, WAD);
    } else {
      FloorGalois(s, allowed * WAD, total);
    }
  }

  lemma CapGalois(ps: seq<Position>, policy: Policy, i: nat, d: Dimension, s: nat)
    requires PolicyValid(policy) && AllReservedFree(Records(ps)) && i < |ps| && d != Liquidity
    ensures s <= DimensionScale(Records(ps), Base(Records(ps)), policy, d, RecordOf(ps[i]))
            <==> s <= WAD && WithinCap(ps, ps[i], d, CapsOf(policy.caps, d), s)
  {
    var rs, r := Records(ps), RecordOf(ps[i]);
    assert rs[i] == r && ReservedFree(rs[i]);
    LastKindIsOwnKind(rs, d, r);
    GroupIsGroup(ps[i], ps[i], d);
    GroupTotalIs(ps, i, d);
    BaseIsTotal(ps);
    ScaledGalois(Allowed(Base(rs), policy, d, KindIn(r, d), RouteDepth(rs, KeyIn(r, d))),
                 GroupTotal(rs, d, KeyIn(r, d)), s);
  }

  /** The least depth on the route, as a bound on `x`. */
  lemma DepthGalois(ps: seq<Position>, i: nat, x: int)
    requires AllReservedFree(Records(ps)) && i < |ps| && RouteOf(ps[i]).Some?
    ensures RouteDepth(Records(ps), KeyIn(RecordOf(ps[i]), Liquidity)).Some?
    ensures x <= RouteDepth(Records(ps), KeyIn(RecordOf(ps[i]), Liquidity)).value * WAD
            <==> forall j :: 0 <= j < |ps| && RouteOf(ps[j]) == RouteOf(ps[i]) ==> x <= ps[j].depthUsd18.value * WAD
  {
    var rs, key := Records(ps), KeyIn(RecordOf(ps[i]), Liquidity);
    RouteDepthIsLeast(rs, key);
    RouteIsKept(ps, i);
    assert forall j :: 0 <= j < |ps| ==> (InGroup(rs[j], Liquidity, key) <==> RouteOf(ps[j]) == RouteOf(ps[i]));
    assert InGroup(rs[i], Liquidity, key);
    var least := RouteDepth(rs, key).value;
    forall j | 0 <= j < |ps| && RouteOf(ps[j]) == RouteOf(ps[i])
      ensures least * WAD <= ps[j].depthUsd18.value * WAD
    {
      assert rs[j].depth == ps[j].depthUsd18.value;
      MulLe(least, ps[j].depthUsd18.value, WAD);
    }
    var k :| 0 <= k < |rs| && InGroup(rs[k], Liquidity, key) && rs[k].depth == least;
    assert RouteOf(ps[k]) == RouteOf(ps[i]) && ps[k].depthUsd18.value == least;
  }

  lemma RouteGalois(ps: seq<Position>, policy: Policy, i: nat, s: nat)
    requires PolicyValid(policy) && AllReservedFree(Records(ps)) && i < |ps|
    ensures s <= DimensionScale(Records(ps), Base(Records(ps)), policy, Liquidity, RecordOf(ps[i]))
            <==> s <= WAD && WithinRoute(ps, ps[i], policy.caps.liquidity, s)
  {
    var rs, r := Records(ps), RecordOf(ps[i]);
    assert rs[i] == r && ReservedFree(rs[i]);
    LastKindIsOwnKind(rs, Liquidity, r);
    RouteIsRoute(ps[i], ps[i]);
    if RouteOf(ps[i]).Some? {
      RouteTotalIs(ps, i);
      BaseIsTotal(ps);
      var key := KeyIn(r, Liquidity);
      var total := GroupTotal(rs, Liquidity, key);
      DepthGalois(ps, i, s * total);
      AllowedOnRouteIs(ps, policy, RouteDepth(rs, key).value);
      ScaledGalois(Allowed(Base(rs), policy, Liquidity, Named, RouteDepth(rs, key)), total, s);
      MinTimes(ShareOfAll(ps, policy.caps.liquidity.named), RouteDepth(rs, key).value, s * total);
    }
  }

  lemma AllowedOnRouteIs(ps: seq<Position>, policy: Policy, depth: nat)
    requires PolicyValid(policy)
    ensures Allowed(Base(Records(ps)), policy, Liquidity, Named, Some(depth))
            == Min(ShareOfAll(ps, policy.caps.liquidity.named), depth)
  {
    BaseIsTotal(ps);
  }

  lemma MinTimes(a: int, b: int, x: int)
    ensures x <= Min(a, b) * WAD <==> x <= a * WAD && x <= b * WAD
  {
    if a < b {
      MulLe(a, b, WAD);
    } else {
      MulLe(b, a, WAD);
    }
  }

  /** The scale of a position is the greatest that its session, its four groups and its route tolerate. */
  lemma ScaleIsGreatestTolerated(ps: seq<Position>, policy: Policy, i: nat, s: nat)
    requires PolicyValid(policy) && AllReservedFree(Records(ps)) && i < |ps|
    ensures s <= PositionScale(Records(ps), Base(Records(ps)), policy, RecordOf(ps[i]))
            <==> Tolerated(ps, ps[i], policy, s)
  {
    var rs, r := Records(ps), RecordOf(ps[i]);
    SessionGalois(ps[i], policy, s);
    CapGalois(ps, policy, i, Underlying, s);
    CapGalois(ps, policy, i, Issuer, s);
    CapGalois(ps, policy, i, Custody, s);
    CapGalois(ps, policy, i, Sector, s);
    RouteGalois(ps, policy, i, s);
    AtMostScaleExactlyWhen(rs, policy, r, s);
  }

  lemma AtMostScaleExactlyWhen(rs: seq<Record>, policy: Policy, r: Record, s: nat)
    requires PolicyValid(policy)
    ensures
      var base := Base(rs);
      s <= PositionScale(rs, base, policy, r)
      <==> s <= SessionScale(policy, r.session)
           && s <= DimensionScale(rs, base, policy, Underlying, r) && s <= DimensionScale(rs, base, policy, Issuer, r)
           && s <= DimensionScale(rs, base, policy, Custody, r) && s <= DimensionScale(rs, base, policy, Sector, r)
           && s <= DimensionScale(rs, base, policy, Liquidity, r)
  {
    var base := Base(rs);
    PositionScaleAtMost(rs, base, policy, r, Underlying);
    PositionScaleAtMost(rs, base, policy, r, Issuer);
    PositionScaleAtMost(rs, base, policy, r, Custody);
    PositionScaleAtMost(rs, base, policy, r, Sector);
    PositionScaleAtMost(rs, base, policy, r, Liquidity);
    if s <= SessionScale(policy, r.session)
       && s <= DimensionScale(rs, base, policy, Underlying, r) && s <= DimensionScale(rs, base, policy, Issuer, r)
       && s <= DimensionScale(rs, base, policy, Custody, r) && s <= DimensionScale(rs, base, policy, Sector, r)
       && s <= DimensionScale(rs, base, policy, Liquidity, r) {
      ScaleAtLeast(rs, base, policy, r, |DIMENSIONS|, s);
    }
  }

  // ----------------------------------------------------------------------- what each position gets

  /** The merged positions of an accepted input, and what is reported of each. */
  predicate Reports(raw: seq<Position>, policy: Policy, ps: seq<Position>, e: Evaluation)
    requires HaircutsValid(policy)
  {
    Dedupe(raw) == Ok(ps) && Evaluated(raw, policy) == Ok(e) && AllReservedFree(Records(ps))
  }

  lemma ReportsAreSound(raw: seq<Position>, policy: Policy, ps: seq<Position>, e: Evaluation)
    requires HaircutsValid(policy) && Reports(raw, policy, ps, e)
    ensures PolicyValid(policy) && e == EvaluationOf(Records(ps), policy)
  {
    CapsAreCheckedAll(policy);
  }

  /** The totals reported are those of the positions, and there is a result for each in turn. */
  lemma TotalsReported(raw: seq<Position>, policy: Policy, ps: seq<Position>, e: Evaluation)
    requires HaircutsValid(policy) && Reports(raw, policy, ps, e)
    ensures e.singleTotalUsd18 == TotalWhere(ps, Everyone()) && e.marketUsd18 == TotalMarket(ps)
    ensures e.policyVersion == policy.version && e.canonicalInput.policy == policy
    ensures |e.positions| == |ps| && forall i :: 0 <= i < |ps| ==> e.positions[i].instrumentId == ps[i].instrumentId
  {
    ReportsAreSound(raw, policy, ps, e);
    BaseIsTotal(ps);
    MarketsAgree(ps);
  }

  /**
   * Each position is reported at the greatest scale that its session, its groups and its route tolerate,
   * and works at its recognised value times that scale, rounded down.
   */
  lemma PositionReported(raw: seq<Position>, policy: Policy, ps: seq<Position>, e: Evaluation, i: nat)
    requires HaircutsValid(policy) && Reports(raw, policy, ps, e) && i < |ps| && 0 < e.singleTotalUsd18
    ensures |e.positions| == |ps| && e.positions[i].singleUsd18 == ps[i].recognizedUsd18
    ensures forall s: nat :: s <= e.positions[i].scaleWad <==> Tolerated(ps, ps[i], policy, s)
    ensures IsFloor(e.positions[i].workingUsd18, ps[i].recognizedUsd18 * e.positions[i].scaleWad,
                    1_000_000_000_000_000_000)
  {
    ReportsAreSound(raw, policy, ps, e);
    forall s: nat
      ensures s <= e.positions[i].scaleWad <==> Tolerated(ps, ps[i], policy, s)
    {
      ScaleIsGreatestTolerated(ps, policy, i, s);
    }
    DivisionFloors(ps[i].recognizedUsd18 * e.positions[i].scaleWad, WAD);
  }

  /** With nothing recognised every position works at nothing, at full scale. */
  lemma NothingReported(raw: seq<Position>, policy: Policy, ps: seq<Position>, e: Evaluation, i: nat)
    requires HaircutsValid(policy) && Reports(raw, policy, ps, e) && i < |ps| && e.singleTotalUsd18 == 0
    ensures e.positions == seq(|ps|, j requires 0 <= j < |ps| =>
      PositionResult(ps[j].instrumentId, 0, 0, 1_000_000_000_000_000_000, Unbound, None))
    ensures e.breakdown == [] && e.bindingConstraint == Unbound && e.recognizedUsd18 == 0
  {
    ReportsAreSound(raw, policy, ps, e);
    NothingToRecognise(Records(ps), policy);
  }

  /** The factor of the session, the field named by the session. */
  predicate FactorIs(session: Session, f: SessionFactors, factor: nat) {
    match session
    case Open => factor == f.open
    case PreMarket => factor == f.preMarket
    case PostMarket => factor == f.postMarket
    case Closed => factor == f.closed
    case UnknownSession => factor == f.unknown
  }

  /** A position works at no more than its session's factor of what it is recognised for. */
  lemma SessionTakesItsShare(raw: seq<Position>, policy: Policy, ps: seq<Position>, e: Evaluation, i: nat, factor: nat)
    requires HaircutsValid(policy) && Reports(raw, policy, ps, e) && i < |ps|
    requires FactorIs(ps[i].session, policy.sessionFactors, factor)
    ensures |e.positions| == |ps| && e.positions[i].workingUsd18 * 10_000 <= ps[i].recognizedUsd18 * factor
  {
    ReportsAreSound(raw, policy, ps, e);
    if 0 < e.singleTotalUsd18 {
      PositionReported(raw, policy, ps, e, i);
      var s := e.positions[i].scaleWad;
      assert Tolerated(ps, ps[i], policy, s);
      ShareOfScale(ps[i].recognizedUsd18, s, e.positions[i].workingUsd18, factor);
    } else {
      MulLe(0, ps[i].recognizedUsd18, factor);
    }
  }

  lemma ShareOfScale(recognized: nat, s: nat, working: nat, factor: nat)
    requires s * 10_000 <= factor * WAD && working * WAD <= recognized * s
    ensures working * 10_000 <= recognized * factor
  {
    MulLe(s * 10_000, factor * WAD, recognized);
    MulAssoc(recognized, s, 10_000);
    MulAssoc(recognized, factor, WAD);
    MulSwap(working, WAD, 10_000);
    MulLeCancel(working * 10_000, recognized * factor, WAD);
  }

  /** Where no group holds it back, it works at exactly that share, rounded down. */
  lemma SessionAloneTakesExactly(ps: seq<Position>, policy: Policy, i: nat, factor: nat)
    requires PolicyValid(policy) && i < |ps| && FactorIs(ps[i].session, policy.sessionFactors, factor)
    requires forall d: Dimension :: !HeldBack(Records(ps), policy, d, RecordOf(ps[i]))
    ensures WorkingOf(Records(ps), policy, RecordOf(ps[i]))
            == ps[i].recognizedUsd18 * (if factor < 10_000 then factor else 10_000) / 10_000
  {
    var rs, r := Records(ps), RecordOf(ps[i]);
    var f := if factor < 10_000 then factor else 10_000;
    assert f == Min(BPS, FactorOf(policy.sessionFactors, ps[i].session));
    WholeScale(f);
    forall d: Dimension
      ensures SessionScale(policy, r.session) <= DimensionScale(rs, Base(rs), policy, d, r)
    {
      assert !HeldBack(rs, policy, d, r);
    }
    ScaleAtLeast(rs, Base(rs), policy, r, |DIMENSIONS|, SessionScale(policy, r.session));
    PositionScaleAtMost(rs, Base(rs), policy, r, Underlying);
    ShareAtWholeScale(r.recognized, f);
  }

  lemma WholeScale(f: nat)
    ensures f * WAD / BPS == f * 100_000_000_000_000
  {
  }

  lemma ShareAtWholeScale(recognized: nat, f: nat)
    ensures recognized * (f * 100_000_000_000_000) / WAD == recognized * f / 10_000
  {
    MulAssoc(recognized, f, 100_000_000_000_000);
    FloorBounds(recognized * f, 10_000);
    FloorUnique(recognized * f * 100_000_000_000_000, WAD, recognized * f / 10_000);
  }

  // -------------------------------------------------------------------------- what the groups keep

  /** The working values reported for some of the positions, added up. */
  function WorkingWhere(ps: seq<Position>, results: seq<PositionResult>, keep: Position -> bool): nat
    requires |ps| == |results|
  {
    if ps == [] then 0
    else
      var n := |ps| - 1;
      WorkingWhere(ps[..n], results[..n], keep) + if keep(ps[n]) then results[n].workingUsd18 else 0
  }

  lemma {:induction false} ReportedAgrees(ps: seq<Position>, results: seq<PositionResult>, keep: Position -> bool,
                                          d: Dimension, key: string)
    requires |ps| == |results| && KeptInGroup(ps, keep, d, key)
    ensures ReportedIn(results, Records(ps), d, key) == WorkingWhere(ps, results, keep)
  {
    if ps != [] {
      var n := |ps| - 1;
      ReportedAgrees(ps[..n], results[..n], keep, d, key);
      assert Records(ps)[..n] == Records(ps[..n]);
    }
  }

  /** A group's members together work at no more than its cap of the total, named or unknown. */
  predicate CapKept(ps: seq<Position>, e: Evaluation, p: Position, d: Dimension, caps: Caps)
    requires |ps| == |e.positions|
  {
    WorkingWhere(ps, e.positions, SameGroup(p, d)) * 10_000
    <= e.singleTotalUsd18 * if GroupOf(p, d).Some? then caps.named else caps.unknown
  }

  lemma GroupCapKept(raw: seq<Position>, policy: Policy, ps: seq<Position>, e: Evaluation, i: nat, d: Dimension)
    requires HaircutsValid(policy) && Reports(raw, policy, ps, e) && i < |ps| && d != Liquidity
    ensures |e.positions| == |ps| && CapKept(ps, e, ps[i], d, CapsOf(policy.caps, d))
  {
    ReportsAreSound(raw, policy, ps, e);
    var key := KeyIn(RecordOf(ps[i]), d);
    GroupIsKept(ps, i, d);
    assert ReservedFree(Records(ps)[i]);
    GroupIsGroup(ps[i], ps[i], d);
    AcceptedKeepsEveryCap(raw, policy, d, i);
    ReportedAgrees(ps, e.positions, SameGroup(ps[i], d), d, key);
  }

  /**
   * All caps at once, each with its own field: whatever the position, the group it is in keeps its cap in
   * every dimension, and its route keeps its cap and every depth declared on it.
   */
  lemma EveryCapKept(raw: seq<Position>, policy: Policy, ps: seq<Position>, e: Evaluation, i: nat)
    requires HaircutsValid(policy) && Reports(raw, policy, ps, e) && i < |ps|
    ensures |e.positions| == |ps|
    ensures CapKept(ps, e, ps[i], Underlying, policy.caps.underlying)
    ensures CapKept(ps, e, ps[i], Issuer, policy.caps.issuer)
    ensures CapKept(ps, e, ps[i], Custody, policy.caps.custody)
    ensures CapKept(ps, e, ps[i], Sector, policy.caps.sector)
    ensures RouteOf(ps[i]).Some? ==>
      var together := WorkingWhere(ps, e.positions, SameRoute(ps[i]));
      && together * 10_000 <= e.singleTotalUsd18 * policy.caps.liquidity.named
      && forall j :: 0 <= j < |ps| && RouteOf(ps[j]) == RouteOf(ps[i]) ==> together <= ps[j].depthUsd18.value
  {
    GroupCapKept(raw, policy, ps, e, i, Underlying);
    GroupCapKept(raw, policy, ps, e, i, Issuer);
    GroupCapKept(raw, policy, ps, e, i, Custody);
    GroupCapKept(raw, policy, ps, e, i, Sector);
    if RouteOf(ps[i]).Some? {
      RouteCapKept(raw, policy, ps, e, i);
    }
  }

  lemma RouteCapKept(raw: seq<Position>, policy: Policy, ps: seq<Position>, e: Evaluation, i: nat)
    requires HaircutsValid(policy) && Reports(raw, policy, ps, e) && i < |ps| && RouteOf(ps[i]).Some?
    ensures |e.positions| == |ps|
    ensures
      var together := WorkingWhere(ps, e.positions, SameRoute(ps[i]));
      && together * 10_000 <= e.singleTotalUsd18 * policy.caps.liquidity.named
      && forall j :: 0 <= j < |ps| && RouteOf(ps[j]) == RouteOf(ps[i]) ==> together <= ps[j].depthUsd18.value
  {
    var key := KeyIn(RecordOf(ps[i]), Liquidity);
    ReportedOnRoute(raw, policy, ps, e, i, key);
    RouteIsKept(ps, i);
    EveryDepthKept(ps, SameRoute(ps[i]), key, WorkingWhere(ps, e.positions, SameRoute(ps[i])));
  }

  lemma ReportedOnRoute(raw: seq<Position>, policy: Policy, ps: seq<Position>, e: Evaluation, i: nat, key: string)
    requires HaircutsValid(policy) && Reports(raw, policy, ps, e) && i < |ps| && RouteOf(ps[i]).Some?
    requires key == KeyIn(RecordOf(ps[i]), Liquidity)
    ensures |e.positions| == |ps|
    ensures
      var together, rs := WorkingWhere(ps, e.positions, SameRoute(ps[i])), Records(ps);
      && together * 10_000 <= e.singleTotalUsd18 * policy.caps.liquidity.named
      && forall j :: 0 <= j < |rs| && InGroup(rs[j], Liquidity, key) ==> together <= rs[j].depth
  {
    ReportsAreSound(raw, policy, ps, e);
    RouteIsKept(ps, i);
    assert ReservedFree(Records(ps)[i]);
    RouteIsRoute(ps[i], ps[i]);
    AcceptedKeepsEveryCap(raw, policy, Liquidity, i);
    ReportedAgrees(ps, e.positions, SameRoute(ps[i]), Liquidity, key);
    var together := ReportedIn(e.positions, Records(ps), Liquidity, key);
    SameBound(together * 10_000, e.singleTotalUsd18, CapBps(policy, Liquidity, Named), policy.caps.liquidity.named);
  }

  lemma SameBound(x: int, total: int, a: int, b: int)
    requires x <= total * a && a == b
    ensures x <= total * b
  {
  }

  lemma EveryDepthKept(ps: seq<Position>, keep: Position -> bool, key: string, x: nat)
    requires KeptInGroup(ps, keep, Liquidity, key)
    requires forall j :: 0 <= j < |Records(ps)| && InGroup(Records(ps)[j], Liquidity, key) ==> x <= Records(ps)[j].depth
    ensures forall j :: 0 <= j < |ps| && keep(ps[j]) ==> ps[j].depthUsd18.Some? && x <= ps[j].depthUsd18.value
  {
    forall j | 0 <= j < |ps| && keep(ps[j])
      ensures ps[j].depthUsd18.Some? && x <= ps[j].depthUsd18.value
    {
      assert Records(ps)[j] == RecordOf(ps[j]) && InGroup(RecordOf(ps[j]), Liquidity, key);
    }
  }

  // --------------------------------------------------------------------------------- the value

  /** The scenario names the position's session or one of its groups. */
  predicate Struck(p: Position, s: Scenario) {
    || p.session in s.sessions
    || (GroupOf(p, Underlying).Some? && GroupOf(p, Underlying).value in s.groupIds)
    || (GroupOf(p, Issuer).Some? && GroupOf(p, Issuer).value in s.groupIds)
    || (GroupOf(p, Custody).Some? && GroupOf(p, Custody).value in s.groupIds)
    || (GroupOf(p, Sector).Some? && GroupOf(p, Sector).value in s.groupIds)
    || (GroupOf(p, Liquidity).Some? && GroupOf(p, Liquidity).value in s.groupIds)
  }

  /** What a scenario leaves of a position's working value: all of it, or all but the haircut, rounded down. */
  function LeftBy(s: Scenario, p: Position, w: nat): int {
    if Struck(p, s) then w * (10_000 - s.haircutBps) / 10_000 else w
  }

  /** The reported working values, those struck by the scenario less its haircut, added up. */
  function SumStruck(ps: seq<Position>, results: seq<PositionResult>, s: Scenario): int
    requires |ps| == |results|
  {
    if ps == [] then 0
    else
      var n := |ps| - 1;
      SumStruck(ps[..n], results[..n], s) + LeftBy(s, ps[n], results[n].workingUsd18)
  }

  lemma StruckIsHit(p: Position, s: Scenario)
    ensures Struck(p, s) <==> Hit(s, RecordOf(p))
  {
    var r := RecordOf(p);
    assert forall d: Dimension :: GroupOf(p, d).Some? <==> HasGroup(r, d);
    if Hit(s, r) && r.session !in s.sessions {
      var d: Dimension :| HasGroup(r, d) && GroupId(r.groups, d).value in s.groupIds;
    }
  }

  lemma StruckAt(p: Position, whole: seq<Record>, policy: Policy, s: Scenario)
    requires PolicyValid(policy) && s.haircutBps <= BPS
    ensures Stressed(whole, policy, s)(RecordOf(p)) == LeftBy(s, p, WorkingOf(whole, policy, RecordOf(p)))
  {
    StruckIsHit(p, s);
  }

  /** The results report the working values of the records among the whole list. */
  predicate WorkingReported(ps: seq<Position>, results: seq<PositionResult>, whole: seq<Record>, policy: Policy)
    requires PolicyValid(policy)
  {
    |ps| == |results|
    && forall i :: 0 <= i < |ps| ==> results[i].workingUsd18 == WorkingOf(whole, policy, RecordOf(ps[i]))
  }

  lemma {:induction false} StruckAgrees(ps: seq<Position>, results: seq<PositionResult>, whole: seq<Record>,
                                        policy: Policy, s: Scenario)
    requires PolicyValid(policy) && s.haircutBps <= BPS && WorkingReported(ps, results, whole, policy)
    ensures SumStruck(ps, results, s) == Sum(Records(ps), Stressed(whole, policy, s))
  {
    if ps != [] {
      var n := |ps| - 1;
      StruckAgrees(ps[..n], results[..n], whole, policy, s);
      StruckAt(ps[n], whole, policy, s);
      assert Records(ps)[..n] == Records(ps[..n]);
    }
  }

  lemma {:induction false} WorkingAgrees(ps: seq<Position>, results: seq<PositionResult>, whole: seq<Record>,
                                         policy: Policy)
    requires PolicyValid(policy) && WorkingReported(ps, results, whole, policy)
    ensures WorkingWhere(ps, results, Everyone()) == Sum(Records(ps), Working(whole, policy))
  {
    if ps != [] {
      var n := |ps| - 1;
      WorkingAgrees(ps[..n], results[..n], whole, policy);
      assert Records(ps)[..n] == Records(ps[..n]);
    }
  }

  lemma {:induction false} WorstIsAttained(rs: seq<Record>, policy: Policy, n: nat)
    requires PolicyValid(policy) && HaircutsValid(policy) && n <= |policy.scenarios|
    ensures WorstOf(rs, policy, n) == Sum(rs, Working(rs, policy))
            || exists k :: 0 <= k < n && WorstOf(rs, policy, n) == Sum(rs, Stressed(rs, policy, policy.scenarios[k]))
    decreases n
  {
    if n > 0 {
      WorstIsAttained(rs, policy, n - 1);
    }
  }

  lemma ResultsWork(raw: seq<Position>, policy: Policy, ps: seq<Position>, e: Evaluation)
    requires HaircutsValid(policy) && Reports(raw, policy, ps, e)
    ensures PolicyValid(policy) && WorkingReported(ps, e.positions, Records(ps), policy)
  {
    ReportsAreSound(raw, policy, ps, e);
    forall i | 0 <= i < |ps|
      ensures e.positions[i].workingUsd18 == WorkingOf(Records(ps), policy, RecordOf(ps[i]))
    {
      if Base(Records(ps)) == 0 {
        PartOfSum(Records(ps), Recognized(), i);
        assert RecordOf(ps[i]) == Records(ps)[i];
      }
    }
  }

  /** The value reported is the least of the working values together and what each scenario leaves of them. */
  lemma ValueReported(raw: seq<Position>, policy: Policy, ps: seq<Position>, e: Evaluation)
    requires HaircutsValid(policy) && Reports(raw, policy, ps, e)
    ensures |e.positions| == |ps|
    ensures e.recognizedUsd18 <= WorkingWhere(ps, e.positions, Everyone())
    ensures forall k :: 0 <= k < |policy.scenarios| ==>
      e.recognizedUsd18 <= SumStruck(ps, e.positions, policy.scenarios[k])
    ensures e.recognizedUsd18 == WorkingWhere(ps, e.positions, Everyone())
            || exists k :: 0 <= k < |policy.scenarios|
                           && e.recognizedUsd18 == SumStruck(ps, e.positions, policy.scenarios[k])
  {
    ReportsAreSound(raw, policy, ps, e);
    ResultsWork(raw, policy, ps, e);
    var rs := Records(ps);
    ValueOnlyReduces(rs, policy);
    WorstIsAttained(rs, policy, |policy.scenarios|);
    WorkingAgrees(ps, e.positions, rs, policy);
    forall s: Scenario | s.haircutBps <= BPS
      ensures SumStruck(ps, e.positions, s) == Sum(rs, Stressed(rs, policy, s))
    {
      StruckAgrees(ps, e.positions, rs, policy, s);
    }
  }
}
