/**
 * evaluatePortfolio of packages/portfolio-risk/src/evaluate.ts in its own form: the checks, the merging
 * map, running minima, sums and the breakdown. Each method is proved equal to what is defined for it.
 */
module PortfolioEvaluate {
  import opened Wrappers
  import opened Arithmetic
  import opened Sequences
  import opened PortfolioModel
  import opened PortfolioMerging
  import opened PortfolioSums
  import opened PortfolioCaps
  import opened PortfolioInvariance
  import opened PortfolioBreakdown
  import opened PortfolioScales

  datatype PositionResult = PositionResult(
    instrumentId: string,
    singleUsd18: nat,
    workingUsd18: nat,
    scaleWad: nat,
    binding: Binding,
    bindingGroup: Option<string>)

  datatype Encoding = Encoding(positions: seq<Record>, policy: Policy)

  datatype Evaluation = Evaluation(
    marketUsd18: nat,
    singleTotalUsd18: nat,
    recognizedUsd18: nat,
    positions: seq<PositionResult>,
    breakdown: seq<Reduction>,
    bindingConstraint: Binding,
    policyVersion: nat,
    canonicalInput: Encoding)

  // ----------------------------------------------------------------------------- what is computed

  function CapError(policy: Policy, d: Dimension): Option<PortfolioError> {
    var c := CapsOf(policy.caps, d);
    if c.unknown > c.named then Some(UnknownCapAboveNamed(d))
    else if c.named > BPS || c.unknown < 0 then Some(CapOutOfRange(d))
    else None
  }

  /** The first complaint about the caps of the dimensions from the n-th on. */
  function FirstCapError(policy: Policy, n: nat): (e: Option<PortfolioError>)
    requires n <= |DIMENSIONS|
    ensures e.None? <==> forall k :: n <= k < |DIMENSIONS| ==> CapsValid(CapsOf(policy.caps, DIMENSIONS[k]))
    decreases |DIMENSIONS| - n
  {
    if n == |DIMENSIONS| then None
    else if CapError(policy, DIMENSIONS[n]).Some? then CapError(policy, DIMENSIONS[n])
    else FirstCapError(policy, n + 1)
  }

  lemma CapsAreCheckedAll(policy: Policy)
    ensures FirstCapError(policy, 0).None? <==> PolicyValid(policy)
  {
    if FirstCapError(policy, 0).None? {
      forall d: Dimension
        ensures CapsValid(CapsOf(policy.caps, d))
      {
        assert DIMENSIONS[IndexOfDimension(d)] == d;
      }
    }
  }

  function ResultOf(rs: seq<Record>, policy: Policy, r: Record): PositionResult
    requires PolicyValid(policy)
  {
    if Base(rs) == 0 then PositionResult(r.id, 0, 0, WAD, Unbound, None)
    else
      var binding := BindingOf(rs, Base(rs), policy, r);
      PositionResult(r.id, r.recognized, WorkingOf(rs, policy, r), PositionScale(rs, Base(rs), policy, r),
                     binding, BindingGroupOf(r, binding))
  }

  function ResultsOf(rs: seq<Record>, policy: Policy): (results: seq<PositionResult>)
    requires PolicyValid(policy)
    ensures |results| == |rs|
  {
    Map(ResultIn(rs, policy), rs)
  }

  function ResultIn(rs: seq<Record>, policy: Policy): Record -> PositionResult
    requires PolicyValid(policy)
  {
    (r: Record) => ResultOf(rs, policy, r)
  }

  /** Reordering the positions reorders their results, and changes none. */
  lemma ResultsPermute(xs: seq<Record>, ys: seq<Record>, policy: Policy)
    requires PolicyValid(policy) && multiset(xs) == multiset(ys) && AllReservedFree(xs)
    ensures multiset(ResultsOf(xs, policy)) == multiset(ResultsOf(ys, policy))
  {
    SumPermutes(xs, ys, Recognized());
    SameElements(xs, ys);
    forall i | 0 <= i < |ys|
      ensures ResultIn(xs, policy)(ys[i]) == ResultIn(ys, policy)(ys[i])
    {
      assert ys[i] in xs;
      WorkingPermutes(xs, ys, policy, ys[i]);
      ScalePermutes(xs, ys, Base(xs), policy, ys[i], |DIMENSIONS|);
      BindingPermutes(xs, ys, Base(xs), policy, ys[i], |DIMENSIONS|);
    }
    MapPermutes(ResultIn(xs, policy), xs, ys);
    assert Map(ResultIn(xs, policy), ys) == Map(ResultIn(ys, policy), ys);
  }

  function EvaluationOf(rs: seq<Record>, policy: Policy): Evaluation
    requires PolicyValid(policy) && HaircutsValid(policy)
  {
    Evaluation(Sum(rs, Market()), Base(rs), PortfolioValue(rs, policy), ResultsOf(rs, policy),
               PartsOf(rs, policy), Largest(PartsOf(rs, policy)).0, policy.version, Encoding(Canonical(rs), policy))
  }

  /** Alike in the totals, the value, the results, the reductions, the binding constraint and the digest input. */
  ghost predicate EvaluatedAlike(e: Evaluation, e': Evaluation) {
    && e.recognizedUsd18 == e'.recognizedUsd18 && e.singleTotalUsd18 == e'.singleTotalUsd18
    && e.marketUsd18 == e'.marketUsd18 && e.canonicalInput == e'.canonicalInput
    && e.bindingConstraint == e'.bindingConstraint && SameReductions(e.breakdown, e'.breakdown)
    && multiset(e.positions) == multiset(e'.positions)
  }

  ghost predicate SameReductions(ps: seq<Reduction>, qs: seq<Reduction>) {
    |ps| == |qs| && forall k :: 0 <= k < |ps| ==> SameReduction(ps[k], qs[k])
  }

  lemma SameEncodingEvaluatesAlike(xs: seq<Record>, ys: seq<Record>, policy: Policy)
    requires PolicyValid(policy) && HaircutsValid(policy)
    requires DistinctIds(xs) && DistinctIds(ys) && AllReservedFree(xs) && Canonical(xs) == Canonical(ys)
    ensures EvaluatedAlike(EvaluationOf(xs, policy), EvaluationOf(ys, policy))
  {
    EncodingDeterminesValue(xs, ys, policy);
    EncodingIsFaithful(xs, ys);
    BreakdownPermutes(xs, ys, policy);
    ResultsPermute(xs, ys, policy);
    assert SameReductions(PartsOf(xs, policy), PartsOf(ys, policy));
  }

  /** The checks in their order, then the evaluation of the merged positions. */
  function Evaluated(raw: seq<Position>, policy: Policy): Result<Evaluation, PortfolioError>
    requires HaircutsValid(policy)
  {
    if |raw| > policy.maxInstruments then Err(TooManyInstruments)
    else if |policy.scenarios| > policy.maxScenarios then Err(TooManyScenarios)
    else if FirstCapError(policy, 0).Some? then Err(FirstCapError(policy, 0).value)
    else
      CapsAreCheckedAll(policy);
      var ps :- Dedupe(raw);
      Ok(EvaluationOf(Records(ps), policy))
  }

  /** Accepted exactly when within both bounds, with sound caps and no instrument described two ways. */
  lemma AcceptedExactlyWhenSound(raw: seq<Position>, policy: Policy)
    requires HaircutsValid(policy)
    ensures Evaluated(raw, policy).Ok?
            <==> |raw| <= policy.maxInstruments && |policy.scenarios| <= policy.maxScenarios
                 && PolicyValid(policy) && !Conflicts(raw)
  {
    CapsAreCheckedAll(policy);
    DedupeMerges(raw);
  }

  /**
   * Reordered input, or input with one position split in two, is evaluated alike: accepted whenever
   * it is within the bound on instruments, with the same totals, value and digest input.
   */
  lemma EvaluationIgnoresOrderAndSplitting(raw: seq<Position>, raw': seq<Position>, before: seq<Position>,
                                           whole: Position, p: Position, q: Position, after: seq<Position>,
                                           policy: Policy)
    requires HaircutsValid(policy) && Evaluated(raw, policy).Ok? && |raw'| <= policy.maxInstruments
    requires Dedupe(raw).Ok? && AllReservedFree(Records(Dedupe(raw).value))
    requires multiset(raw') == multiset(raw)
             || (raw == before + [whole] + after && raw' == before + [p, q] + after && SplitsInto(whole, p, q))
    ensures Evaluated(raw', policy).Ok?
    ensures EvaluatedAlike(Evaluated(raw, policy).value, Evaluated(raw', policy).value)
  {
    CapsAreCheckedAll(policy);
    OrderAndSplittingDoNotMatter(raw, raw', before, whole, p, q, after, policy);
    var xs, ys := Records(Dedupe(raw).value), Records(Dedupe(raw').value);
    DedupedIdsAreDistinct(raw);
    DedupedIdsAreDistinct(raw');
    SameEncodingEvaluatesAlike(xs, ys, policy);
  }

  lemma DedupedIdsAreDistinct(raw: seq<Position>)
    requires Dedupe(raw).Ok?
    ensures DistinctIds(Records(Dedupe(raw).value))
  {
    DedupeMerges(raw);
  }

  // --------------------------------------------------------------------------- merging by instrument

  /** The map and its insertion order hold exactly the merged list. */
  predicate Lists(byId: map<string, Position>, order: seq<string>, merged: seq<Position>) {
    && |order| == |merged|
    && (forall i :: 0 <= i < |order| ==>
          order[i] == merged[i].instrumentId && order[i] in byId && byId[order[i]] == merged[i])
    && (forall id :: id in byId ==> id in order)
  }

  lemma IndexOfIsOnly(ps: seq<Position>, k: nat)
    requires Distinct(ps) && k < |ps|
    ensures IndexOf(ps, ps[k].instrumentId) == k
  {
    var i := IndexOf(ps, ps[k].instrumentId);
  }

  lemma {:induction false} RefusalStays(raw: seq<Position>, n: nat)
    requires n <= |raw| && Dedupe(raw[..n]).Err?
    ensures Dedupe(raw) == Dedupe(raw[..n])
  {
    if n == |raw| {
      assert raw[..n] == raw;
    } else {
      assert raw[..|raw| - 1][..n] == raw[..n];
      RefusalStays(raw[..|raw| - 1], n);
    }
  }

  lemma DedupeNext(raw: seq<Position>, n: nat, merged: seq<Position>)
    requires n < |raw| && Dedupe(raw[..n]) == Ok(merged)
    ensures Dedupe(raw[..n + 1]) == Absorb(merged, raw[n])
  {
    assert raw[..n + 1][..n] == raw[..n];
  }

  lemma AppendsNew(byId: map<string, Position>, order: seq<string>, merged: seq<Position>, p: Position)
    requires Lists(byId, order, merged) && Distinct(merged) && p.instrumentId !in byId
    ensures Absorb(merged, p) == Ok(merged + [p])
    ensures Distinct(merged + [p])
    ensures Lists(byId[p.instrumentId := p], order + [p.instrumentId], merged + [p])
  {
    NotListed(byId, order, merged, p.instrumentId);
  }

  lemma UpdatesOld(byId: map<string, Position>, order: seq<string>, merged: seq<Position>, p: Position) returns (k: nat)
    requires Lists(byId, order, merged) && Distinct(merged) && p.instrumentId in byId
    ensures k < |merged| && merged[k] == byId[p.instrumentId]
    ensures Absorb(merged, p) == if SameMetadata(merged[k], p) then Ok(merged[k := Merge(merged[k], p)])
                                 else Err(ConflictingMetadata(p.instrumentId))
    ensures Distinct(merged[k := Merge(merged[k], p)])
    ensures Lists(byId[p.instrumentId := Merge(merged[k], p)], order, merged[k := Merge(merged[k], p)])
  {
    k := Listed(byId, order, merged, p.instrumentId);
    var next := merged[k := Merge(merged[k], p)];
    forall i | 0 <= i < |order|
      ensures order[i] == next[i].instrumentId
    {
    }
  }

  method MergeDuplicates(raw: seq<Position>) returns (r: Result<seq<Position>, PortfolioError>)
    ensures r == Dedupe(raw)
  {
    var byId: map<string, Position>, order: seq<string> := map[], [];
    ghost var merged: seq<Position> := [];
    for n := 0 to |raw|
      invariant Dedupe(raw[..n]) == Ok(merged) && Distinct(merged) && Lists(byId, order, merged)
    {
      var p := raw[n];
      DedupeNext(raw, n, merged);
      if p.instrumentId !in byId {
        AppendsNew(byId, order, merged, p);
        byId := byId[p.instrumentId := p];
        order := order + [p.instrumentId];
        merged := merged + [p];
      } else {
        var existing := byId[p.instrumentId];
        ghost var k := UpdatesOld(byId, order, merged, p);
        if !SameMetadata(existing, p) {
          RefusalStays(raw, n + 1);
          return Err(ConflictingMetadata(p.instrumentId));
        }
        var total := AddTo(existing, p);
        byId := byId[p.instrumentId := total];
        merged := merged[k := Merge(merged[k], p)];
      }
    }
    assert raw[..|raw|] == raw;
    var positions := seq(|order|, i requires 0 <= i < |order| && order[i] in byId => byId[order[i]]);
    assert positions == merged;
    r := Ok(positions);
  }

  /** Adds a duplicate's amounts, and keeps the smaller depth when the two differ. */
  method AddTo(existing: Position, p: Position) returns (e: Position)
    ensures e == Merge(existing, p)
  {
    e := existing.(recognizedUsd18 := existing.recognizedUsd18 + p.recognizedUsd18,
                   marketUsd18 := existing.marketUsd18 + p.marketUsd18);
    if existing.depthUsd18 != p.depthUsd18 {
      e := e.(depthUsd18 := Some(Min(existing.depthUsd18.GetOr(0), p.depthUsd18.GetOr(0))));
    }
  }

  lemma NotListed(byId: map<string, Position>, order: seq<string>, merged: seq<Position>, id: string)
    requires Lists(byId, order, merged) && id !in byId
    ensures IndexOf(merged, id) == |merged|
    ensures forall i :: 0 <= i < |merged| ==> merged[i].instrumentId != id
  {
  }

  lemma Listed(byId: map<string, Position>, order: seq<string>, merged: seq<Position>, id: string) returns (k: nat)
    requires Lists(byId, order, merged) && Distinct(merged) && id in byId
    ensures k < |merged| && merged[k] == byId[id] && IndexOf(merged, id) == k && order[k] == id
  {
    assert id in order;
    k :| 0 <= k < |order| && order[k] == id;
    IndexOfIsOnly(merged, k);
  }

  // -------------------------------------------------------------------------------- the evaluation

  /** The data of the first dimensions, in their order. */
  predicate FirstDataOf(dims: seq<DimensionData>, rs: seq<Record>, policy: Policy)
    requires PolicyValid(policy)
  {
    |dims| <= |DIMENSIONS| && forall k :: 0 <= k < |dims| ==> DataOf(dims[k], rs, policy, DIMENSIONS[k])
  }

  predicate AllDataOf(dims: seq<DimensionData>, rs: seq<Record>, policy: Policy)
    requires PolicyValid(policy)
  {
    |dims| == |DIMENSIONS| && FirstDataOf(dims, rs, policy)
  }

  lemma OneMoreDimension(dims: seq<DimensionData>, data: DimensionData, rs: seq<Record>, policy: Policy)
    requires PolicyValid(policy) && FirstDataOf(dims, rs, policy) && |dims| < |DIMENSIONS|
    requires DataOf(data, rs, policy, DIMENSIONS[|dims|])
    ensures FirstDataOf(dims + [data], rs, policy)
  {
  }

  predicate AllScalesOf(dims: seq<DimensionData>, rs: seq<Record>, policy: Policy)
    requires PolicyValid(policy)
  {
    && |dims| == |DIMENSIONS|
    && forall k :: 0 <= k < |DIMENSIONS| ==> ScalesOf(dims[k].scaleWad, rs, policy, DIMENSIONS[k])
  }

  lemma DataHasScales(dims: seq<DimensionData>, rs: seq<Record>, policy: Policy)
    requires PolicyValid(policy) && AllDataOf(dims, rs, policy)
    ensures AllScalesOf(dims, rs, policy)
  {
    forall k | 0 <= k < |DIMENSIONS|
      ensures ScalesOf(dims[k].scaleWad, rs, policy, DIMENSIONS[k])
    {
      assert DataOf(dims[k], rs, policy, DIMENSIONS[k]);
    }
  }

  method AllDimensionScales(positions: seq<Position>, base: nat, policy: Policy) returns (dims: seq<DimensionData>)
    requires PolicyValid(policy) && base == Base(Records(positions))
    ensures AllDataOf(dims, Records(positions), policy)
  {
    dims := [];
    ghost var rs := Records(positions);
    for k := 0 to |DIMENSIONS|
      invariant |dims| == k && FirstDataOf(dims, rs, policy)
    {
      var data := DimensionScales(positions, base, DIMENSIONS[k], policy);
      OneMoreDimension(dims, data, rs, policy);
      dims := dims + [data];
    }
  }

  /** The smallest scale of the i-th position over its session and its dimensions, and the first to give it. */
  method SmallestScale(rs: seq<Record>, policy: Policy, dims: seq<DimensionData>, i: nat)
      returns (scale: nat, binding: Binding)
    requires PolicyValid(policy) && i < |rs| && AllScalesOf(dims, rs, policy)
    ensures scale == PositionScale(rs, Base(rs), policy, rs[i])
    ensures binding == BindingOf(rs, Base(rs), policy, rs[i])
  {
    scale := SessionScale(policy, rs[i].session);
    binding := if scale < WAD then BySession else Unbound;
    for k := 0 to |DIMENSIONS|
      invariant scale == ScaleUpTo(rs, Base(rs), policy, rs[i], k)
      invariant binding == BindingUpTo(rs, Base(rs), policy, rs[i], k)
    {
      assert ScalesOf(dims[k].scaleWad, rs, policy, DIMENSIONS[k]);
      if dims[k].scaleWad[i] < scale {
        scale, binding := dims[k].scaleWad[i], InDimension(DIMENSIONS[k]);
      }
    }
  }

  lemma ResultsNext(rs: seq<Record>, policy: Policy, i: nat)
    requires PolicyValid(policy) && i < |rs|
    ensures ResultsOf(rs, policy)[..i + 1] == ResultsOf(rs, policy)[..i] + [ResultOf(rs, policy, rs[i])]
  {
  }

  method PositionResults(rs: seq<Record>, policy: Policy, dims: seq<DimensionData>)
      returns (results: seq<PositionResult>)
    requires PolicyValid(policy) && Base(rs) != 0 && AllScalesOf(dims, rs, policy)
    ensures results == ResultsOf(rs, policy)
  {
    results := [];
    for i := 0 to |rs|
      invariant results == ResultsOf(rs, policy)[..i]
    {
      ResultsNext(rs, policy, i);
      var result := ResultAt(rs, policy, dims, i);
      results := results + [result];
    }
  }

  method ResultAt(rs: seq<Record>, policy: Policy, dims: seq<DimensionData>, i: nat) returns (result: PositionResult)
    requires PolicyValid(policy) && Base(rs) != 0 && i < |rs| && AllScalesOf(dims, rs, policy)
    ensures result == ResultOf(rs, policy, rs[i])
  {
    var r := rs[i];
    var scale, binding := SmallestScale(rs, policy, dims, i);
    result := PositionResult(r.id, r.recognized, AtScale(r.recognized, scale), scale,
                             binding, BindingGroupOf(r, binding));
  }

  // --------------------------------------------------------------------------------- the breakdown

  /** What the positions would be worth under one dimension alone, added up. */
  method DimensionOnlyTotal(rs: seq<Record>, policy: Policy, scaleWad: seq<nat>, d: Dimension) returns (only: nat)
    requires PolicyValid(policy) && ScalesOf(scaleWad, rs, policy, d)
    ensures only == Sum(rs, DimensionOnly(rs, policy, d))
  {
    only := 0;
    for i := 0 to |rs|
      invariant only == Sum(rs[..i], DimensionOnly(rs, policy, d))
    {
      assert rs[..i + 1][..i] == rs[..i];
      only := only + AtScale(rs[i].recognized, Min(WAD, scaleWad[i]));
    }
    assert rs[..|rs|] == rs;
  }

  method SessionOnlyTotal(rs: seq<Record>, policy: Policy) returns (only: nat, sessions: seq<string>)
    ensures only == Sum(rs, SessionOnly(policy)) && sessions == Firsts(Map(ShortSession(policy), rs))
  {
    only, sessions := 0, [];
    ghost var short := Map(ShortSession(policy), rs);
    for i := 0 to |rs|
      invariant only == Sum(rs[..i], SessionOnly(policy)) && sessions == Firsts(short[..i])
    {
      assert rs[..i + 1][..i] == rs[..i] && short[..i + 1][..i] == short[..i];
      only := only + AtScale(rs[i].recognized, SessionScale(policy, rs[i].session));
      sessions := Noted(sessions, ShortSession(policy)(rs[i]));
    }
    assert rs[..|rs|] == rs && short[..|rs|] == short;
  }

  method DimensionReductions(rs: seq<Record>, base: nat, policy: Policy, dims: seq<DimensionData>)
      returns (parts: seq<Reduction>)
    requires PolicyValid(policy) && base == Base(rs) && AllDataOf(dims, rs, policy)
    ensures |parts| == |DIMENSIONS|
    ensures forall k :: 0 <= k < |DIMENSIONS| ==> parts[k] == DimensionPart(rs, policy, DIMENSIONS[k])
  {
    parts := [];
    for k := 0 to |DIMENSIONS|
      invariant |parts| == k && FirstParts(parts, rs, policy)
    {
      assert DataOf(dims[k], rs, policy, DIMENSIONS[k]);
      var part := DimensionReduction(rs, base, policy, dims[k], DIMENSIONS[k]);
      OneMorePart(parts, part, rs, policy);
      parts := parts + [part];
    }
  }

  /** The parts of the first dimensions, in their order. */
  predicate FirstParts(parts: seq<Reduction>, rs: seq<Record>, policy: Policy)
    requires PolicyValid(policy)
  {
    |parts| <= |DIMENSIONS| && forall k :: 0 <= k < |parts| ==> parts[k] == DimensionPart(rs, policy, DIMENSIONS[k])
  }

  lemma OneMorePart(parts: seq<Reduction>, part: Reduction, rs: seq<Record>, policy: Policy)
    requires PolicyValid(policy) && FirstParts(parts, rs, policy) && |parts| < |DIMENSIONS|
    requires part == DimensionPart(rs, policy, DIMENSIONS[|parts|])
    ensures FirstParts(parts + [part], rs, policy)
  {
  }

  method DimensionReduction(rs: seq<Record>, base: nat, policy: Policy, data: DimensionData, d: Dimension)
      returns (part: Reduction)
    requires PolicyValid(policy) && base == Base(rs) && DataOf(data, rs, policy, d)
    ensures part == DimensionPart(rs, policy, d)
  {
    var only := DimensionOnlyTotal(rs, policy, data.scaleWad, d);
    part := Reduction(InDimension(d), base - only, data.overGroups);
  }

  /** The standalone reductions: every dimension, the session, the scenarios. */
  method Reductions(rs: seq<Record>, base: nat, policy: Policy, dims: seq<DimensionData>, worst: nat)
      returns (parts: seq<Reduction>)
    requires PolicyValid(policy) && HaircutsValid(policy) && base == Base(rs)
    requires AllDataOf(dims, rs, policy) && worst == PortfolioValue(rs, policy)
    ensures parts == Breakdown(rs, policy)
  {
    var inDimensions := DimensionReductions(rs, base, policy, dims);
    var only, sessions := SessionOnlyTotal(rs, policy);
    var bySession := Reduction(BySession, base - only, sessions);
    var byStress := Reduction(ByStress, if base - worst < 0 then 0 else base - worst, ScenarioIds(policy));
    BreakdownIs(rs, policy, inDimensions, bySession, byStress);
    parts := inDimensions + [bySession, byStress];
  }

  lemma BreakdownIs(rs: seq<Record>, policy: Policy, inDimensions: seq<Reduction>, bySession: Reduction,
                    byStress: Reduction)
    requires PolicyValid(policy) && HaircutsValid(policy) && |inDimensions| == |DIMENSIONS|
    requires forall k :: 0 <= k < |DIMENSIONS| ==> inDimensions[k] == DimensionPart(rs, policy, DIMENSIONS[k])
    requires bySession == SessionPart(rs, policy) && byStress == StressPart(rs, policy)
    ensures inDimensions + [bySession, byStress] == Breakdown(rs, policy)
  {
  }

  /** The first largest reduction's constraint, none when nothing reduces. */
  method BindingConstraint(parts: seq<Reduction>) returns (binding: Binding)
    ensures binding == Largest(parts).0
  {
    var worst := 0;
    binding := Unbound;
    for k := 0 to |parts|
      invariant (binding, worst) == Largest(parts[..k])
    {
      assert parts[..k + 1][..k] == parts[..k];
      if parts[k].usd18 > worst {
        worst, binding := parts[k].usd18, parts[k].kind;
      }
    }
    assert parts[..|parts|] == parts;
  }

  // ------------------------------------------------------------------------------------ the value

  predicate WorkingKept(working: seq<nat>, rs: seq<Record>, policy: Policy)
    requires PolicyValid(policy)
  {
    |working| == |rs| && forall i :: 0 <= i < |rs| ==> working[i] == WorkingOf(rs, policy, rs[i])
  }

  method WorkingTotal(rs: seq<Record>, working: seq<nat>, policy: Policy) returns (total: nat)
    requires PolicyValid(policy) && WorkingKept(working, rs, policy)
    ensures total == Sum(rs, Working(rs, policy))
  {
    total := 0;
    for i := 0 to |rs|
      invariant total == Sum(rs[..i], Working(rs, policy))
    {
      assert rs[..i + 1][..i] == rs[..i];
      total := total + working[i];
    }
    assert rs[..|rs|] == rs;
  }

  /** What the positions are worth together when the scenario strikes. */
  method StressedTotal(rs: seq<Record>, working: seq<nat>, policy: Policy, s: Scenario) returns (total: nat)
    requires PolicyValid(policy) && WorkingKept(working, rs, policy) && s.haircutBps <= BPS
    ensures total == Sum(rs, Stressed(rs, policy, s))
  {
    total := 0;
    for i := 0 to |rs|
      invariant total == Sum(rs[..i], Stressed(rs, policy, s))
    {
      assert rs[..i + 1][..i] == rs[..i];
      total := total + if Hit(s, rs[i]) then Haircut(working[i], s.haircutBps) else working[i];
    }
    assert rs[..|rs|] == rs;
  }

  /** The working total, or the worst stressed total when that is less. */
  method WorstStressed(rs: seq<Record>, working: seq<nat>, policy: Policy) returns (worst: nat)
    requires PolicyValid(policy) && HaircutsValid(policy) && WorkingKept(working, rs, policy)
    ensures worst == PortfolioValue(rs, policy)
  {
    worst := WorkingTotal(rs, working, policy);
    for k := 0 to |policy.scenarios|
      invariant worst == WorstOf(rs, policy, k)
    {
      var stressed := StressedTotal(rs, working, policy, policy.scenarios[k]);
      if stressed < worst {
        worst := stressed;
      }
    }
  }

  method FindCapError(policy: Policy) returns (e: Option<PortfolioError>)
    ensures e == FirstCapError(policy, 0)
  {
    for k := 0 to |DIMENSIONS|
      invariant FirstCapError(policy, 0) == FirstCapError(policy, k)
    {
      if CapError(policy, DIMENSIONS[k]).Some? {
        return CapError(policy, DIMENSIONS[k]);
      }
    }
    e := None;
  }

  lemma NothingToRecognise(rs: seq<Record>, policy: Policy)
    requires PolicyValid(policy) && HaircutsValid(policy) && Base(rs) == 0
    ensures PortfolioValue(rs, policy) == 0
  {
    ValueOnlyReduces(rs, policy);
  }

  method EvaluatePortfolio(raw: seq<Position>, policy: Policy) returns (r: Result<Evaluation, PortfolioError>)
    requires HaircutsValid(policy)
    ensures r == Evaluated(raw, policy)
  {
    if |raw| > policy.maxInstruments {
      return Err(TooManyInstruments);
    }
    if |policy.scenarios| > policy.maxScenarios {
      return Err(TooManyScenarios);
    }
    var capError := FindCapError(policy);
    if capError.Some? {
      return Err(capError.value);
    }
    CapsAreCheckedAll(policy);
    var merged := MergeDuplicates(raw);
    if merged.Err? {
      return Err(merged.error);
    }
    var positions := merged.value;
    var rs := Records(positions);
    var results, parts, recognized := [], [], 0;
    if Base(rs) == 0 {
      NothingToRecognise(rs, policy);
      results := NothingResults(rs, policy);
    } else {
      var dims := AllDimensionScales(positions, Base(rs), policy);
      DataHasScales(dims, rs, policy);
      results := PositionResults(rs, policy, dims);
      recognized := WorstStressed(rs, WorkingOfResults(rs, policy, results), policy);
      parts := Reductions(rs, Base(rs), policy, dims, recognized);
    }
    var constraint := BindingConstraint(parts);
    return Ok(Evaluation(Sum(rs, Market()), Base(rs), recognized, results, parts, constraint, policy.version,
                         Encoding(Canonical(rs), policy)));
  }

  method NothingResults(rs: seq<Record>, policy: Policy) returns (results: seq<PositionResult>)
    requires PolicyValid(policy) && Base(rs) == 0
    ensures results == ResultsOf(rs, policy)
  {
    results := seq(|rs|, i requires 0 <= i < |rs| => PositionResult(rs[i].id, 0, 0, WAD, Unbound, None));
  }

  function WorkingOfResults(rs: seq<Record>, policy: Policy, results: seq<PositionResult>): (working: seq<nat>)
    requires PolicyValid(policy) && Base(rs) != 0 && results == ResultsOf(rs, policy)
    ensures WorkingKept(working, rs, policy)
  {
    seq(|results|, i requires 0 <= i < |results| => results[i].workingUsd18)
  }

  // ---------------------------------------------------------------------- what an evaluation promises

  /** The working values reported for the members of one group, added up. */
  function ReportedIn(results: seq<PositionResult>, rs: seq<Record>, d: Dimension, key: string): nat
    requires |results| == |rs|
  {
    if rs == [] then 0
    else ReportedIn(results[..|rs| - 1], rs[..|rs| - 1], d, key)
         + if InGroup(rs[|rs| - 1], d, key) then results[|rs| - 1].workingUsd18 else 0
  }

  lemma {:induction false} ReportedIsWorking(results: seq<PositionResult>, rs: seq<Record>, whole: seq<Record>,
                                             policy: Policy, d: Dimension, key: string)
    requires PolicyValid(policy) && |results| == |rs|
    requires forall i :: 0 <= i < |rs| ==> results[i].workingUsd18 <= WorkingOf(whole, policy, rs[i])
    ensures ReportedIn(results, rs, d, key) <= Sum(rs, WorkingIn(whole, policy, d, key))
  {
    if rs != [] {
      ReportedIsWorking(results[..|rs| - 1], rs[..|rs| - 1], whole, policy, d, key);
    }
  }

  /**
   * Every accepted portfolio keeps every cap at once: whatever the dimension and the group, the
   * reported working values of its members stay within their share of the reported total, and on a
   * declared route within every member's depth; the value is within the total.
   */
  lemma AcceptedKeepsEveryCap(raw: seq<Position>, policy: Policy, d: Dimension, i: nat)
    requires HaircutsValid(policy) && Evaluated(raw, policy).Ok?
    requires Dedupe(raw).Ok? && AllReservedFree(Records(Dedupe(raw).value))
    requires i < |Dedupe(raw).value| && KindIn(Records(Dedupe(raw).value)[i], d) != NoGroup
    ensures
      var e, rs := Evaluated(raw, policy).value, Records(Dedupe(raw).value);
      var reported := ReportedIn(e.positions, rs, d, KeyIn(rs[i], d));
      && PolicyValid(policy)
      && reported * BPS <= e.singleTotalUsd18 * CapBps(policy, d, KindIn(rs[i], d))
      && (d == Liquidity ==>
            forall j :: 0 <= j < |rs| && InGroup(rs[j], d, KeyIn(rs[i], d)) ==> reported <= rs[j].depth)
      && e.recognizedUsd18 <= e.singleTotalUsd18
  {
    CapsAreCheckedAll(policy);
    var e, rs := Evaluated(raw, policy).value, Records(Dedupe(raw).value);
    var key := KeyIn(rs[i], d);
    ReportedIsWorking(e.positions, rs, rs, policy, d, key);
    CapOfEachGroupHolds(rs, policy, d, i);
    MulLe(ReportedIn(e.positions, rs, d, key), Sum(rs, WorkingIn(rs, policy, d, key)), BPS);
    ValueOnlyReduces(rs, policy);
  }
}
