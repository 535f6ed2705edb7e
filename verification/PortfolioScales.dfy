/**
 * dimensionScales of packages/portfolio-risk/src/evaluate.ts: three maps filled position by position,
 * then a scale for every position and the groups that bind.
 */
module PortfolioScales {
  import opened Wrappers
  import opened Arithmetic
  import opened Sequences
  import opened PortfolioModel
  import opened PortfolioBreakdown

  /** A position's group: its own, the shared unknown one, or on an undeclared route none at all. */
  function GroupKeyOf(p: Position, d: Dimension): (g: (string, GroupKind))
    ensures g == (KeyIn(RecordOf(p), d), KindIn(RecordOf(p), d))
  {
    var g := GroupIn(p, d);
    if d == Liquidity then
      if g.None? || g.value == "" || p.depthUsd18.None? || p.depthUsd18.value <= 0 then (NONE_KEY, NoGroup)
      else (g.value, Named)
    else if g.None? || g.value == "" then (UnknownKey(d), Unknown)
    else (g.value, Named)
  }

  ghost predicate KindsKept(kinds: map<string, GroupKind>, rs: seq<Record>, d: Dimension) {
    forall key: string :: LastKind(rs, d, key) == if key in kinds then kinds[key] else NoGroup
  }

  ghost predicate TotalsKept(totals: map<string, nat>, kinds: map<string, GroupKind>, rs: seq<Record>, d: Dimension) {
    && (forall key: string :: GroupTotal(rs, d, key) == if key in totals then totals[key] else 0)
    && (forall key :: key in kinds && kinds[key] != NoGroup ==> key in totals)
  }

  ghost predicate DepthsKept(depths: map<string, nat>, rs: seq<Record>) {
    forall key: string :: RouteDepth(rs, key) == if key in depths then Some(depths[key]) else None
  }

  lemma KindsNext(kinds: map<string, GroupKind>, rs: seq<Record>, d: Dimension, r: Record)
    requires KindsKept(kinds, rs, d)
    ensures KindsKept(kinds[KeyIn(r, d) := KindIn(r, d)], rs + [r], d)
  {
    assert (rs + [r])[..|rs + [r]| - 1] == rs;
  }

  lemma TotalNext(rs: seq<Record>, d: Dimension, r: Record, key: string)
    ensures GroupTotal(rs + [r], d, key) == GroupTotal(rs, d, key) + if InGroup(r, d, key) then r.recognized else 0
  {
    assert (rs + [r])[..|rs + [r]| - 1] == rs;
  }

  lemma TotalsNext(totals: map<string, nat>, totals': map<string, nat>, kinds: map<string, GroupKind>,
                   rs: seq<Record>, d: Dimension, r: Record)
    requires TotalsKept(totals, kinds, rs, d)
    requires KindIn(r, d) == NoGroup ==> totals' == totals
    requires KindIn(r, d) != NoGroup ==>
      totals' == totals[KeyIn(r, d) := (if KeyIn(r, d) in totals then totals[KeyIn(r, d)] else 0) + r.recognized]
    ensures TotalsKept(totals', kinds[KeyIn(r, d) := KindIn(r, d)], rs + [r], d)
  {
    forall key: string
      ensures GroupTotal(rs + [r], d, key) == if key in totals' then totals'[key] else 0
    {
      TotalNext(rs, d, r, key);
    }
  }

  lemma DepthsNext(depths: map<string, nat>, depths': map<string, nat>, rs: seq<Record>, r: Record)
    requires DepthsKept(depths, rs)
    requires KindIn(r, Liquidity) == NoGroup ==> depths' == depths
    requires KindIn(r, Liquidity) != NoGroup ==>
      var key := KeyIn(r, Liquidity);
      depths' == depths[key := if key in depths then Min(depths[key], r.depth) else r.depth]
    ensures DepthsKept(depths', rs + [r])
  {
    assert (rs + [r])[..|rs + [r]| - 1] == rs;
  }

  lemma RecordsNext(ps: seq<Position>, n: nat)
    requires n < |ps|
    ensures Records(ps[..n + 1]) == Records(ps[..n]) + [RecordOf(ps[n])]
  {
  }

  ghost predicate MapsKept(totals: map<string, nat>, kinds: map<string, GroupKind>, depths: map<string, nat>,
                           rs: seq<Record>, d: Dimension) {
    && KindsKept(kinds, rs, d)
    && TotalsKept(totals, kinds, rs, d)
    && (d == Liquidity ==> DepthsKept(depths, rs))
  }

  /** One position entered into the three maps. */
  method Enter(ghost rs: seq<Record>, p: Position, d: Dimension,
               totals: map<string, nat>, kinds: map<string, GroupKind>, depths: map<string, nat>)
      returns (totals': map<string, nat>, kinds': map<string, GroupKind>, depths': map<string, nat>, key: string)
    requires MapsKept(totals, kinds, depths, rs, d)
    ensures MapsKept(totals', kinds', depths', rs + [RecordOf(p)], d)
    ensures key == KeyIn(RecordOf(p), d) && kinds'.Keys == kinds.Keys + {key}
  {
    var group := GroupKeyOf(p, d);
    var kind := group.1;
    key, totals', kinds', depths' := group.0, totals, kinds[group.0 := kind], depths;
    if kind != NoGroup {
      totals' := totals[key := (if key in totals then totals[key] else 0) + p.recognizedUsd18];
      if d == Liquidity {
        var depth: nat := p.depthUsd18.value;
        depths' := depths[key := if key in depths then Min(depths[key], depth) else depth];
      }
    }
    KindsNext(kinds, rs, d, RecordOf(p));
    TotalsNext(totals, totals', kinds, rs, d, RecordOf(p));
    if d == Liquidity {
      DepthsNext(depths, depths', rs, RecordOf(p));
    }
  }

  /** The keys so far, each of them known to the map of kinds. */
  predicate KeysKept(keys: seq<string>, kinds: map<string, GroupKind>, positions: seq<Position>, d: Dimension) {
    && |keys| <= |positions|
    && forall i :: 0 <= i < |keys| ==> keys[i] == KeyIn(RecordOf(positions[i]), d) && keys[i] in kinds
  }

  lemma KeysNext(keys: seq<string>, kinds: map<string, GroupKind>, kinds': map<string, GroupKind>,
                 positions: seq<Position>, d: Dimension, key: string)
    requires KeysKept(keys, kinds, positions, d) && |keys| < |positions|
    requires key == KeyIn(RecordOf(positions[|keys|]), d) && kinds'.Keys == kinds.Keys + {key}
    ensures KeysKept(keys + [key], kinds', positions, d)
  {
  }

  lemma KeyAt(keys: seq<string>, kinds: map<string, GroupKind>, positions: seq<Position>, d: Dimension, i: nat)
    requires KeysKept(keys, kinds, positions, d) && i < |keys|
    ensures keys[i] == KeyIn(Records(positions)[i], d)
  {
  }

  /** Every position's group key, and the totals, kinds and depths by group. */
  method GroupMaps(positions: seq<Position>, d: Dimension)
      returns (keys: seq<string>, totals: map<string, nat>, kinds: map<string, GroupKind>, depths: map<string, nat>)
    ensures |keys| == |positions| && KeysKept(keys, kinds, positions, d)
    ensures MapsKept(totals, kinds, depths, Records(positions), d)
  {
    keys, totals, kinds, depths := [], map[], map[], map[];
    for n := 0 to |positions|
      invariant |keys| == n && KeysKept(keys, kinds, positions, d)
      invariant MapsKept(totals, kinds, depths, Records(positions[..n]), d)
    {
      var key;
      ghost var before := kinds;
      RecordsNext(positions, n);
      totals, kinds, depths, key := Enter(Records(positions[..n]), positions[n], d, totals, kinds, depths);
      KeysNext(keys, before, kinds, positions, d, key);
      keys := keys + [key];
    }
    assert positions[..|positions|] == positions;
  }

  /** Every position's scale in one dimension, and the groups that bind there. */
  datatype DimensionData = DimensionData(scaleWad: seq<nat>, overGroups: seq<string>)

  predicate ScalesOf(scaleWad: seq<nat>, rs: seq<Record>, policy: Policy, d: Dimension)
    requires PolicyValid(policy)
  {
    && |scaleWad| == |rs|
    && forall i :: 0 <= i < |rs| ==> scaleWad[i] == DimensionScale(rs, Base(rs), policy, d, rs[i])
  }

  predicate DataOf(data: DimensionData, rs: seq<Record>, policy: Policy, d: Dimension)
    requires PolicyValid(policy)
  {
    ScalesOf(data.scaleWad, rs, policy, d) && data.overGroups == BindingGroups(rs, policy, d)
  }

  /** The data of the first `n` positions. */
  ghost predicate DataSoFar(scaleWad: seq<nat>, overGroups: seq<string>, rs: seq<Record>, policy: Policy, d: Dimension,
                            n: nat)
    requires PolicyValid(policy)
  {
    && n == |scaleWad| <= |rs|
    && (forall i :: 0 <= i < n ==> scaleWad[i] == DimensionScale(rs, Base(rs), policy, d, rs[i]))
    && overGroups == Firsts(Map(OverKey(rs, policy, d), rs)[..n])
  }

  lemma DataNext(scaleWad: seq<nat>, overGroups: seq<string>, rs: seq<Record>, policy: Policy, d: Dimension, scale: nat)
    requires PolicyValid(policy) && DataSoFar(scaleWad, overGroups, rs, policy, d, |scaleWad|) && |scaleWad| < |rs|
    requires scale == DimensionScale(rs, Base(rs), policy, d, rs[|scaleWad|])
    ensures DataSoFar(scaleWad + [scale],
                      Noted(overGroups, if scale < WAD then Some(KeyIn(rs[|scaleWad|], d)) else None),
                      rs, policy, d, |scaleWad| + 1)
  {
    FirstsNext(Map(OverKey(rs, policy, d), rs), |scaleWad|);
  }

  lemma DataDone(scaleWad: seq<nat>, overGroups: seq<string>, rs: seq<Record>, policy: Policy, d: Dimension)
    requires PolicyValid(policy) && DataSoFar(scaleWad, overGroups, rs, policy, d, |rs|)
    ensures DataOf(DimensionData(scaleWad, overGroups), rs, policy, d)
  {
    var over := Map(OverKey(rs, policy, d), rs);
    assert over[..|rs|] == over;
  }

  /** The group scale of every position in one dimension, and the keys of the groups that bind. */
  method DimensionScales(positions: seq<Position>, base: nat, d: Dimension, policy: Policy)
      returns (data: DimensionData)
    requires PolicyValid(policy) && base == Base(Records(positions))
    ensures DataOf(data, Records(positions), policy, d)
  {
    var keys, totals, kinds, depthByGroup := GroupMaps(positions, d);
    ghost var rs := Records(positions);
    var scaleWad: seq<nat>, overGroups: seq<string> := [], [];
    for i := 0 to |positions|
      invariant DataSoFar(scaleWad, overGroups, rs, policy, d, i)
    {
      var scale := GroupScaleFromMaps(rs, base, d, policy, keys[i], totals, kinds, depthByGroup);
      KeyAt(keys, kinds, positions, d, i);
      DataNext(scaleWad, overGroups, rs, policy, d, scale);
      scaleWad := scaleWad + [scale];
      overGroups := Noted(overGroups, if scale < WAD then Some(keys[i]) else None);
    }
    DataDone(scaleWad, overGroups, rs, policy, d);
    data := DimensionData(scaleWad, overGroups);
  }

  method GroupScaleFromMaps(ghost rs: seq<Record>, base: nat, d: Dimension, policy: Policy, key: string,
                            totals: map<string, nat>, kinds: map<string, GroupKind>, depthByGroup: map<string, nat>)
      returns (scale: nat)
    requires PolicyValid(policy) && key in kinds
    requires MapsKept(totals, kinds, depthByGroup, rs, d)
    ensures scale == GroupScale(rs, base, policy, d, key)
  {
    var kind := kinds[key];
    assert kind == LastKind(rs, d, key);
    if kind == NoGroup {
      return WAD;
    }
    var total := totals[key];
    assert total == GroupTotal(rs, d, key);
    if total == 0 {
      return WAD;
    }
    FloorBounds(base * CapBps(policy, d, kind), BPS);
    var allowed := base * CapBps(policy, d, kind) / BPS;
    if d == Liquidity {
      allowed := Min(allowed, if key in depthByGroup then depthByGroup[key] else 0);
    }
    assert allowed == Allowed(base, policy, d, kind, RouteDepth(rs, key));
    FloorBounds(allowed * WAD, total);
    scale := Min(WAD, allowed * WAD / total);
  }
}
