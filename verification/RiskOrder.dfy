/**
 * What the order of the positions does to a risk report: nothing but the order of its valuations. The
 * demand for ascending ids refuses exactly the portfolios with a repeated id, and unsorted lists of others.
 */
module RiskOrder {
  import opened Sequences
  import opened RiskModel
  import opened RiskProperties

  // ------------------------------------------------------------------------------- totals and gates

  lemma SameValuable(xs: seq<AssetRiskInput>, ys: seq<AssetRiskInput>)
    requires AllValuable(xs) && multiset(xs) == multiset(ys)
    ensures AllValuable(ys)
  {
    SameMembers(xs, ys);
    forall i | 0 <= i < |ys|
      ensures Valuable(ys[i])
    {
      assert ys[i] in xs;
    }
  }

  lemma ValuableWithout(ys: seq<AssetRiskInput>, k: nat)
    requires AllValuable(ys) && k < |ys|
    ensures AllValuable(ys[..k]) && AllValuable([ys[k]]) && AllValuable(ys[k + 1..]) && AllValuable(Without(ys, k))
  {
  }

  lemma RawTotalOfOne(a: AssetRiskInput)
    requires Valuable(a)
    ensures RawTotal([a]) == Recognized(a)
  {
    assert [a][..0] == [];
    assert RawTotal([a]) == RawTotal([]) + Recognized(a);
  }

  lemma RawTotalWithout(ys: seq<AssetRiskInput>, k: nat)
    requires AllValuable(ys) && k < |ys| && AllValuable(Without(ys, k))
    ensures RawTotal(ys) == RawTotal(Without(ys, k)) + Recognized(ys[k])
  {
    ValuableWithout(ys, k);
    SplitAround(ys, k);
    RawTotalConcat([ys[k]], ys[k + 1..]);
    RawTotalConcat(ys[..k], [ys[k]] + ys[k + 1..]);
    RawTotalConcat(ys[..k], ys[k + 1..]);
    RawTotalOfOne(ys[k]);
  }

  lemma {:induction false} RawTotalPermutes(xs: seq<AssetRiskInput>, ys: seq<AssetRiskInput>)
    requires AllValuable(xs) && AllValuable(ys) && multiset(xs) == multiset(ys)
    ensures RawTotal(xs) == RawTotal(ys)
    decreases |xs|
  {
    if xs == [] {
      assert |multiset(ys)| == 0;
    } else {
      var k := LastElsewhere(xs, ys);
      ValuableWithout(ys, k);
      RawTotalWithout(ys, k);
      RawTotalPermutes(xs[..|xs| - 1], Without(ys, k));
    }
  }

  lemma BandTotalWithout(ys: seq<AssetRiskInput>, k: nat, raw: nat, band: Band)
    requires AllValuable(ys) && k < |ys|
    ensures AllValuable(Without(ys, k))
    ensures BandTotal(ys, raw, band) == BandTotal(Without(ys, k), raw, band) + Contribution(ys[k], raw, band)
  {
    SplitAround(ys, k);
    BandTotalConcat([ys[k]], ys[k + 1..], raw, band);
    BandTotalConcat(ys[..k], [ys[k]] + ys[k + 1..], raw, band);
    BandTotalConcat(ys[..k], ys[k + 1..], raw, band);
    assert [ys[k]][..0] == [];
    assert BandTotal([ys[k]], raw, band) == BandTotal([], raw, band) + Contribution(ys[k], raw, band);
  }

  lemma {:induction false} BandTotalPermutes(xs: seq<AssetRiskInput>, ys: seq<AssetRiskInput>, raw: nat, band: Band)
    requires AllValuable(xs) && AllValuable(ys) && multiset(xs) == multiset(ys)
    ensures BandTotal(xs, raw, band) == BandTotal(ys, raw, band)
    decreases |xs|
  {
    if xs == [] {
      assert |multiset(ys)| == 0;
    } else {
      var k := LastElsewhere(xs, ys);
      BandTotalWithout(ys, k, raw, band);
      BandTotalPermutes(xs[..|xs| - 1], Without(ys, k), raw, band);
    }
  }

  /** A gate is up for the portfolio exactly when it is up for some position. */
  lemma {:induction false} GateOfSome(xs: seq<AssetRiskInput>, now: nat, g: Gate)
    ensures g in PortfolioGates(xs, now) <==> exists a :: a in xs && g in AssetGates(a, now)
    decreases |xs|
  {
    if xs != [] {
      GateOfSome(xs[..|xs| - 1], now, g);
      assert xs == xs[..|xs| - 1] + [xs[|xs| - 1]];
    }
  }

  lemma GatesPermute(xs: seq<AssetRiskInput>, ys: seq<AssetRiskInput>, now: nat)
    requires multiset(xs) == multiset(ys)
    ensures PortfolioGates(xs, now) == PortfolioGates(ys, now)
  {
    SameMembers(xs, ys);
    forall g: Gate
      ensures g in PortfolioGates(xs, now) <==> g in PortfolioGates(ys, now)
    {
      GateOfSome(xs, now, g);
      GateOfSome(ys, now, g);
    }
  }

  // ------------------------------------------------------------------------------------ the report

  lemma {:induction false} ValuationsPermute(xs: seq<AssetRiskInput>, ys: seq<AssetRiskInput>, raw: nat)
    requires AllValuable(xs) && AllValuable(ys) && multiset(xs) == multiset(ys)
    ensures multiset(CappedValuations(xs, raw)) == multiset(CappedValuations(ys, raw))
    decreases |xs|
  {
    if xs == [] {
      assert |multiset(ys)| == 0;
    } else {
      var n := |xs| - 1;
      var k := LastElsewhere(xs, ys);
      ValuableWithout(ys, k);
      ValuationsPermute(xs[..n], Without(ys, k), raw);
      ValuationsWithout(xs, n, raw);
      ValuationsWithout(ys, k, raw);
      assert Without(xs, n) == xs[..n];
    }
  }

  lemma ValuationsWithout(ys: seq<AssetRiskInput>, k: nat, raw: nat)
    requires AllValuable(ys) && k < |ys| && AllValuable(Without(ys, k))
    ensures multiset(CappedValuations(ys, raw))
            == multiset(CappedValuations(Without(ys, k), raw))
               + multiset{Valuation(ys[k]).(cappedUsd18 := Capped(ys[k], raw))}
  {
    var vs := CappedValuations(ys, raw);
    assert CappedValuations(Without(ys, k), raw) == Without(vs, k);
    SplitAround(vs, k);
  }

  /**
   * Reordering the positions reorders their valuations and changes nothing else of the report: truncated
   * sums do not depend on the order of their terms.
   */
  lemma ReportIgnoresOrder(xs: seq<AssetRiskInput>, ys: seq<AssetRiskInput>, account: AccountInput, gates: set<Gate>,
                           now: nat)
    requires AllValuable(xs) && multiset(xs) == multiset(ys)
    ensures AllValuable(ys)
    ensures
      var r, r' := Report(xs, account, gates, now), Report(ys, account, gates, now);
      r' == r.(perAsset := r'.perAsset) && multiset(r'.perAsset) == multiset(r.perAsset)
  {
    SameValuable(xs, ys);
    RawTotalPermutes(xs, ys);
    var raw := RawTotal(xs);
    forall band: Band
      ensures BandTotal(xs, raw, band) == BandTotal(ys, raw, band)
    {
      BandTotalPermutes(xs, ys, raw, band);
    }
    GatesPermute(xs, ys, now);
    ValuationsPermute(xs, ys, raw);
  }

  // ---------------------------------------------------------------------------- the order demanded

  predicate DistinctAssets(xs: seq<AssetRiskInput>) {
    forall i, j :: 0 <= i < j < |xs| ==> xs[i].assetId != xs[j].assetId
  }

  lemma {:induction false} AscendingThroughout(xs: seq<AssetRiskInput>, i: nat, j: nat)
    requires Ascending(xs) && i < j < |xs|
    ensures xs[i].assetId < xs[j].assetId
    decreases j
  {
    if i < j - 1 {
      AscendingThroughout(xs, i, j - 1);
    }
  }

  lemma DistinctPermutes(xs: seq<AssetRiskInput>, ys: seq<AssetRiskInput>)
    requires multiset(xs) == multiset(ys) && DistinctAssets(ys)
    ensures DistinctAssets(xs)
  {
    forall i, j | 0 <= i < j < |xs|
      ensures xs[i].assetId != xs[j].assetId
    {
      TwoApart(xs, i, j);
      AtMostOnce(ys, xs[i], xs[j]);
    }
  }

  lemma TwoApart(xs: seq<AssetRiskInput>, i: nat, j: nat)
    requires i < j < |xs|
    ensures multiset{xs[i], xs[j]} <= multiset(xs)
  {
    SplitAround(xs, j);
    SplitAround(xs[..j], i);
    assert xs[..j][i] == xs[i];
  }

  /** Two elements of one id are one element, present once. */
  lemma {:induction false} AtMostOnce(ys: seq<AssetRiskInput>, a: AssetRiskInput, b: AssetRiskInput)
    requires DistinctAssets(ys) && multiset{a, b} <= multiset(ys)
    ensures a.assetId != b.assetId
    decreases |ys|
  {
    var n := |ys| - 1;
    assert a in multiset(ys) && b in multiset(ys);
    assert ys == ys[..n] + [ys[n]];
    if a != ys[n] && b != ys[n] {
      AtMostOnce(ys[..n], a, b);
    } else {
      var other := if a == ys[n] then b else a;
      assert other in multiset(ys[..n]);
      var i :| 0 <= i < n && ys[..n][i] == other;
      assert ys[i] == other;
    }
  }

  lemma {:induction false} InsertAscending(x: AssetRiskInput, ys: seq<AssetRiskInput>) returns (zs: seq<AssetRiskInput>)
    requires Ascending(ys) && forall i :: 0 <= i < |ys| ==> ys[i].assetId != x.assetId
    ensures Ascending(zs) && multiset(zs) == multiset(ys) + multiset{x}
    ensures zs != [] && (zs[|zs| - 1] == x || (ys != [] && zs[|zs| - 1] == ys[|ys| - 1]))
    decreases |ys|
  {
    var n := |ys| - 1;
    if ys == [] || ys[n].assetId < x.assetId {
      zs := ys + [x];
    } else {
      var front := InsertAscending(x, ys[..n]);
      zs := front + [ys[n]];
      LastStaysLast(front, x, ys);
    }
  }

  lemma LastStaysLast(front: seq<AssetRiskInput>, x: AssetRiskInput, ys: seq<AssetRiskInput>)
    requires ys != [] && Ascending(ys) && x.assetId < ys[|ys| - 1].assetId
    requires Ascending(front) && multiset(front) == multiset(ys[..|ys| - 1]) + multiset{x}
    requires front != [] && (front[|front| - 1] == x || (|ys| > 1 && front[|front| - 1] == ys[|ys| - 2]))
    ensures Ascending(front + [ys[|ys| - 1]])
    ensures multiset(front + [ys[|ys| - 1]]) == multiset(ys) + multiset{x}
  {
    assert ys == ys[..|ys| - 1] + [ys[|ys| - 1]];
  }

  lemma {:induction false} SortAssets(xs: seq<AssetRiskInput>) returns (zs: seq<AssetRiskInput>)
    requires DistinctAssets(xs)
    ensures Ascending(zs) && multiset(zs) == multiset(xs)
    decreases |xs|
  {
    if xs == [] {
      zs := [];
    } else {
      var n := |xs| - 1;
      var front := SortAssets(xs[..n]);
      SameMembers(front, xs[..n]);
      forall i | 0 <= i < |front|
        ensures front[i].assetId != xs[n].assetId
      {
        assert front[i] in xs[..n];
      }
      zs := InsertAscending(xs[n], front);
      assert xs == xs[..n] + [xs[n]];
    }
  }

  /** A portfolio has an ascending arrangement exactly when no asset is repeated. */
  lemma SortableExactlyWhenDistinct(xs: seq<AssetRiskInput>)
    ensures (exists ys :: multiset(ys) == multiset(xs) && Ascending(ys)) <==> DistinctAssets(xs)
  {
    if DistinctAssets(xs) {
      var zs := SortAssets(xs);
    }
    if ys: seq<AssetRiskInput> :| multiset(ys) == multiset(xs) && Ascending(ys) {
      forall i, j | 0 <= i < j < |ys|
        ensures ys[i].assetId != ys[j].assetId
      {
        AscendingThroughout(ys, i, j);
      }
      DistinctPermutes(xs, ys);
    }
  }
}
