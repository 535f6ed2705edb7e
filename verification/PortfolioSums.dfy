/** Sums over records: bounds, and independence of the order of the list. */
module PortfolioSums {
  import opened Wrappers
  import opened Arithmetic
  import opened Sequences
  import opened PortfolioModel

  lemma {:induction false} SumMono(rs: seq<Record>, f: Record -> nat, g: Record -> nat)
    requires forall i :: 0 <= i < |rs| ==> f(rs[i]) <= g(rs[i])
    ensures Sum(rs, f) <= Sum(rs, g)
  {
    if rs != [] {
      SumMono(rs[..|rs| - 1], f, g);
    }
  }

  lemma {:induction false} SumEqual(rs: seq<Record>, f: Record -> nat, g: Record -> nat)
    requires forall i :: 0 <= i < |rs| ==> f(rs[i]) == g(rs[i])
    ensures Sum(rs, f) == Sum(rs, g)
  {
    if rs != [] {
      SumEqual(rs[..|rs| - 1], f, g);
    }
  }

  /** If each part of one sum times w is at most s times the part of another, so are the sums. */
  lemma {:induction false} SumScaled(rs: seq<Record>, f: Record -> nat, g: Record -> nat, w: nat, s: nat)
    requires forall i :: 0 <= i < |rs| ==> f(rs[i]) * w <= g(rs[i]) * s
    ensures Sum(rs, f) * w <= Sum(rs, g) * s
  {
    if rs != [] {
      var front, last := rs[..|rs| - 1], rs[|rs| - 1];
      SumScaled(front, f, g, w, s);
      MulDist(Sum(front, f), f(last), w);
      MulDist(Sum(front, g), g(last), s);
    }
  }

  lemma {:induction false} PartOfSum(rs: seq<Record>, f: Record -> nat, i: nat)
    requires i < |rs|
    ensures f(rs[i]) <= Sum(rs, f)
  {
    if i < |rs| - 1 {
      PartOfSum(rs[..|rs| - 1], f, i);
    }
  }

  lemma {:induction false} SumConcat(xs: seq<Record>, ys: seq<Record>, f: Record -> nat)
    ensures Sum(xs + ys, f) == Sum(xs, f) + Sum(ys, f)
  {
    if ys == [] {
      assert xs + ys == xs;
    } else {
      SumConcat(xs, ys[..|ys| - 1], f);
      assert (xs + ys)[..|xs + ys| - 1] == xs + ys[..|ys| - 1];
    }
  }

  lemma SumWithout(rs: seq<Record>, k: nat, f: Record -> nat)
    requires k < |rs|
    ensures Sum(rs, f) == Sum(Without(rs, k), f) + f(rs[k])
  {
    SplitAround(rs, k);
    SumConcat(rs[..k], [rs[k]] + rs[k + 1..], f);
    SumConcat([rs[k]], rs[k + 1..], f);
    SumConcat(rs[..k], rs[k + 1..], f);
    SumOfOne(rs[k], f);
  }

  lemma SumOfOne(r: Record, f: Record -> nat)
    ensures Sum([r], f) == f(r)
  {
    assert [r][..0] == [];
    assert Sum([], f) == 0;
  }

  /** A sum does not depend on the order of the list. */
  lemma {:induction false} SumPermutes(xs: seq<Record>, ys: seq<Record>, f: Record -> nat)
    requires multiset(xs) == multiset(ys)
    ensures Sum(xs, f) == Sum(ys, f)
  {
    if xs == [] {
      assert |multiset(ys)| == 0;
    } else {
      var k := LastElsewhere(xs, ys);
      SumPermutes(xs[..|xs| - 1], Without(ys, k), f);
      SumWithout(ys, k, f);
    }
  }

  // ------------------------------------------------------------------------------- kinds and depths

  /** With no reserved group id, a key has one kind. */
  lemma KeyDeterminesKind(r: Record, s: Record, d: Dimension)
    requires ReservedFree(r) && ReservedFree(s) && KeyIn(r, d) == KeyIn(s, d)
    ensures KindIn(r, d) == KindIn(s, d)
  {
  }

  lemma {:induction false} LastKindIsOwnKind(rs: seq<Record>, d: Dimension, r: Record)
    requires AllReservedFree(rs) && r in rs
    ensures LastKind(rs, d, KeyIn(r, d)) == KindIn(r, d)
  {
    var last := rs[|rs| - 1];
    if KeyIn(last, d) == KeyIn(r, d) {
      var i :| 0 <= i < |rs| && rs[i] == r;
      KeyDeterminesKind(last, r, d);
    } else {
      assert r in rs[..|rs| - 1];
      LastKindIsOwnKind(rs[..|rs| - 1], d, r);
    }
  }

  /** The last kind under a key is the kind of some member. */
  lemma {:induction false} LastKindIsSomeones(rs: seq<Record>, d: Dimension, key: string, i: nat)
    requires i < |rs| && KeyIn(rs[i], d) == key
    ensures exists j :: 0 <= j < |rs| && KeyIn(rs[j], d) == key && LastKind(rs, d, key) == KindIn(rs[j], d)
  {
    var n := |rs| - 1;
    if KeyIn(rs[n], d) != key {
      LastKindIsSomeones(rs[..n], d, key, i);
      var j :| 0 <= j < n && KeyIn(rs[..n][j], d) == key && LastKind(rs[..n], d, key) == KindIn(rs[..n][j], d);
      assert rs[j] == rs[..n][j];
    }
  }

  /** The declared depth of a route is the least over its members, whatever their order. */
  ghost predicate LeastDepth(rs: seq<Record>, key: string, depth: Option<nat>) {
    && (forall i :: 0 <= i < |rs| && InGroup(rs[i], Liquidity, key) ==> depth.Some? && depth.value <= rs[i].depth)
    && (depth.Some? ==> exists i :: 0 <= i < |rs| && InGroup(rs[i], Liquidity, key) && rs[i].depth == depth.value)
  }

  lemma {:induction false} RouteDepthIsLeast(rs: seq<Record>, key: string)
    ensures LeastDepth(rs, key, RouteDepth(rs, key))
  {
    if rs != [] {
      var n := |rs| - 1;
      RouteDepthIsLeast(rs[..n], key);
      var before := RouteDepth(rs[..n], key);
      if before.Some? {
        var i :| 0 <= i < n && InGroup(rs[..n][i], Liquidity, key) && rs[..n][i].depth == before.value;
        assert rs[i] == rs[..n][i];
      }
      assert forall i :: 0 <= i < n ==> rs[..n][i] == rs[i];
    }
  }

  lemma RouteDepthPermutes(xs: seq<Record>, ys: seq<Record>, key: string)
    requires multiset(xs) == multiset(ys)
    ensures RouteDepth(xs, key) == RouteDepth(ys, key)
  {
    RouteDepthIsLeast(xs, key);
    RouteDepthIsLeast(ys, key);
    DepthNoLarger(xs, ys, key);
    DepthNoLarger(ys, xs, key);
  }

  lemma DepthNoLarger(xs: seq<Record>, ys: seq<Record>, key: string)
    requires multiset(xs) == multiset(ys)
    requires LeastDepth(xs, key, RouteDepth(xs, key)) && LeastDepth(ys, key, RouteDepth(ys, key))
    ensures RouteDepth(xs, key).Some? ==>
      RouteDepth(ys, key).Some? && RouteDepth(ys, key).value <= RouteDepth(xs, key).value
  {
    if RouteDepth(xs, key).Some? {
      var i :| 0 <= i < |xs| && InGroup(xs[i], Liquidity, key) && xs[i].depth == RouteDepth(xs, key).value;
      assert xs[i] in multiset(ys);
      var j :| 0 <= j < |ys| && ys[j] == xs[i];
    }
  }

  // ------------------------------------------------------------------------- lists alike in a dimension

  /** The two records count alike in the dimension. */
  predicate Alike(r: Record, r': Record, d: Dimension) {
    KindIn(r', d) == KindIn(r, d) && KeyIn(r', d) == KeyIn(r, d) && r'.recognized == r.recognized
  }

  lemma {:induction false} AlikeKinds(rs: seq<Record>, rs': seq<Record>, d: Dimension, key: string)
    requires |rs| == |rs'| && forall i :: 0 <= i < |rs| ==> Alike(rs[i], rs'[i], d)
    ensures LastKind(rs', d, key) == LastKind(rs, d, key)
  {
    if rs != [] {
      AlikeKinds(rs[..|rs| - 1], rs'[..|rs| - 1], d, key);
    }
  }

  lemma {:induction false} AlikeTotals(rs: seq<Record>, rs': seq<Record>, d: Dimension, key: string)
    requires |rs| == |rs'| && forall i :: 0 <= i < |rs| ==> Alike(rs[i], rs'[i], d)
    ensures GroupTotal(rs', d, key) == GroupTotal(rs, d, key)
  {
    if rs != [] {
      AlikeTotals(rs[..|rs| - 1], rs'[..|rs| - 1], d, key);
      assert Alike(rs[|rs| - 1], rs'[|rs| - 1], d);
    }
  }

  lemma {:induction false} SameBase(rs: seq<Record>, rs': seq<Record>)
    requires |rs| == |rs'| && forall i :: 0 <= i < |rs| ==> rs'[i].recognized == rs[i].recognized
    ensures Base(rs') == Base(rs)
  {
    if rs != [] {
      SameBase(rs[..|rs| - 1], rs'[..|rs| - 1]);
    }
  }

  lemma {:induction false} AlikeDepths(rs: seq<Record>, rs': seq<Record>, key: string)
    requires |rs| == |rs'|
    requires forall i :: 0 <= i < |rs| ==> Alike(rs[i], rs'[i], Liquidity) && rs'[i].depth == rs[i].depth
    ensures RouteDepth(rs', key) == RouteDepth(rs, key)
  {
    if rs != [] {
      AlikeDepths(rs[..|rs| - 1], rs'[..|rs| - 1], key);
    }
  }
}
