/** Facts about rearranged lists, whatever their elements are. */
module Sequences {
  import opened Wrappers

  function Without<T>(xs: seq<T>, k: nat): seq<T>
    requires k < |xs|
  {
    xs[..k] + xs[k + 1..]
  }

  /** Where a rearrangement holds the last element of the other list. */
  lemma LastElsewhere<T>(xs: seq<T>, ys: seq<T>) returns (k: nat)
    requires multiset(xs) == multiset(ys) && xs != []
    ensures k < |ys| && ys[k] == xs[|xs| - 1]
    ensures multiset(xs[..|xs| - 1]) == multiset(Without(ys, k))
  {
    var n := |xs| - 1;
    assert xs == xs[..n] + [xs[n]];
    assert xs[n] in multiset(ys);
    k :| 0 <= k < |ys| && ys[k] == xs[n];
    assert ys == ys[..k] + [ys[k]] + ys[k + 1..];
    assert multiset(Without(ys, k)) == multiset(ys) - multiset{xs[n]};
    assert multiset(xs[..n]) == multiset(xs) - multiset{xs[n]};
  }

  /** A list put together again around its k-th element. */
  lemma SplitAround<T>(xs: seq<T>, k: nat)
    requires k < |xs|
    ensures xs == xs[..k] + ([xs[k]] + xs[k + 1..])
  {
    assert xs[k..] == [xs[k]] + xs[k + 1..];
    assert xs == xs[..k] + xs[k..];
  }

  // ------------------------------------------------------------------------- in order of appearance

  /** The wanted values of a list, each once, in the order in which they first appear. */
  function Firsts<T(==)>(xs: seq<Option<T>>): seq<T> {
    if xs == [] then [] else Noted(Firsts(xs[..|xs| - 1]), xs[|xs| - 1])
  }

  function Noted<T(==)>(seen: seq<T>, x: Option<T>): seq<T> {
    if x.None? || x.value in seen then seen else seen + [x.value]
  }

  lemma FirstsNext<T>(xs: seq<Option<T>>, n: nat)
    requires n < |xs|
    ensures Firsts(xs[..n + 1]) == Noted(Firsts(xs[..n]), xs[n])
  {
    assert xs[..n + 1][..n] == xs[..n];
  }

  lemma {:induction false} FirstsAreTheValues<T>(xs: seq<Option<T>>)
    ensures forall v :: v in Firsts(xs) <==> Some(v) in xs
    ensures forall i, j :: 0 <= i < j < |Firsts(xs)| ==> Firsts(xs)[i] != Firsts(xs)[j]
  {
    if xs != [] {
      FirstsAreTheValues(xs[..|xs| - 1]);
      assert xs == xs[..|xs| - 1] + [xs[|xs| - 1]];
    }
  }

  lemma {:induction false} FirstsStart<T>(xs: seq<Option<T>>)
    requires xs != [] && xs[0].Some?
    ensures Firsts(xs) != [] && Firsts(xs)[0] == xs[0].value
  {
    if |xs| > 1 {
      FirstsStart(xs[..|xs| - 1]);
    } else {
      assert Firsts(xs[..0]) == [];
    }
  }

  /** All wanted values are the same one. */
  predicate AllAlike<T(==)>(xs: seq<Option<T>>) {
    forall i, j :: 0 <= i < j < |xs| && xs[i].Some? && xs[j].Some? ==> xs[i] == xs[j]
  }

  lemma AlikeLabels<S, T>(f: S -> Option<T>, xs: seq<S>)
    ensures AllAlike(Map(f, xs)) <==>
      forall i, j :: 0 <= i < j < |xs| && f(xs[i]).Some? && f(xs[j]).Some? ==> f(xs[i]) == f(xs[j])
  {
    var labels := Map(f, xs);
    assert forall i :: 0 <= i < |xs| ==> labels[i] == f(xs[i]);
  }

  /** Where the k-th of the wanted values stands. */
  lemma {:induction false} Appearance<T>(xs: seq<Option<T>>, k: nat) returns (i: nat)
    requires k < |Firsts(xs)|
    ensures i < |xs| && xs[i] == Some(Firsts(xs)[k])
  {
    var front := xs[..|xs| - 1];
    if k < |Firsts(front)| {
      i := Appearance(front, k);
    } else {
      i := |xs| - 1;
    }
  }

  lemma FewWhenAlike<T>(xs: seq<Option<T>>)
    ensures AllAlike(xs) <==> |Firsts(xs)| <= 1
  {
    FirstsAreTheValues(xs);
    if |Firsts(xs)| > 1 {
      var i := Appearance(xs, 0);
      var j := Appearance(xs, 1);
      assert Firsts(xs)[0] != Firsts(xs)[1] && xs[i] != xs[j];
      assert i < j || j < i;
    }
    if !AllAlike(xs) {
      var i, j :| 0 <= i < j < |xs| && xs[i].Some? && xs[j].Some? && xs[i] != xs[j];
      assert xs[i].value in Firsts(xs) && xs[j].value in Firsts(xs);
    }
  }

  /** With at most one wanted value no reordering changes the list. */
  lemma OneFirstIsStable<T>(xs: seq<Option<T>>, ys: seq<Option<T>>)
    requires multiset(xs) == multiset(ys) && AllAlike(xs)
    ensures Firsts(ys) == Firsts(xs)
  {
    FewWhenAlike(xs);
    SameFirsts(xs, ys);
    FirstsAreTheValues(ys);
    ShortListsAgree(Firsts(xs), Firsts(ys));
  }

  /** With two, a reordering meets the second of them first. */
  lemma SecondFirst<S, T>(f: S -> Option<T>, xs: seq<S>) returns (ys: seq<S>)
    requires !AllAlike(Map(f, xs))
    ensures multiset(ys) == multiset(xs) && Firsts(Map(f, ys)) != Firsts(Map(f, xs))
  {
    var labels := Map(f, xs);
    FewWhenAlike(labels);
    FirstsAreTheValues(labels);
    var j := Appearance(labels, 1);
    ys := [xs[j]] + Without(xs, j);
    MovedToFront(xs, j);
    assert ys[0] == xs[j];
    FirstsStart(Map(f, ys));
  }

  lemma SameFirsts<T>(xs: seq<Option<T>>, ys: seq<Option<T>>)
    requires multiset(xs) == multiset(ys)
    ensures forall v :: v in Firsts(xs) <==> v in Firsts(ys)
  {
    FirstsAreTheValues(xs);
    FirstsAreTheValues(ys);
    SameMembers(xs, ys);
    forall v
      ensures v in Firsts(xs) <==> v in Firsts(ys)
    {
      assert Some(v) in xs <==> Some(v) in ys;
    }
  }

  lemma ShortListsAgree<T>(f: seq<T>, g: seq<T>)
    requires |f| <= 1 && forall v :: v in f <==> v in g
    requires forall i, j :: 0 <= i < j < |g| ==> g[i] != g[j]
    ensures f == g
  {
    assert |g| >= 2 ==> g[0] != g[1];
    forall i | 0 <= i < |g|
      ensures |f| == 1 && g[i] == f[0]
    {
      assert g[i] in g;
      var j :| 0 <= j < |f| && f[j] == g[i];
    }
    if |f| == 1 {
      assert f[0] in f;
      var j :| 0 <= j < |g| && g[j] == f[0];
      assert g == [g[0]] && f == [f[0]];
    }
  }

  lemma SameMembers<T>(xs: seq<T>, ys: seq<T>)
    requires multiset(xs) == multiset(ys)
    ensures forall x :: x in xs <==> x in ys
  {
    forall x
      ensures x in xs <==> x in ys
    {
      assert x in xs <==> x in multiset(xs);
      assert x in ys <==> x in multiset(ys);
    }
  }

  /** Taking the k-th element to the front is a rearrangement. */
  lemma MovedToFront<T>(xs: seq<T>, k: nat)
    requires k < |xs|
    ensures multiset([xs[k]] + Without(xs, k)) == multiset(xs)
  {
    SplitAround(xs, k);
  }

  function Map<S, T>(f: S -> T, xs: seq<S>): (ys: seq<T>)
    ensures |ys| == |xs|
  {
    seq(|xs|, i requires 0 <= i < |xs| => f(xs[i]))
  }

  lemma {:induction false} MapPermutes<S, T>(f: S -> T, xs: seq<S>, ys: seq<S>)
    requires multiset(xs) == multiset(ys)
    ensures multiset(Map(f, xs)) == multiset(Map(f, ys))
  {
    if xs == [] {
      assert |multiset(ys)| == 0;
    } else {
      var n := |xs| - 1;
      var k := LastElsewhere(xs, ys);
      MapPermutes(f, xs[..n], Without(ys, k));
      assert Map(f, xs) == Map(f, xs[..n]) + [f(xs[n])];
      assert Map(f, Without(ys, k)) == Without(Map(f, ys), k);
      SplitAround(Map(f, ys), k);
    }
  }
}
