/** The value and the canonical encoding of a portfolio do not depend on order or on splitting. */
module PortfolioInvariance {
  import opened PortfolioModel
  import opened PortfolioMerging
  import opened PortfolioSums

  // ------------------------------------------------------------------------------ order of records

  lemma DimensionScalePermutes(xs: seq<Record>, ys: seq<Record>, base: nat, policy: Policy, d: Dimension, r: Record)
    requires PolicyValid(policy) && multiset(xs) == multiset(ys)
    requires AllReservedFree(xs) && AllReservedFree(ys) && r in xs && r in ys
    ensures DimensionScale(xs, base, policy, d, r) == DimensionScale(ys, base, policy, d, r)
  {
    var key := KeyIn(r, d);
    LastKindIsOwnKind(xs, d, r);
    LastKindIsOwnKind(ys, d, r);
    SumPermutes(xs, ys, RecognizedIn(d, key));
    RouteDepthPermutes(xs, ys, key);
  }

  lemma {:induction false} ScalePermutes(xs: seq<Record>, ys: seq<Record>, base: nat, policy: Policy, r: Record, n: nat)
    requires PolicyValid(policy) && multiset(xs) == multiset(ys) && n <= |DIMENSIONS|
    requires AllReservedFree(xs) && AllReservedFree(ys) && r in xs && r in ys
    ensures ScaleUpTo(xs, base, policy, r, n) == ScaleUpTo(ys, base, policy, r, n)
  {
    if n > 0 {
      ScalePermutes(xs, ys, base, policy, r, n - 1);
      DimensionScalePermutes(xs, ys, base, policy, DIMENSIONS[n - 1], r);
    }
  }

  lemma SameElements(xs: seq<Record>, ys: seq<Record>)
    requires multiset(xs) == multiset(ys)
    ensures forall r :: r in xs <==> r in ys
    ensures AllReservedFree(xs) ==> AllReservedFree(ys)
  {
    assert forall r :: r in xs <==> r in multiset(xs);
    assert forall r :: r in ys <==> r in multiset(ys);
    if AllReservedFree(xs) {
      forall i | 0 <= i < |ys|
        ensures ReservedFree(ys[i])
      {
        assert ys[i] in xs;
      }
    }
  }

  lemma WorkingPermutes(xs: seq<Record>, ys: seq<Record>, policy: Policy, r: Record)
    requires PolicyValid(policy) && multiset(xs) == multiset(ys) && AllReservedFree(xs) && r in xs
    ensures WorkingOf(xs, policy, r) == WorkingOf(ys, policy, r)
  {
    SameElements(xs, ys);
    SumPermutes(xs, ys, Recognized());
    ScalePermutes(xs, ys, Base(xs), policy, r, |DIMENSIONS|);
  }

  lemma WorkingTotalPermutes(xs: seq<Record>, ys: seq<Record>, policy: Policy)
    requires PolicyValid(policy) && multiset(xs) == multiset(ys) && AllReservedFree(xs)
    ensures Sum(xs, Working(xs, policy)) == Sum(ys, Working(ys, policy))
  {
    forall i | 0 <= i < |xs|
      ensures Working(xs, policy)(xs[i]) == Working(ys, policy)(xs[i])
    {
      WorkingPermutes(xs, ys, policy, xs[i]);
    }
    SumEqual(xs, Working(xs, policy), Working(ys, policy));
    SumPermutes(xs, ys, Working(ys, policy));
  }

  lemma StressedTotalPermutes(xs: seq<Record>, ys: seq<Record>, policy: Policy, s: Scenario)
    requires PolicyValid(policy) && s.haircutBps <= BPS && multiset(xs) == multiset(ys) && AllReservedFree(xs)
    ensures Sum(xs, Stressed(xs, policy, s)) == Sum(ys, Stressed(ys, policy, s))
  {
    forall i | 0 <= i < |xs|
      ensures Stressed(xs, policy, s)(xs[i]) == Stressed(ys, policy, s)(xs[i])
    {
      WorkingPermutes(xs, ys, policy, xs[i]);
    }
    SumEqual(xs, Stressed(xs, policy, s), Stressed(ys, policy, s));
    SumPermutes(xs, ys, Stressed(ys, policy, s));
  }

  lemma {:induction false} WorstPermutes(xs: seq<Record>, ys: seq<Record>, policy: Policy, n: nat)
    requires PolicyValid(policy) && HaircutsValid(policy) && n <= |policy.scenarios|
    requires multiset(xs) == multiset(ys) && AllReservedFree(xs)
    ensures WorstOf(xs, policy, n) == WorstOf(ys, policy, n)
    decreases n
  {
    if n == 0 {
      WorkingTotalPermutes(xs, ys, policy);
    } else {
      WorstPermutes(xs, ys, policy, n - 1);
      WorstStep(xs, ys, policy, n);
    }
  }

  lemma WorstStep(xs: seq<Record>, ys: seq<Record>, policy: Policy, n: nat)
    requires PolicyValid(policy) && HaircutsValid(policy) && 0 < n <= |policy.scenarios|
    requires multiset(xs) == multiset(ys) && AllReservedFree(xs)
    requires WorstOf(xs, policy, n - 1) == WorstOf(ys, policy, n - 1)
    ensures WorstOf(xs, policy, n) == WorstOf(ys, policy, n)
  {
    StressedTotalPermutes(xs, ys, policy, policy.scenarios[n - 1]);
  }

  // ------------------------------------------------------------------------------ canonical encoding

  lemma {:induction false} BeforeIsTotal(a: string, b: string)
    ensures a == b || Before(a, b) || Before(b, a)
  {
    if a != "" && b != "" && a[0] == b[0] {
      BeforeIsTotal(a[1..], b[1..]);
      assert a == [a[0]] + a[1..] && b == [b[0]] + b[1..];
    }
  }

  lemma {:induction false} BeforeIsAsymmetric(a: string, b: string)
    requires Before(a, b)
    ensures !Before(b, a)
  {
    if a != "" && a[0] == b[0] {
      BeforeIsAsymmetric(a[1..], b[1..]);
    }
  }

  lemma {:induction false} BeforeIsTransitive(a: string, b: string, c: string)
    requires Before(a, b) && Before(b, c)
    ensures Before(a, c)
  {
    if a != "" && a[0] == b[0] && b[0] == c[0] {
      BeforeIsTransitive(a[1..], b[1..], c[1..]);
    }
  }

  predicate SortedById(rs: seq<Record>) {
    forall i, j :: 0 <= i < j < |rs| ==> Before(rs[i].id, rs[j].id)
  }

  lemma HeadAndTail(rs: seq<Record>)
    requires rs != []
    ensures multiset(rs) == multiset{rs[0]} + multiset(rs[1..])
    ensures multiset(rs[1..]) == multiset(rs) - multiset{rs[0]}
  {
    assert rs == [rs[0]] + rs[1..];
  }

  lemma InsertAtHead(r: Record, rs: seq<Record>)
    requires SortedById(rs) && rs != [] && Before(r.id, rs[0].id)
    ensures SortedById([r] + rs)
  {
    forall i | 0 < i < |rs|
      ensures Before(r.id, rs[i].id)
    {
      BeforeIsTransitive(r.id, rs[0].id, rs[i].id);
    }
  }

  lemma PutBackHead(r: Record, rs: seq<Record>, rest: seq<Record>)
    requires SortedById(rs) && rs != [] && Before(rs[0].id, r.id)
    requires SortedById(rest) && multiset(rest) == multiset{r} + multiset(rs[1..])
    ensures SortedById([rs[0]] + rest) && multiset([rs[0]] + rest) == multiset{r} + multiset(rs)
  {
    HeadAndTail(rs);
    forall i | 0 <= i < |rest|
      ensures Before(rs[0].id, rest[i].id)
    {
      AfterHead(r, rs, rest, i);
    }
  }

  lemma AfterHead(r: Record, rs: seq<Record>, rest: seq<Record>, i: nat)
    requires SortedById(rs) && rs != [] && Before(rs[0].id, r.id)
    requires multiset(rest) == multiset{r} + multiset(rs[1..]) && i < |rest|
    ensures Before(rs[0].id, rest[i].id)
  {
    assert rest[i] in multiset(rest);
    if rest[i] != r {
      assert rest[i] in multiset(rs[1..]);
      var j :| 0 <= j < |rs[1..]| && rs[1..][j] == rest[i];
      assert rs[1 + j] == rest[i];
    }
  }

  lemma {:induction false} InsertKeeps(r: Record, rs: seq<Record>)
    requires SortedById(rs) && forall i :: 0 <= i < |rs| ==> rs[i].id != r.id
    ensures SortedById(InsertById(r, rs)) && multiset(InsertById(r, rs)) == multiset{r} + multiset(rs)
  {
    if rs != [] && Before(rs[0].id, r.id) {
      InsertKeeps(r, rs[1..]);
      PutBackHead(r, rs, InsertById(r, rs[1..]));
    } else if rs != [] {
      BeforeIsTotal(r.id, rs[0].id);
      InsertAtHead(r, rs);
    }
  }

  lemma {:induction false} CanonicalSorts(rs: seq<Record>)
    requires DistinctIds(rs)
    ensures SortedById(Canonical(rs)) && multiset(Canonical(rs)) == multiset(rs)
  {
    if rs != [] {
      CanonicalSorts(rs[1..]);
      var tail := Canonical(rs[1..]);
      forall i | 0 <= i < |tail|
        ensures tail[i].id != rs[0].id
      {
        assert tail[i] in multiset(tail);
      }
      InsertKeeps(rs[0], tail);
      assert rs == [rs[0]] + rs[1..];
    }
  }

  lemma HeadIsLeast(xs: seq<Record>, ys: seq<Record>)
    requires SortedById(xs) && SortedById(ys) && multiset(xs) == multiset(ys) && xs != []
    ensures ys != [] && xs[0] == ys[0]
    ensures multiset(xs[1..]) == multiset(ys[1..])
  {
    assert xs[0] in multiset(ys);
    var j :| 0 <= j < |ys| && ys[j] == xs[0];
    assert ys[0] in multiset(xs);
    var i :| 0 <= i < |xs| && xs[i] == ys[0];
    if 0 < j && 0 < i {
      BeforeIsAsymmetric(xs[0].id, xs[i].id);
    }
    HeadAndTail(xs);
    HeadAndTail(ys);
  }

  lemma {:induction false} SortedIsUnique(xs: seq<Record>, ys: seq<Record>)
    requires SortedById(xs) && SortedById(ys) && multiset(xs) == multiset(ys)
    ensures xs == ys
  {
    if xs == [] {
      assert |multiset(ys)| == 0;
    } else {
      HeadIsLeast(xs, ys);
      SortedIsUnique(xs[1..], ys[1..]);
      assert xs == [xs[0]] + xs[1..] && ys == [ys[0]] + ys[1..];
    }
  }

  /** Records of distinct instruments are encoded alike exactly when they are the same records. */
  lemma EncodingIsFaithful(xs: seq<Record>, ys: seq<Record>)
    requires DistinctIds(xs) && DistinctIds(ys)
    ensures Canonical(xs) == Canonical(ys) <==> multiset(xs) == multiset(ys)
  {
    CanonicalSorts(xs);
    CanonicalSorts(ys);
    if multiset(xs) == multiset(ys) {
      SortedIsUnique(Canonical(xs), Canonical(ys));
    }
  }

  /** The encoding pins the value: under one policy, equal encodings are recognised at equal value. */
  lemma EncodingDeterminesValue(xs: seq<Record>, ys: seq<Record>, policy: Policy)
    requires PolicyValid(policy) && HaircutsValid(policy)
    requires DistinctIds(xs) && DistinctIds(ys) && AllReservedFree(xs) && Canonical(xs) == Canonical(ys)
    ensures PortfolioValue(xs, policy) == PortfolioValue(ys, policy)
    ensures Base(xs) == Base(ys) && Sum(xs, Market()) == Sum(ys, Market())
  {
    EncodingIsFaithful(xs, ys);
    WorstPermutes(xs, ys, policy, |policy.scenarios|);
    SumPermutes(xs, ys, Recognized());
    SumPermutes(xs, ys, Market());
  }

  /**
   * Two inputs with the same holdings are accepted or refused together; accepted, they have the same
   * canonical encoding and the same recognised value.
   */
  lemma SameHoldingsSameValue(raw: seq<Position>, raw': seq<Position>, policy: Policy)
    requires SameHoldings(raw, raw') && PolicyValid(policy) && HaircutsValid(policy)
    ensures Dedupe(raw).Ok? <==> Dedupe(raw').Ok?
    ensures Dedupe(raw).Ok? && AllReservedFree(Records(Dedupe(raw).value)) ==>
      var xs, ys := Records(Dedupe(raw).value), Records(Dedupe(raw').value);
      Canonical(xs) == Canonical(ys) && PortfolioValue(xs, policy) == PortfolioValue(ys, policy)
  {
    SameHoldingsMergeAlike(raw, raw');
    if Dedupe(raw).Ok? && AllReservedFree(Records(Dedupe(raw).value)) {
      var xs, ys := Records(Dedupe(raw).value), Records(Dedupe(raw').value);
      EncodingIsFaithful(xs, ys);
      EncodingDeterminesValue(xs, ys, policy);
    }
  }

  /** Reordering the input, or splitting a position in two, changes neither encoding nor value. */
  lemma OrderAndSplittingDoNotMatter(raw: seq<Position>, raw': seq<Position>, before: seq<Position>, whole: Position,
                                     p: Position, q: Position, after: seq<Position>, policy: Policy)
    requires PolicyValid(policy) && HaircutsValid(policy) && Dedupe(raw).Ok?
    requires AllReservedFree(Records(Dedupe(raw).value))
    requires multiset(raw') == multiset(raw)
             || (raw == before + [whole] + after && raw' == before + [p, q] + after && SplitsInto(whole, p, q))
    ensures Dedupe(raw').Ok?
    ensures
      var xs, ys := Records(Dedupe(raw).value), Records(Dedupe(raw').value);
      Canonical(xs) == Canonical(ys) && PortfolioValue(xs, policy) == PortfolioValue(ys, policy)
  {
    if multiset(raw') == multiset(raw) {
      PermutingKeepsHoldings(raw, raw');
    } else {
      SplittingKeepsHoldings(before, whole, p, q, after);
    }
    SameHoldingsSameValue(raw, raw', policy);
  }
}
