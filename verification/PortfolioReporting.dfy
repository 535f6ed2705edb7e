/**
 * Which input a portfolio evaluation refuses and why, in which order it lists instruments, what its encoding
 * holds, and what the constraints it names take.
 */
module PortfolioReporting {
  import opened Wrappers
  import opened Sequences
  import opened PortfolioModel
  import opened PortfolioMerging
  import opened PortfolioSums
  import opened PortfolioCaps
  import opened PortfolioInvariance
  import opened PortfolioBreakdown
  import opened PortfolioEvaluate
  import opened PortfolioMeaning

  // ------------------------------------------------------------------------------------- refusals

  /** The caps of a dimension are out of order, or out of range. */
  predicate CapsRefusedFor(c: Caps, d: Dimension, e: PortfolioError) {
    match e
    case UnknownCapAboveNamed(at) => at == d && c.unknown > c.named
    case CapOutOfRange(at) => at == d && c.unknown <= c.named && (c.named > 10_000 || c.unknown < 0)
    case _ => false
  }

  predicate CapsSound(c: Caps) {
    0 <= c.unknown <= c.named <= 10_000
  }

  /** The caps are complained about dimension by dimension, in this order, by the first unsound one. */
  lemma CapsRefusedInOrder(policy: Policy)
    ensures
      var e, c := FirstCapError(policy, 0), policy.caps;
      if !CapsSound(c.underlying) then e.Some? && CapsRefusedFor(c.underlying, Underlying, e.value)
      else if !CapsSound(c.issuer) then e.Some? && CapsRefusedFor(c.issuer, Issuer, e.value)
      else if !CapsSound(c.custody) then e.Some? && CapsRefusedFor(c.custody, Custody, e.value)
      else if !CapsSound(c.sector) then e.Some? && CapsRefusedFor(c.sector, Sector, e.value)
      else if !CapsSound(c.liquidity) then e.Some? && CapsRefusedFor(c.liquidity, Liquidity, e.value)
      else e.None?
  {
    CapErrorMeans(policy, Underlying);
    CapErrorMeans(policy, Issuer);
    CapErrorMeans(policy, Custody);
    CapErrorMeans(policy, Sector);
    CapErrorMeans(policy, Liquidity);
    CapErrorsFrom(policy, Liquidity, 4);
    CapErrorsFrom(policy, Sector, 3);
    CapErrorsFrom(policy, Custody, 2);
    CapErrorsFrom(policy, Issuer, 1);
    CapErrorsFrom(policy, Underlying, 0);
  }

  lemma CapErrorsFrom(policy: Policy, d: Dimension, k: nat)
    requires k < 5 && DIMENSIONS[k] == d
    ensures FirstCapError(policy, k) == if CapError(policy, d).Some? then CapError(policy, d)
                                        else if k == 4 then None else FirstCapError(policy, k + 1)
  {
  }

  lemma CapErrorMeans(policy: Policy, d: Dimension)
    ensures
      var e, c := CapError(policy, d), CapsOf(policy.caps, d);
      if CapsSound(c) then e.None? else e.Some? && CapsRefusedFor(c, d, e.value)
  {
  }

  /** The two bounds come first, then the caps, then a conflict, which names an instrument described two ways. */
  lemma RefusedInOrder(raw: seq<Position>, policy: Policy)
    requires HaircutsValid(policy)
    ensures
      var r := Evaluated(raw, policy);
      if |raw| > policy.maxInstruments then r == Err(TooManyInstruments)
      else if |policy.scenarios| > policy.maxScenarios then r == Err(TooManyScenarios)
      else if FirstCapError(policy, 0).Some? then r == Err(FirstCapError(policy, 0).value)
      else if Conflicts(raw) then
        r.Err? && r.error.ConflictingMetadata? && DescribedTwoWays(raw, r.error.instrumentId)
      else r.Ok?
  {
    CapsAreCheckedAll(policy);
    DedupeMerges(raw);
    if Dedupe(raw).Err? {
      RefusalNamesConflict(raw);
    }
  }

  predicate DescribedTwoWays(raw: seq<Position>, id: string) {
    exists i, j :: 0 <= i < j < |raw| && raw[i].instrumentId == id && raw[j].instrumentId == id
                   && !SameMetadata(raw[i], raw[j])
  }

  lemma {:induction false} RefusalNamesConflict(raw: seq<Position>)
    requires Dedupe(raw).Err?
    ensures Dedupe(raw).error.ConflictingMetadata? && DescribedTwoWays(raw, Dedupe(raw).error.instrumentId)
    decreases |raw|
  {
    var n := |raw| - 1;
    var front := raw[..n];
    if Dedupe(front).Err? {
      RefusalNamesConflict(front);
      var i, j :| 0 <= i < j < n && front[i].instrumentId == Dedupe(raw).error.instrumentId
                  && front[j].instrumentId == Dedupe(raw).error.instrumentId && !SameMetadata(front[i], front[j]);
      assert raw[i] == front[i] && raw[j] == front[j];
    } else {
      DedupeMerges(front);
      LastConflicts(raw, Dedupe(front).value);
    }
  }

  lemma LastConflicts(raw: seq<Position>, merged: seq<Position>)
    requires raw != [] && Merged(raw[..|raw| - 1], merged) && Absorb(merged, raw[|raw| - 1]).Err?
    ensures Absorb(merged, raw[|raw| - 1]) == Err(ConflictingMetadata(raw[|raw| - 1].instrumentId))
    ensures DescribedTwoWays(raw, raw[|raw| - 1].instrumentId)
  {
    var n := |raw| - 1;
    var p := raw[n];
    var k := IndexOf(merged, p.instrumentId);
    assert StandsFor(raw[..n], merged[k]);
    assert HasDepth(raw[..n], merged[k].instrumentId, DepthOrZero(merged[k]));
    var i :| 0 <= i < n && raw[..n][i].instrumentId == p.instrumentId
             && DepthOrZero(raw[..n][i]) == DepthOrZero(merged[k]);
    assert SameMetadata(raw[..n][i], merged[k]);
    assert raw[i] == raw[..n][i] && !SameMetadata(raw[i], raw[n]);
  }

  // -------------------------------------------------------------------------- order of instruments

  function IdOf(): Position -> Option<string> {
    (p: Position) => Some(p.instrumentId)
  }

  function Ids(ps: seq<Position>): seq<string> {
    seq(|ps|, i requires 0 <= i < |ps| => ps[i].instrumentId)
  }

  /** Merged positions, and so all results, stand in the order in which their instruments first appear. */
  lemma {:induction false} FirstAppearanceOrder(raw: seq<Position>)
    requires Dedupe(raw).Ok?
    ensures Ids(Dedupe(raw).value) == Firsts(Map(IdOf(), raw))
    decreases |raw|
  {
    if raw != [] {
      var n := |raw| - 1;
      FirstAppearanceOrder(raw[..n]);
      assert Map(IdOf(), raw)[..n] == Map(IdOf(), raw[..n]);
      AbsorbedIds(Dedupe(raw[..n]).value, raw[n]);
    }
  }

  lemma AbsorbedIds(merged: seq<Position>, p: Position)
    requires Absorb(merged, p).Ok?
    ensures Ids(Absorb(merged, p).value) == Noted(Ids(merged), Some(p.instrumentId))
  {
    var k := IndexOf(merged, p.instrumentId);
    if k < |merged| {
      assert Ids(merged)[k] == p.instrumentId;
      assert Ids(Absorb(merged, p).value) == Ids(merged);
    } else {
      assert p.instrumentId !in Ids(merged);
      assert Ids(Absorb(merged, p).value) == Ids(merged) + [p.instrumentId];
    }
  }

  // ------------------------------------------------------------------------------------- encoding

  /** What the encoding writes of a position: a missing and a null group alike, a missing depth as zero. */
  lemma RecordIsFaithful(p: Position, q: Position)
    ensures RecordOf(p) == RecordOf(q)
            <==> p.instrumentId == q.instrumentId && p.homeDomain == q.homeDomain
                 && p.recognizedUsd18 == q.recognizedUsd18 && p.marketUsd18 == q.marketUsd18
                 && p.session == q.session && p.depthUsd18.GetOr(0) == q.depthUsd18.GetOr(0)
                 && WrittenAlike(p, q, Underlying) && WrittenAlike(p, q, Issuer) && WrittenAlike(p, q, Custody)
                 && WrittenAlike(p, q, Sector) && WrittenAlike(p, q, Liquidity)
  {
  }

  predicate WrittenAlike(p: Position, q: Position, d: Dimension) {
    (if d in p.groups then p.groups[d] else None) == (if d in q.groups then q.groups[d] else None)
  }

  /** One string comes before another when it is a proper beginning of it, or smaller where they first differ. */
  lemma {:induction false} BeforeMeans(a: string, b: string)
    ensures Before(a, b)
            <==> exists k :: 0 <= k <= |a| && k < |b| && a[..k] == b[..k] && (k == |a| || a[k] < b[k])
  {
    if a == "" {
      assert b != "" ==> a[..0] == b[..0];
    } else if b != "" && a[0] == b[0] {
      BeforeMeans(a[1..], b[1..]);
      if Before(a, b) {
        var k :| 0 <= k <= |a[1..]| && k < |b[1..]| && a[1..][..k] == b[1..][..k]
                 && (k == |a[1..]| || a[1..][k] < b[1..][k]);
        assert a[..k + 1] == [a[0]] + a[1..][..k] && b[..k + 1] == [b[0]] + b[1..][..k];
      }
      if k :| 0 <= k <= |a| && k < |b| && a[..k] == b[..k] && (k == |a| || a[k] < b[k]) {
        assert k > 0;
        assert a[1..][..k - 1] == a[..k][1..] && b[1..][..k - 1] == b[..k][1..];
      }
    } else if b != "" {
      assert a[..0] == b[..0];
      if k :| 0 <= k <= |a| && k < |b| && a[..k] == b[..k] && (k == |a| || a[k] < b[k]) {
        assert k > 0 ==> a[..k][0] == b[..k][0];
      }
    }
  }

  /** The encoding holds what is written of every merged position, once, in ascending order of instruments. */
  lemma EncodingMeans(raw: seq<Position>, policy: Policy, ps: seq<Position>, e: Evaluation)
    requires HaircutsValid(policy) && Reports(raw, policy, ps, e)
    ensures multiset(e.canonicalInput.positions) == multiset(Records(ps))
    ensures forall i, j :: 0 <= i < j < |e.canonicalInput.positions| ==>
      Before(e.canonicalInput.positions[i].id, e.canonicalInput.positions[j].id)
    ensures e.canonicalInput.policy == policy
  {
    ReportsAreSound(raw, policy, ps, e);
    DedupedIdsAreDistinct(raw);
    CanonicalSorts(Records(ps));
  }

  // -------------------------------------------------------------------------------- the breakdown

  /** The constraint named for a position is the first to bring it to its scale. */
  lemma BindingIsFirst(rs: seq<Record>, base: nat, policy: Policy, r: Record, n: nat)
    requires PolicyValid(policy) && n <= |DIMENSIONS|
    ensures
      var b := BindingUpTo(rs, base, policy, r, n);
      && (b.InDimension? ==>
            && DimensionScale(rs, base, policy, b.d, r) < SessionScale(policy, r.session)
            && forall k :: 0 <= k < IndexOfDimension(b.d) ==>
                 DimensionScale(rs, base, policy, b.d, r) < DimensionScale(rs, base, policy, DIMENSIONS[k], r))
      && (b.BySession? ==>
            forall k :: 0 <= k < n ==>
              SessionScale(policy, r.session) <= DimensionScale(rs, base, policy, DIMENSIONS[k], r))
  {
    var b := BindingUpTo(rs, base, policy, r, n);
    BindingExplainsUpTo(rs, base, policy, r, n);
    BelowAllBefore(rs, base, policy, r, n);
    if b.InDimension? {
      NamedFirst(rs, base, policy, r, n);
      BelowAllBefore(rs, base, policy, r, IndexOfDimension(b.d));
    }
  }

  /** The named dimension brought the scale below everything before it. */
  lemma {:induction false} NamedFirst(rs: seq<Record>, base: nat, policy: Policy, r: Record, n: nat)
    requires PolicyValid(policy) && n <= |DIMENSIONS| && BindingUpTo(rs, base, policy, r, n).InDimension?
    ensures
      var d := BindingUpTo(rs, base, policy, r, n).d;
      DimensionScale(rs, base, policy, d, r) < ScaleUpTo(rs, base, policy, r, IndexOfDimension(d))
    decreases n
  {
    var e := DIMENSIONS[n - 1];
    assert IndexOfDimension(e) == n - 1;
    if !(DimensionScale(rs, base, policy, e, r) < ScaleUpTo(rs, base, policy, r, n - 1)) {
      NamedFirst(rs, base, policy, r, n - 1);
    }
  }

  lemma {:induction false} BelowAllBefore(rs: seq<Record>, base: nat, policy: Policy, r: Record, n: nat)
    requires PolicyValid(policy) && n <= |DIMENSIONS|
    ensures ScaleUpTo(rs, base, policy, r, n) <= SessionScale(policy, r.session)
    ensures forall k :: 0 <= k < n ==>
      ScaleUpTo(rs, base, policy, r, n) <= DimensionScale(rs, base, policy, DIMENSIONS[k], r)
    decreases n
  {
    if n > 0 {
      BelowAllBefore(rs, base, policy, r, n - 1);
    }
  }

  /** A position's scale when only one dimension may bind is that dimension's; when none, its session's. */
  lemma {:induction false} AloneUpTo(rs: seq<Record>, policy: Policy, r: Record, d: Dimension, n: nat)
    requires PolicyValid(policy) && n <= |DIMENSIONS|
    requires forall c: Dimension :: c != d ==> !HeldBack(rs, policy, c, r)
    ensures ScaleUpTo(rs, Base(rs), policy, r, n)
            == if IndexOfDimension(d) < n
               then Min(SessionScale(policy, r.session), DimensionScale(rs, Base(rs), policy, d, r))
               else SessionScale(policy, r.session)
    decreases n
  {
    if n > 0 {
      AloneUpTo(rs, policy, r, d, n - 1);
      assert DIMENSIONS[n - 1] == d <==> IndexOfDimension(d) == n - 1;
      assert DIMENSIONS[n - 1] != d ==> !HeldBack(rs, policy, DIMENSIONS[n - 1], r);
    }
  }

  /** The other dimensions hold nobody back. */
  predicate NoOtherBinds(rs: seq<Record>, policy: Policy, d: Dimension)
    requires PolicyValid(policy)
  {
    forall i :: 0 <= i < |rs| ==> forall c: Dimension :: c != d ==> !HeldBack(rs, policy, c, rs[i])
  }

  /** A dimension that binds alone takes exactly its standalone reduction from the value. */
  lemma DimensionAloneTakesItsReduction(rs: seq<Record>, policy: Policy, d: Dimension)
    requires PolicyValid(policy) && HaircutsValid(policy) && policy.scenarios == []
    requires NoOtherBinds(rs, policy, d)
    requires forall i :: 0 <= i < |rs| ==> SessionScale(policy, rs[i].session) == WAD
    ensures PortfolioValue(rs, policy) == Base(rs) - Breakdown(rs, policy)[IndexOfDimension(d)].usd18
  {
    forall i | 0 <= i < |rs|
      ensures Working(rs, policy)(rs[i]) == DimensionOnly(rs, policy, d)(rs[i])
    {
      AloneUpTo(rs, policy, rs[i], d, |DIMENSIONS|);
    }
    SumEqual(rs, Working(rs, policy), DimensionOnly(rs, policy, d));
    DimensionPartIn(rs, policy, d);
  }

  /** So does the session factor, and whatever binds besides, the stress part is all that is missing from the base. */
  lemma SessionAndStressTakeTheirReductions(rs: seq<Record>, policy: Policy)
    requires PolicyValid(policy) && HaircutsValid(policy)
    ensures PortfolioValue(rs, policy) == Base(rs) - Breakdown(rs, policy)[6].usd18
    ensures Breakdown(rs, policy)[5].kind == BySession && Breakdown(rs, policy)[6].kind == ByStress
    ensures policy.scenarios == []
            && (forall i :: 0 <= i < |rs| ==> forall c: Dimension :: !HeldBack(rs, policy, c, rs[i])) ==>
      PortfolioValue(rs, policy) == Base(rs) - Breakdown(rs, policy)[5].usd18
  {
    ValueOnlyReduces(rs, policy);
    if policy.scenarios == [] && forall i :: 0 <= i < |rs| ==> forall c: Dimension :: !HeldBack(rs, policy, c, rs[i]) {
      forall i | 0 <= i < |rs|
        ensures Working(rs, policy)(rs[i]) == SessionOnly(policy)(rs[i])
      {
        AloneUpTo(rs, policy, rs[i], Underlying, |DIMENSIONS|);
        assert !HeldBack(rs, policy, Underlying, rs[i]);
      }
      SumEqual(rs, Working(rs, policy), SessionOnly(policy));
    }
  }

  /** A dimension lists exactly the groups that hold a position back; the session part, the short sessions. */
  lemma ListedExactlyWhenBinding(rs: seq<Record>, policy: Policy, d: Dimension, g: string)
    requires PolicyValid(policy)
    ensures g in BindingGroups(rs, policy, d)
            <==> exists i :: 0 <= i < |rs| && HeldBack(rs, policy, d, rs[i]) && KeyIn(rs[i], d) == g
    ensures g in SessionPart(rs, policy).groups
            <==> exists i :: 0 <= i < |rs| && Short(policy, rs[i]) && SessionName(rs[i].session) == g
  {
    FirstsAreTheValues(Map(OverKey(rs, policy, d), rs));
    FirstsAreTheValues(Map(ShortSession(policy), rs));
    ListedInMap(OverKey(rs, policy, d), rs, g);
    ListedInMap(ShortSession(policy), rs, g);
    assert forall i :: 0 <= i < |rs| ==>
      (OverKey(rs, policy, d)(rs[i]) == Some(g) <==> HeldBack(rs, policy, d, rs[i]) && KeyIn(rs[i], d) == g);
    assert forall i :: 0 <= i < |rs| ==>
      (ShortSession(policy)(rs[i]) == Some(g) <==> Short(policy, rs[i]) && SessionName(rs[i].session) == g);
  }

  lemma ListedInMap(f: Record -> Option<string>, rs: seq<Record>, g: string)
    ensures Some(g) in Map(f, rs) <==> exists i :: 0 <= i < |rs| && f(rs[i]) == Some(g)
  {
    var labels := Map(f, rs);
    assert forall i :: 0 <= i < |rs| ==> labels[i] == f(rs[i]);
    if i :| 0 <= i < |rs| && f(rs[i]) == Some(g) {
      assert labels[i] == Some(g);
    }
  }

  /** What is reported to bind a position: nothing exactly at full scale; a dimension, with the group it names. */
  lemma BindingReported(raw: seq<Position>, policy: Policy, ps: seq<Position>, e: Evaluation, i: nat)
    requires HaircutsValid(policy) && Reports(raw, policy, ps, e) && i < |ps| && 0 < e.singleTotalUsd18
    ensures |e.positions| == |ps|
    ensures e.positions[i].binding == Unbound <==> e.positions[i].scaleWad == 1_000_000_000_000_000_000
    ensures e.positions[i].binding != ByStress
    ensures e.positions[i].bindingGroup.Some? <==> e.positions[i].binding.InDimension?
    ensures e.positions[i].binding.InDimension? ==>
      e.positions[i].bindingGroup == Some(KeyIn(RecordOf(ps[i]), e.positions[i].binding.d))
  {
    ReportsAreSound(raw, policy, ps, e);
    BindingExplainsUpTo(Records(ps), Base(Records(ps)), policy, RecordOf(ps[i]), |DIMENSIONS|);
  }

  /** The parts reported: the five dimensions, the session and the stress, which lists every scenario in turn. */
  lemma BreakdownReported(raw: seq<Position>, policy: Policy, ps: seq<Position>, e: Evaluation)
    requires HaircutsValid(policy) && Reports(raw, policy, ps, e) && 0 < e.singleTotalUsd18
    ensures PartsInOrder(e.breakdown) && ListsEveryScenario(e.breakdown[6].groups, policy.scenarios)
    ensures e.recognizedUsd18 == e.singleTotalUsd18 - e.breakdown[6].usd18
  {
    ReportsAreSound(raw, policy, ps, e);
    BreakdownHasParts(Records(ps), policy);
  }

  predicate PartsInOrder(parts: seq<Reduction>) {
    && |parts| == 7
    && parts[0].kind == InDimension(Underlying) && parts[1].kind == InDimension(Issuer)
    && parts[2].kind == InDimension(Custody) && parts[3].kind == InDimension(Sector)
    && parts[4].kind == InDimension(Liquidity) && parts[5].kind == BySession && parts[6].kind == ByStress
  }

  predicate ListsEveryScenario(ids: seq<string>, scenarios: seq<Scenario>) {
    |ids| == |scenarios| && forall k :: 0 <= k < |scenarios| ==> ids[k] == scenarios[k].id
  }

  lemma BreakdownHasParts(rs: seq<Record>, policy: Policy)
    requires PolicyValid(policy) && HaircutsValid(policy)
    ensures PartsInOrder(Breakdown(rs, policy))
    ensures ListsEveryScenario(Breakdown(rs, policy)[6].groups, policy.scenarios)
    ensures PortfolioValue(rs, policy) == Base(rs) - Breakdown(rs, policy)[6].usd18
  {
    SessionAndStressTakeTheirReductions(rs, policy);
  }

  /** The first of the parts to take the most, when any takes anything. */
  predicate TakesMost(parts: seq<Reduction>, k: int) {
    && 0 <= k < |parts| && parts[k].usd18 > 0
    && (forall j :: 0 <= j < |parts| ==> parts[j].usd18 <= parts[k].usd18)
    && (forall j :: 0 <= j < k ==> parts[j].usd18 < parts[k].usd18)
  }

  lemma BindingConstraintReported(raw: seq<Position>, policy: Policy, ps: seq<Position>, e: Evaluation)
    requires HaircutsValid(policy) && Reports(raw, policy, ps, e)
    ensures (forall k :: 0 <= k < |e.breakdown| ==> e.breakdown[k].usd18 <= 0) ==> e.bindingConstraint == Unbound
    ensures forall k | TakesMost(e.breakdown, k) :: e.bindingConstraint == e.breakdown[k].kind
  {
    ReportsAreSound(raw, policy, ps, e);
    LargestIsFirstLargest(e.breakdown);
    forall k | TakesMost(e.breakdown, k)
      ensures e.bindingConstraint == e.breakdown[k].kind
    {
      var i :| 0 <= i < |e.breakdown| && e.breakdown[i].kind == e.bindingConstraint
               && e.breakdown[i].usd18 == Largest(e.breakdown).1
               && forall j :: 0 <= j < i ==> e.breakdown[j].usd18 < Largest(e.breakdown).1;
      assert i == k;
    }
  }
}
