/** What merging duplicate instruments keeps, and when two lists of positions merge to the same records. */
module PortfolioMerging {
  import opened Sequences
  import opened PortfolioModel

  function PositionSum(raw: seq<Position>, id: string, f: Position -> nat): nat {
    if raw == [] then 0
    else PositionSum(raw[..|raw| - 1], id, f)
         + if raw[|raw| - 1].instrumentId == id then f(raw[|raw| - 1]) else 0
  }

  function RecognizedOf(): Position -> nat {
    (p: Position) => p.recognizedUsd18
  }

  function MarketOf(): Position -> nat {
    (p: Position) => p.marketUsd18
  }

  /** `q` stands for all positions of its instrument: their sums, their metadata, their least depth. */
  ghost predicate StandsFor(raw: seq<Position>, q: Position) {
    && q.recognizedUsd18 == PositionSum(raw, q.instrumentId, RecognizedOf())
    && q.marketUsd18 == PositionSum(raw, q.instrumentId, MarketOf())
    && Covers(raw, q)
    && HasDepth(raw, q.instrumentId, DepthOrZero(q))
  }

  predicate Covers(raw: seq<Position>, q: Position) {
    forall i :: 0 <= i < |raw| && raw[i].instrumentId == q.instrumentId ==>
      SameMetadata(raw[i], q) && DepthOrZero(q) <= DepthOrZero(raw[i])
  }

  predicate HasDepth(raw: seq<Position>, id: string, depth: int) {
    exists i :: 0 <= i < |raw| && raw[i].instrumentId == id && DepthOrZero(raw[i]) == depth
  }

  predicate Distinct(ps: seq<Position>) {
    forall i, j :: 0 <= i < j < |ps| ==> ps[i].instrumentId != ps[j].instrumentId
  }

  predicate Mentions(ps: seq<Position>, id: string) {
    exists i :: 0 <= i < |ps| && ps[i].instrumentId == id
  }

  /** The merged list: one position per instrument, each standing for all of its duplicates. */
  ghost predicate Merged(raw: seq<Position>, ps: seq<Position>) {
    && Distinct(ps)
    && (forall k :: 0 <= k < |ps| ==> StandsFor(raw, ps[k]))
    && (forall i :: 0 <= i < |raw| ==> Mentions(ps, raw[i].instrumentId))
  }

  lemma {:induction false} NoneToSum(raw: seq<Position>, id: string, f: Position -> nat)
    requires !Mentions(raw, id)
    ensures PositionSum(raw, id, f) == 0
  {
    if raw != [] {
      NoneToSum(raw[..|raw| - 1], id, f);
    }
  }

  lemma OthersUnaffected(front: seq<Position>, p: Position, q: Position)
    requires StandsFor(front, q) && q.instrumentId != p.instrumentId
    ensures StandsFor(front + [p], q)
  {
    assert (front + [p])[..|front|] == front;
    var i :| 0 <= i < |front| && front[i].instrumentId == q.instrumentId && DepthOrZero(front[i]) == DepthOrZero(q);
    assert (front + [p])[i] == front[i];
  }

  lemma FirstStandsForItself(front: seq<Position>, p: Position)
    requires !Mentions(front, p.instrumentId)
    ensures StandsFor(front + [p], p)
  {
    NoneToSum(front, p.instrumentId, RecognizedOf());
    NoneToSum(front, p.instrumentId, MarketOf());
    assert (front + [p])[..|front|] == front;
    assert (front + [p])[|front|] == p;
  }

  lemma MergeStandsForBoth(front: seq<Position>, p: Position, e: Position)
    requires StandsFor(front, e) && e.instrumentId == p.instrumentId && SameMetadata(e, p)
    ensures StandsFor(front + [p], Merge(e, p))
  {
    var raw, q := front + [p], Merge(e, p);
    assert raw[..|front|] == front;
    assert DepthOrZero(q) == Min(DepthOrZero(e), DepthOrZero(p));
    var i :| 0 <= i < |front| && front[i].instrumentId == e.instrumentId && DepthOrZero(front[i]) == DepthOrZero(e);
    assert raw[i] == front[i] && raw[|front|] == p;
    if DepthOrZero(e) < DepthOrZero(p) {
      assert DepthOrZero(q) == DepthOrZero(raw[i]);
    } else {
      assert DepthOrZero(q) == DepthOrZero(raw[|front|]);
    }
  }

  /** A list conflicts when two positions of one instrument carry different metadata. */
  predicate Conflicts(raw: seq<Position>) {
    exists i, j :: 0 <= i < |raw| && 0 <= j < |raw|
      && raw[i].instrumentId == raw[j].instrumentId && !SameMetadata(raw[i], raw[j])
  }

  /** An instrument not in the merged list was not in the input. */
  lemma NewInstrument(front: seq<Position>, merged: seq<Position>, id: string)
    requires Merged(front, merged) && !Mentions(merged, id)
    ensures !Mentions(front, id)
  {
    forall j | 0 <= j < |front|
      ensures front[j].instrumentId != id
    {
      assert Mentions(merged, front[j].instrumentId);
    }
  }

  /** What the position being absorbed leaves in its place. */
  function Absorbed(merged: seq<Position>, p: Position): Position {
    var i := IndexOf(merged, p.instrumentId);
    if i == |merged| then p else Merge(merged[i], p)
  }

  lemma AbsorbedStands(front: seq<Position>, merged: seq<Position>, p: Position)
    requires Merged(front, merged) && Absorb(merged, p).Ok?
    ensures StandsFor(front + [p], Absorbed(merged, p))
  {
    var i := IndexOf(merged, p.instrumentId);
    if i == |merged| {
      NewInstrument(front, merged, p.instrumentId);
      FirstStandsForItself(front, p);
    } else {
      assert StandsFor(front, merged[i]);
      MergeStandsForBoth(front, p, merged[i]);
    }
  }

  lemma RefusalIsAConflict(front: seq<Position>, merged: seq<Position>, p: Position)
    requires Merged(front, merged) && Absorb(merged, p).Err?
    ensures Conflicts(front + [p])
  {
    var i, raw := IndexOf(merged, p.instrumentId), front + [p];
    assert StandsFor(front, merged[i]);
    assert HasDepth(front, merged[i].instrumentId, DepthOrZero(merged[i]));
    var j :| 0 <= j < |front| && front[j].instrumentId == merged[i].instrumentId;
    assert SameMetadata(front[j], merged[i]);
    assert raw[j] == front[j] && raw[|front|] == p;
  }

  lemma StillAllStand(front: seq<Position>, merged: seq<Position>, p: Position, k: nat)
    requires Merged(front, merged) && Absorb(merged, p).Ok? && k < |Absorb(merged, p).value|
    ensures StandsFor(front + [p], Absorb(merged, p).value[k])
  {
    if k == IndexOf(merged, p.instrumentId) {
      AbsorbedStands(front, merged, p);
    } else {
      assert StandsFor(front, merged[k]);
      OthersUnaffected(front, p, merged[k]);
    }
  }

  lemma StillAllMentioned(front: seq<Position>, merged: seq<Position>, p: Position, j: nat)
    requires Merged(front, merged) && Absorb(merged, p).Ok? && j <= |front|
    ensures Mentions(Absorb(merged, p).value, (front + [p])[j].instrumentId)
  {
    var next := Absorb(merged, p).value;
    if j < |front| {
      assert Mentions(merged, front[j].instrumentId);
      var k :| 0 <= k < |merged| && merged[k].instrumentId == front[j].instrumentId;
      assert next[k].instrumentId == merged[k].instrumentId;
    } else {
      assert next[IndexOf(merged, p.instrumentId)].instrumentId == p.instrumentId;
    }
  }

  lemma StillDistinct(merged: seq<Position>, p: Position)
    requires Distinct(merged) && Absorb(merged, p).Ok?
    ensures Distinct(Absorb(merged, p).value)
  {
    var i, next := IndexOf(merged, p.instrumentId), Absorb(merged, p).value;
    forall j, k | 0 <= j < k < |next|
      ensures next[j].instrumentId != next[k].instrumentId
    {
      assert j < |merged| && next[j].instrumentId == merged[j].instrumentId;
      assert next[k].instrumentId == (if k < |merged| then merged[k].instrumentId else p.instrumentId);
    }
  }

  lemma AbsorbOne(front: seq<Position>, merged: seq<Position>, p: Position)
    requires Merged(front, merged)
    ensures Absorb(merged, p).Ok? ==> Merged(front + [p], Absorb(merged, p).value)
    ensures Absorb(merged, p).Err? ==> Conflicts(front + [p])
  {
    if Absorb(merged, p).Err? {
      RefusalIsAConflict(front, merged, p);
    } else {
      var next := Absorb(merged, p).value;
      StillDistinct(merged, p);
      forall k | 0 <= k < |next|
        ensures StandsFor(front + [p], next[k])
      {
        StillAllStand(front, merged, p, k);
      }
      forall j | 0 <= j < |front + [p]|
        ensures Mentions(next, (front + [p])[j].instrumentId)
      {
        StillAllMentioned(front, merged, p, j);
      }
    }
  }

  lemma ConflictsPersist(front: seq<Position>, p: Position)
    requires Conflicts(front)
    ensures Conflicts(front + [p])
  {
    var i, j :| 0 <= i < |front| && 0 <= j < |front|
      && front[i].instrumentId == front[j].instrumentId && !SameMetadata(front[i], front[j]);
    assert (front + [p])[i] == front[i] && (front + [p])[j] == front[j];
  }

  /** Merging succeeds exactly on lists without a conflict, and keeps sums, metadata and least depth. */
  lemma {:induction false} DedupeMerges(raw: seq<Position>)
    ensures Dedupe(raw).Ok? <==> !Conflicts(raw)
    ensures Dedupe(raw).Ok? ==> Merged(raw, Dedupe(raw).value)
  {
    if raw != [] {
      var front, p := raw[..|raw| - 1], raw[|raw| - 1];
      DedupeMerges(front);
      assert front + [p] == raw;
      if Dedupe(front).Err? {
        ConflictsPersist(front, p);
      } else {
        AbsorbOne(front, Dedupe(front).value, p);
        assert Dedupe(raw) == Absorb(Dedupe(front).value, p);
        if Dedupe(raw).Ok? {
          NoConflictWhenMerged(raw, Dedupe(raw).value);
        }
      }
    }
  }

  lemma NoConflictWhenMerged(raw: seq<Position>, ps: seq<Position>)
    requires Merged(raw, ps)
    ensures !Conflicts(raw)
  {
    forall i, j | 0 <= i < |raw| && 0 <= j < |raw| && raw[i].instrumentId == raw[j].instrumentId
      ensures SameMetadata(raw[i], raw[j])
    {
      assert Mentions(ps, raw[i].instrumentId);
      var k :| 0 <= k < |ps| && ps[k].instrumentId == raw[i].instrumentId;
      assert StandsFor(raw, ps[k]);
    }
  }

  // --------------------------------------------------------------------------- the same holdings

  /** Everything of a position but its two amounts. */
  function Meta(p: Position): Position {
    p.(recognizedUsd18 := 0, marketUsd18 := 0)
  }

  /** The same instruments with the same metadata and depths, and the same totals of each. */
  ghost predicate SameHoldings(raw: seq<Position>, raw': seq<Position>) {
    && (forall id: string :: PositionSum(raw, id, RecognizedOf()) == PositionSum(raw', id, RecognizedOf()))
    && (forall id: string :: PositionSum(raw, id, MarketOf()) == PositionSum(raw', id, MarketOf()))
    && (forall i :: 0 <= i < |raw| ==> HasMeta(raw', Meta(raw[i])))
    && (forall i :: 0 <= i < |raw'| ==> HasMeta(raw, Meta(raw'[i])))
  }

  predicate HasMeta(raw: seq<Position>, m: Position) {
    exists i :: 0 <= i < |raw| && Meta(raw[i]) == m
  }

  lemma ConflictsTransfer(raw: seq<Position>, raw': seq<Position>)
    requires Conflicts(raw) && forall i :: 0 <= i < |raw| ==> HasMeta(raw', Meta(raw[i]))
    ensures Conflicts(raw')
  {
    var i, j :| 0 <= i < |raw| && 0 <= j < |raw|
      && raw[i].instrumentId == raw[j].instrumentId && !SameMetadata(raw[i], raw[j]);
    assert HasMeta(raw', Meta(raw[i])) && HasMeta(raw', Meta(raw[j]));
    var k :| 0 <= k < |raw'| && Meta(raw'[k]) == Meta(raw[i]);
    var l :| 0 <= l < |raw'| && Meta(raw'[l]) == Meta(raw[j]);
    assert raw'[k].instrumentId == raw'[l].instrumentId && !SameMetadata(raw'[k], raw'[l]);
  }

  /** The metadata of one standing position is the other's, and its least depth is no larger. */
  lemma MetaCarriesOver(raw: seq<Position>, raw': seq<Position>, q: Position, q': Position)
    requires forall i :: 0 <= i < |raw| ==> HasMeta(raw', Meta(raw[i]))
    requires StandsFor(raw, q) && StandsFor(raw', q') && q.instrumentId == q'.instrumentId
    ensures SameMetadata(q, q') && DepthOrZero(q') <= DepthOrZero(q)
  {
    var i :| 0 <= i < |raw| && raw[i].instrumentId == q.instrumentId && DepthOrZero(raw[i]) == DepthOrZero(q);
    assert HasMeta(raw', Meta(raw[i]));
    var k :| 0 <= k < |raw'| && Meta(raw'[k]) == Meta(raw[i]);
    assert SameMetadata(raw[i], q);
    assert raw'[k].instrumentId == q'.instrumentId;
    assert SameMetadata(raw'[k], q') && DepthOrZero(q') <= DepthOrZero(raw'[k]);
  }

  /** Two positions standing for one instrument of the same holdings are the same record. */
  lemma SameRecord(raw: seq<Position>, raw': seq<Position>, q: Position, q': Position)
    requires SameHoldings(raw, raw') && StandsFor(raw, q) && StandsFor(raw', q') && q.instrumentId == q'.instrumentId
    ensures RecordOf(q) == RecordOf(q')
  {
    MetaCarriesOver(raw, raw', q, q');
    MetaCarriesOver(raw', raw, q', q);
  }

  predicate DistinctIds(rs: seq<Record>) {
    forall i, j :: 0 <= i < j < |rs| ==> rs[i].id != rs[j].id
  }

  lemma {:induction false} DistinctMultiplicity(rs: seq<Record>, r: Record)
    requires DistinctIds(rs)
    ensures multiset(rs)[r] == if r in rs then 1 else 0
  {
    if rs != [] {
      var front, last := rs[..|rs| - 1], rs[|rs| - 1];
      DistinctMultiplicity(front, r);
      assert rs == front + [last];
    }
  }

  lemma SameRecordsSameMultiset(rs: seq<Record>, rs': seq<Record>)
    requires DistinctIds(rs) && DistinctIds(rs')
    requires forall r :: r in rs <==> r in rs'
    ensures multiset(rs) == multiset(rs')
  {
    forall r: Record
      ensures multiset(rs)[r] == multiset(rs')[r]
    {
      DistinctMultiplicity(rs, r);
      DistinctMultiplicity(rs', r);
    }
  }

  lemma RecordsCarryOver(raw: seq<Position>, raw': seq<Position>, ps: seq<Position>, ps': seq<Position>, k: nat)
    requires SameHoldings(raw, raw') && Merged(raw, ps) && Merged(raw', ps') && k < |ps|
    ensures RecordOf(ps[k]) in Records(ps')
  {
    var q := ps[k];
    assert StandsFor(raw, q);
    var i :| 0 <= i < |raw| && raw[i].instrumentId == q.instrumentId && DepthOrZero(raw[i]) == DepthOrZero(q);
    assert HasMeta(raw', Meta(raw[i]));
    var j :| 0 <= j < |raw'| && Meta(raw'[j]) == Meta(raw[i]);
    assert Mentions(ps', raw'[j].instrumentId);
    var l :| 0 <= l < |ps'| && ps'[l].instrumentId == raw'[j].instrumentId;
    SameRecord(raw, raw', q, ps'[l]);
    assert Records(ps')[l] == RecordOf(q);
  }

  lemma MergedRecordsAgree(raw: seq<Position>, raw': seq<Position>, ps: seq<Position>, ps': seq<Position>)
    requires SameHoldings(raw, raw') && Merged(raw, ps) && Merged(raw', ps')
    ensures DistinctIds(Records(ps)) && DistinctIds(Records(ps'))
    ensures multiset(Records(ps)) == multiset(Records(ps'))
  {
    forall k | 0 <= k < |ps|
      ensures RecordOf(ps[k]) in Records(ps')
    {
      RecordsCarryOver(raw, raw', ps, ps', k);
    }
    forall k | 0 <= k < |ps'|
      ensures RecordOf(ps'[k]) in Records(ps)
    {
      RecordsCarryOver(raw', raw, ps', ps, k);
    }
    SameRecordsSameMultiset(Records(ps), Records(ps'));
  }

  /** Lists with the same holdings are accepted or refused together, and merge to the same records. */
  lemma SameHoldingsMergeAlike(raw: seq<Position>, raw': seq<Position>)
    requires SameHoldings(raw, raw')
    ensures Dedupe(raw).Ok? <==> Dedupe(raw').Ok?
    ensures Dedupe(raw).Ok? ==>
      && DistinctIds(Records(Dedupe(raw).value)) && DistinctIds(Records(Dedupe(raw').value))
      && multiset(Records(Dedupe(raw).value)) == multiset(Records(Dedupe(raw').value))
  {
    DedupeMerges(raw);
    DedupeMerges(raw');
    if Conflicts(raw) {
      ConflictsTransfer(raw, raw');
    } else if Conflicts(raw') {
      ConflictsTransfer(raw', raw);
    } else {
      MergedRecordsAgree(raw, raw', Dedupe(raw).value, Dedupe(raw').value);
    }
  }

  // ------------------------------------------------------------------ permuting and splitting

  lemma {:induction false} PositionSumConcat(xs: seq<Position>, ys: seq<Position>, id: string, f: Position -> nat)
    ensures PositionSum(xs + ys, id, f) == PositionSum(xs, id, f) + PositionSum(ys, id, f)
  {
    if ys == [] {
      assert xs + ys == xs;
    } else {
      PositionSumConcat(xs, ys[..|ys| - 1], id, f);
      assert (xs + ys)[..|xs + ys| - 1] == xs + ys[..|ys| - 1];
    }
  }

  lemma {:induction false} PositionSumPermutes(xs: seq<Position>, ys: seq<Position>, id: string, f: Position -> nat)
    requires multiset(xs) == multiset(ys)
    ensures PositionSum(xs, id, f) == PositionSum(ys, id, f)
  {
    if xs == [] {
      assert |multiset(ys)| == 0;
    } else {
      var k := LastElsewhere(xs, ys);
      PositionSumPermutes(xs[..|xs| - 1], Without(ys, k), id, f);
      SplitAround(ys, k);
      PositionSumConcat(ys[..k], ys[k + 1..], id, f);
      PositionSumConcat([ys[k]], ys[k + 1..], id, f);
      PositionSumConcat(ys[..k], [ys[k]] + ys[k + 1..], id, f);
      assert [ys[k]][..0] == [];
    }
  }

  /** Reordering the input keeps the holdings. */
  lemma PermutingKeepsHoldings(raw: seq<Position>, raw': seq<Position>)
    requires multiset(raw) == multiset(raw')
    ensures SameHoldings(raw, raw')
  {
    forall id: string, f: Position -> nat
      ensures PositionSum(raw, id, f) == PositionSum(raw', id, f)
    {
      PositionSumPermutes(raw, raw', id, f);
    }
    forall i | 0 <= i < |raw|
      ensures HasMeta(raw', Meta(raw[i]))
    {
      assert raw[i] in multiset(raw');
    }
    forall i | 0 <= i < |raw'|
      ensures HasMeta(raw, Meta(raw'[i]))
    {
      assert raw'[i] in multiset(raw);
    }
  }

  /** `p` and `q` are parts of `whole`: its metadata, and amounts that add up to its own. */
  predicate SplitsInto(whole: Position, p: Position, q: Position) {
    && Meta(p) == Meta(whole) && Meta(q) == Meta(whole)
    && p.recognizedUsd18 + q.recognizedUsd18 == whole.recognizedUsd18
    && p.marketUsd18 + q.marketUsd18 == whole.marketUsd18
  }

  /** Splitting one position into two parts of the same instrument keeps the holdings. */
  lemma SplittingKeepsHoldings(before: seq<Position>, whole: Position, p: Position, q: Position, after: seq<Position>)
    requires SplitsInto(whole, p, q)
    ensures SameHoldings(before + [whole] + after, before + [p, q] + after)
  {
    var raw, raw' := before + [whole] + after, before + [p, q] + after;
    forall id: string
      ensures PositionSum(raw, id, RecognizedOf()) == PositionSum(raw', id, RecognizedOf())
      ensures PositionSum(raw, id, MarketOf()) == PositionSum(raw', id, MarketOf())
    {
      SplitSum(before, whole, p, q, after, id, RecognizedOf());
      SplitSum(before, whole, p, q, after, id, MarketOf());
    }
    forall i | 0 <= i < |raw|
      ensures HasMeta(raw', Meta(raw[i]))
    {
      assert Meta(raw'[if i <= |before| then i else i + 1]) == Meta(raw[i]);
    }
    forall i | 0 <= i < |raw'|
      ensures HasMeta(raw, Meta(raw'[i]))
    {
      assert Meta(raw[if i <= |before| then i else i - 1]) == Meta(raw'[i]);
    }
  }

  lemma SplitSum(before: seq<Position>, whole: Position, p: Position, q: Position, after: seq<Position>,
                 id: string, f: Position -> nat)
    requires SplitsInto(whole, p, q) && f(p) + f(q) == f(whole)
    ensures PositionSum(before + [whole] + after, id, f) == PositionSum(before + [p, q] + after, id, f)
  {
    PositionSumConcat(before, [whole], id, f);
    PositionSumConcat(before + [whole], after, id, f);
    PositionSumConcat(before, [p, q], id, f);
    PositionSumConcat(before + [p, q], after, id, f);
    assert [whole][..0] == [] && [p, q][..1] == [p] && [p][..0] == [];
  }
}
