/**
 * packages/chaingpt/src/chunk.ts: overlapping chunks of a document, cut at the last paragraph break,
 * line break or sentence end in the last quarter of the window, and at the raw boundary otherwise.
 */
module Chunker {
  import opened Wrappers

  datatype Bound = Bound(start: nat, end: nat)

  datatype Chunk = Chunk(index: nat, total: nat, startOffset: nat, endOffset: nat, text: string)

  /** `sep` stands at position `i` of `text`. */
  predicate At(text: string, sep: string, i: nat) {
    i + |sep| <= |text| && text[i..i + |sep|] == sep
  }

  /** The last position of `sep` in `text`, or nothing. */
  method LastIndexOf(text: string, sep: string) returns (at: Option<nat>)
    ensures at.Some? ==> At(text, sep, at.value)
    ensures at.Some? ==> forall i :: at.value < i ==> !At(text, sep, i)
    ensures at.None? ==> forall i: nat :: !At(text, sep, i)
  {
    if |sep| > |text| {
      return None;
    }
    var i: int := |text| - |sep|;
    while 0 <= i
      invariant -1 <= i <= |text| - |sep|
      invariant forall j: nat :: i < j ==> !At(text, sep, j)
    {
      if text[i..i + |sep|] == sep {
        return Some(i);
      }
      i := i - 1;
    }
    return None;
  }

  /** Where three quarters of the window end. */
  function Threshold(target: nat): nat {
    3 * target / 4
  }

  const SEPARATORS: seq<string> := ["\n\n", "\n", ". "]

  /** `sep` occurs in the last quarter of the window. */
  ghost predicate Available(window: string, sep: string, floor: nat) {
    exists i: nat :: floor <= i && At(window, sep, i)
  }

  /**
   * The length kept of a full window: just past the last occurrence of the most preferred separator
   * found in its last quarter, or all of it when none of the three occurs there.
   */
  ghost predicate IsCut(window: string, floor: nat, kept: nat) {
    if Available(window, SEPARATORS[0], floor) then EndsAt(window, SEPARATORS[0], floor, kept)
    else if Available(window, SEPARATORS[1], floor) then EndsAt(window, SEPARATORS[1], floor, kept)
    else if Available(window, SEPARATORS[2], floor) then EndsAt(window, SEPARATORS[2], floor, kept)
    else kept == |window|
  }

  ghost predicate EndsAt(window: string, sep: string, floor: nat, kept: nat) {
    && floor + |sep| <= kept && At(window, sep, kept - |sep|)
    && forall i :: kept - |sep| < i ==> !At(window, sep, i)
  }

  lemma CutAt(window: string, floor: nat, k: nat, at: nat)
    requires k < |SEPARATORS| && NoneAvailable(window, floor, k)
    requires floor <= at && At(window, SEPARATORS[k], at)
    requires forall i: nat :: at < i ==> !At(window, SEPARATORS[k], i)
    ensures IsCut(window, floor, at + |SEPARATORS[k]|)
    ensures floor < at + |SEPARATORS[k]| <= |window|
  {
    assert Available(window, SEPARATORS[k], floor);
    assert EndsAt(window, SEPARATORS[k], floor, at + |SEPARATORS[k]|);
  }

  /** None of the first `k` separators occurs in the last quarter. */
  ghost predicate NoneAvailable(window: string, floor: nat, k: nat)
    requires k <= |SEPARATORS|
  {
    forall j :: 0 <= j < k ==> !Available(window, SEPARATORS[j], floor)
  }

  lemma NoCut(window: string, floor: nat)
    requires NoneAvailable(window, floor, |SEPARATORS|)
    ensures IsCut(window, floor, |window|)
  {
    assert !Available(window, SEPARATORS[0], floor) && !Available(window, SEPARATORS[1], floor);
    assert !Available(window, SEPARATORS[2], floor);
  }

  method CutWindow(window: string, floor: nat) returns (kept: nat)
    ensures IsCut(window, floor, kept)
    ensures kept <= |window| && (kept < |window| ==> floor < kept)
  {
    kept := |window|;
    for k := 0 to |SEPARATORS|
      invariant kept == |window| && NoneAvailable(window, floor, k)
    {
      var at := LastInReach(window, SEPARATORS[k], floor);
      if at.Some? {
        CutAt(window, floor, k, at.value);
        return at.value + |SEPARATORS[k]|;
      }
    }
    NoCut(window, floor);
  }

  /** The last occurrence of `sep`, when it starts in the last quarter. */
  method LastInReach(window: string, sep: string, floor: nat) returns (at: Option<nat>)
    ensures at.Some? ==> floor <= at.value && At(window, sep, at.value)
    ensures at.Some? ==> forall i: nat :: at.value < i ==> !At(window, sep, i)
    ensures at.None? ==> !Available(window, sep, floor)
  {
    at := LastIndexOf(window, sep);
    if at.Some? && at.value < floor {
      at := None;
    }
  }

  // ------------------------------------------------------------------------------- the guarantee

  /** One chunk follows another without a gap, strictly further on. */
  predicate Follows(b: Bound, c: Bound, overlap: nat) {
    b.start < c.start <= b.end && c.start == (if b.start + 1 < b.end - overlap then b.end - overlap else b.start + 1)
  }

  /** A chunk is non-empty, no longer than the target, and short only after a cut or at the end. */
  predicate Sized(b: Bound, n: nat, target: nat) {
    b.start < b.end <= n && b.end - b.start <= target
    && (b.end < n ==> Threshold(target) < b.end - b.start)
  }

  /** A chain of chunks from the beginning of a text of length n. */
  predicate Chain(bounds: seq<Bound>, n: nat, target: nat, overlap: nat) {
    && bounds != [] && bounds[0].start == 0
    && (forall i :: 0 <= i < |bounds| ==> Sized(bounds[i], n, target))
    && (forall i :: 0 < i < |bounds| ==> Follows(bounds[i - 1], bounds[i], overlap))
  }

  /** Every span of `text` of at most `width` characters lies inside one chunk. */
  ghost predicate CoversSpans(bounds: seq<Bound>, n: nat, width: nat) {
    forall a, b :: 0 <= a <= b <= n && b - a <= width ==> SpanCovered(bounds, a, b)
  }

  ghost predicate SpanCovered(bounds: seq<Bound>, a: int, b: int) {
    exists i :: 0 <= i < |bounds| && bounds[i].start <= a && b <= bounds[i].end
  }

  function Smaller(a: nat, b: nat): nat {
    if a < b then a else b
  }

  /** The last chunk of a prefix of the chain that starts at or before `a`. */
  lemma {:induction false} LastStartBefore(bounds: seq<Bound>, a: nat, k: nat) returns (i: nat)
    requires 0 < k <= |bounds| && bounds[0].start == 0
    ensures i < k && bounds[i].start <= a
    ensures i + 1 < k ==> a < bounds[i + 1].start
  {
    if k == 1 || bounds[k - 1].start <= a {
      i := k - 1;
    } else {
      i := LastStartBefore(bounds, a, k - 1);
    }
  }

  /** A complete chain covers every span of up to `min(overlap, threshold) + 1` characters. */
  lemma ChainCoversSpans(bounds: seq<Bound>, n: nat, target: nat, overlap: nat)
    requires 0 < target && Chain(bounds, n, target, overlap) && bounds[|bounds| - 1].end == n
    ensures CoversSpans(bounds, n, Smaller(overlap, Threshold(target)) + 1)
  {
    forall a, b | 0 <= a <= b <= n && b - a <= Smaller(overlap, Threshold(target)) + 1
      ensures SpanCovered(bounds, a, b)
    {
      var i := LastStartBefore(bounds, a, |bounds|);
      assert Sized(bounds[i], n, target);
      if i + 1 < |bounds| {
        assert Follows(bounds[i], bounds[i + 1], overlap);
      }
      assert bounds[i].start <= a && b <= bounds[i].end;
    }
  }

  function MaxEnd(bounds: seq<Bound>): nat {
    if bounds == [] then 0
    else
      var before, last := MaxEnd(bounds[..|bounds| - 1]), bounds[|bounds| - 1].end;
      if before < last then last else before
  }

  lemma {:induction false} EndsBelowMax(bounds: seq<Bound>, i: nat)
    requires i < |bounds|
    ensures bounds[i].end <= MaxEnd(bounds)
  {
    if i < |bounds| - 1 {
      EndsBelowMax(bounds[..|bounds| - 1], i);
    }
  }

  /** What the last chunk of a chain adds: its own text beyond the furthest end before it. */
  function Added(text: string, front: seq<Bound>, last: Bound): string
    requires last.start <= last.end <= |text|
  {
    var slice, seen := text[last.start..last.end], MaxEnd(front);
    if last.start <= seen < last.end then slice[seen - last.start..] else ""
  }

  /** The text put together again from the chunks, each contributing what is new in it. */
  function Rebuilt(text: string, bounds: seq<Bound>): string
    requires forall i :: 0 <= i < |bounds| ==> bounds[i].start <= bounds[i].end <= |text|
  {
    if bounds == [] then ""
    else Rebuilt(text, bounds[..|bounds| - 1]) + Added(text, bounds[..|bounds| - 1], bounds[|bounds| - 1])
  }

  lemma {:induction false} ChainRebuildsPrefix(text: string, bounds: seq<Bound>, target: nat, overlap: nat)
    requires Chain(bounds, |text|, target, overlap)
    ensures MaxEnd(bounds) <= |text| && Rebuilt(text, bounds) == text[..MaxEnd(bounds)]
  {
    var n := |bounds| - 1;
    var front, last := bounds[..n], bounds[n];
    assert Sized(last, |text|, target);
    if n == 0 {
      assert front == [] && MaxEnd(front) == 0;
      assert Added(text, front, last) == text[..last.end];
    } else {
      assert Chain(front, |text|, target, overlap) by {
        assert forall i :: 0 <= i < n ==> front[i] == bounds[i];
      }
      ChainRebuildsPrefix(text, front, target, overlap);
      assert Follows(bounds[n - 1], last, overlap);
      EndsBelowMax(front, n - 1);
      AddedExtends(text, front, last);
    }
  }

  lemma AddedExtends(text: string, front: seq<Bound>, last: Bound)
    requires last.start <= last.end <= |text| && last.start <= MaxEnd(front) <= |text|
    ensures
      text[..MaxEnd(front)] + Added(text, front, last)
      == text[..if MaxEnd(front) < last.end then last.end else MaxEnd(front)]
  {
    var seen := MaxEnd(front);
    if seen < last.end {
      assert text[last.start..last.end][seen - last.start..] == text[seen..last.end];
    }
  }

  /** Nothing is lost and nothing is invented: the chunks of a complete chain rebuild the text. */
  lemma ChainRebuilds(text: string, bounds: seq<Bound>, target: nat, overlap: nat)
    requires Chain(bounds, |text|, target, overlap) && bounds[|bounds| - 1].end == |text|
    ensures Rebuilt(text, bounds) == text
  {
    ChainRebuildsPrefix(text, bounds, target, overlap);
    EndsBelowMax(bounds, |bounds| - 1);
    assert text[..|text|] == text;
  }

  // --------------------------------------------------------------------------------- the chunker

  /** A chunk ends where the source cuts its window, or at the end of the text. */
  ghost predicate WellCut(text: string, target: nat, b: Bound) {
    && b.start <= b.end <= |text|
    && (b.start + target < |text| ==> IsCut(text[b.start..b.start + target], Threshold(target), b.end - b.start))
    && (b.start + target >= |text| ==> b.end == |text|)
  }

  /** The chunks so far form a chain, are cut as the source cuts, and the cursor is where the next starts. */
  ghost predicate Progress(text: string, target: nat, overlap: nat, bounds: seq<Bound>, cursor: nat) {
    && (forall i :: 0 <= i < |bounds| ==> WellCut(text, target, bounds[i]))
    && cursor < |text|
    && if bounds == [] then cursor == 0
       else
         && Chain(bounds, |text|, target, overlap)
         && Follows(bounds[|bounds| - 1], Bound(cursor, |text|), overlap)
  }

  lemma Extends(text: string, target: nat, overlap: nat, bounds: seq<Bound>, cursor: nat, b: Bound)
    requires Progress(text, target, overlap, bounds, cursor)
    requires b.start == cursor && Sized(b, |text|, target) && WellCut(text, target, b)
    ensures Chain(bounds + [b], |text|, target, overlap)
    ensures forall i :: 0 <= i < |bounds + [b]| ==> WellCut(text, target, (bounds + [b])[i])
  {
    var next := bounds + [b];
    forall i | 0 < i < |next|
      ensures Follows(next[i - 1], next[i], overlap)
    {
      if i < |bounds| {
        assert Follows(bounds[i - 1], bounds[i], overlap);
      }
    }
  }

  method NextEnd(text: string, target: nat, cursor: nat) returns (end: nat)
    requires 0 < target && cursor < |text|
    ensures Sized(Bound(cursor, end), |text|, target) && WellCut(text, target, Bound(cursor, end))
  {
    var hardEnd := Smaller(cursor + target, |text|);
    end := hardEnd;
    if hardEnd < |text| {
      var kept := CutWindow(text[cursor..hardEnd], Threshold(target));
      end := cursor + kept;
    }
  }

  /** The loop of the source over a text longer than the target. */
  method Bounds(text: string, target: nat, overlap: nat) returns (bounds: seq<Bound>)
    requires 0 < target < |text|
    ensures Chain(bounds, |text|, target, overlap) && bounds[|bounds| - 1].end == |text|
    ensures forall i :: 0 <= i < |bounds| ==> WellCut(text, target, bounds[i])
  {
    bounds := [];
    var cursor: nat := 0;
    while true
      invariant Progress(text, target, overlap, bounds, cursor)
      decreases |text| - cursor
    {
      var end := NextEnd(text, target, cursor);
      Extends(text, target, overlap, bounds, cursor, Bound(cursor, end));
      bounds := bounds + [Bound(cursor, end)];
      if end >= |text| {
        return;
      }
      cursor := if cursor + 1 < end - overlap then end - overlap else cursor + 1;
    }
  }

  /** The bounds of a returned list of chunks. */
  function BoundsOf(chunks: seq<Chunk>): seq<Bound> {
    seq(|chunks|, i requires 0 <= i < |chunks| => Bound(chunks[i].startOffset, chunks[i].endOffset))
  }

  /** The chunks at the given bounds, each with the text of its own span. */
  method ChunksAt(text: string, bounds: seq<Bound>) returns (chunks: seq<Chunk>)
    requires forall i :: 0 <= i < |bounds| ==> bounds[i].start <= bounds[i].end <= |text|
    ensures BoundsOf(chunks) == bounds
    ensures forall i :: 0 <= i < |chunks| ==> IsChunk(text, chunks, i)
  {
    chunks := seq(|bounds|, i requires 0 <= i < |bounds| =>
      Chunk(i, |bounds|, bounds[i].start, bounds[i].end, text[bounds[i].start..bounds[i].end]));
  }

  /** The i-th chunk knows its place and carries the text of its own span. */
  predicate IsChunk(text: string, chunks: seq<Chunk>, i: nat)
    requires i < |chunks|
  {
    var c := chunks[i];
    && c.startOffset <= c.endOffset <= |text|
    && c == Chunk(i, |chunks|, c.startOffset, c.endOffset, text[c.startOffset..c.endOffset])
  }

  /**
   * A text within the target is one chunk. A longer one becomes a complete chain of chunks that
   * rebuilds it, that shows whole every span of up to min(overlap, threshold) + 1 characters, and
   * whose cuts are the preferred ones. Each chunk carries the text of its own span.
   */
  method ChunkDocument(text: string, target: nat, overlap: nat) returns (chunks: seq<Chunk>)
    requires 0 < target
    ensures forall i :: 0 <= i < |chunks| ==> IsChunk(text, chunks, i)
    ensures |text| <= target ==> BoundsOf(chunks) == [Bound(0, |text|)]
    ensures target < |text| ==>
      && Chain(BoundsOf(chunks), |text|, target, overlap)
      && (forall i :: 0 <= i < |chunks| ==> WellCut(text, target, BoundsOf(chunks)[i]))
      && BoundsOf(chunks)[|chunks| - 1].end == |text|
    ensures Rebuilt(text, BoundsOf(chunks)) == text
    ensures CoversSpans(BoundsOf(chunks), |text|, Smaller(overlap, Threshold(target)) + 1)
  {
    if |text| <= target {
      WholeText(text);
      chunks := ChunksAt(text, [Bound(0, |text|)]);
    } else {
      chunks := LongDocument(text, target, overlap);
    }
  }

  method LongDocument(text: string, target: nat, overlap: nat) returns (chunks: seq<Chunk>)
    requires 0 < target < |text|
    ensures forall i :: 0 <= i < |chunks| ==> IsChunk(text, chunks, i)
    ensures Chain(BoundsOf(chunks), |text|, target, overlap)
    ensures forall i :: 0 <= i < |chunks| ==> WellCut(text, target, BoundsOf(chunks)[i])
    ensures BoundsOf(chunks)[|chunks| - 1].end == |text|
    ensures Rebuilt(text, BoundsOf(chunks)) == text
    ensures CoversSpans(BoundsOf(chunks), |text|, Smaller(overlap, Threshold(target)) + 1)
  {
    var bounds := Bounds(text, target, overlap);
    assert forall i :: 0 <= i < |bounds| ==> WellCut(text, target, bounds[i]);
    chunks := ChunksAt(text, bounds);
    ChainRebuilds(text, bounds, target, overlap);
    ChainCoversSpans(bounds, |text|, target, overlap);
  }

  lemma WholeText(text: string)
    ensures Rebuilt(text, [Bound(0, |text|)]) == text
    ensures forall width: nat :: CoversSpans([Bound(0, |text|)], |text|, width)
  {
    var one := [Bound(0, |text|)];
    assert one[..0] == [];
    assert MaxEnd([]) == 0;
    assert text[0..|text|] == text;
    forall a, b | 0 <= a <= b <= |text|
      ensures SpanCovered(one, a, b)
    {
      assert one[0].start <= a && b <= one[0].end;
    }
  }

  // ------------------------------------------------------------------------ where a chunk may end

  /** The chunk ends just past `sep`. */
  predicate EndsPast(text: string, b: Bound, sep: string) {
    b.start + |sep| <= b.end && At(text, sep, b.end - |sep|)
  }

  ghost predicate EndsPastSeparator(text: string, b: Bound) {
    exists k :: 0 <= k < |SEPARATORS| && EndsPast(text, b, SEPARATORS[k])
  }

  /** Some separator stands in the last quarter of the chunk's window. */
  ghost predicate SeparatorInReach(text: string, target: nat, b: Bound)
    requires b.start + target <= |text|
  {
    exists k :: 0 <= k < |SEPARATORS| && Available(text[b.start..b.start + target], SEPARATORS[k], Threshold(target))
  }

  lemma AtWithin(text: string, from: nat, to: nat, sep: string, i: nat)
    requires from <= to <= |text| && from + i + |sep| <= to
    ensures At(text[from..to], sep, i) <==> At(text, sep, from + i)
  {
    var n := |sep|;
    var inner, outer := text[from..to][i..i + n], text[from + i..from + i + n];
    assert |inner| == |outer| && forall j :: 0 <= j < n ==> inner[j] == outer[j];
  }

  /**
   * A chunk that is not the last ends just past a separator whenever one stands in the last quarter of
   * its window, and only then, unless the target is so small that a separator of two characters can end
   * a window without starting in its last quarter.
   */
  lemma ChunkEndsPastSeparatorExactlyWhen(text: string, target: nat, b: Bound)
    requires b.start + target < |text| && WellCut(text, target, b)
    ensures SeparatorInReach(text, target, b) ==> EndsPastSeparator(text, b)
    ensures 5 <= target ==> (EndsPastSeparator(text, b) <==> SeparatorInReach(text, target, b))
  {
    var window, floor := text[b.start..b.start + target], Threshold(target);
    if SeparatorInReach(text, target, b) {
      var k := CutSeparator(window, floor, b.end - b.start);
      CutEndsPast(text, target, b, SEPARATORS[k]);
    } else if 5 <= target {
      NoneInReach(window, floor, b.end - b.start);
      forall k | 0 <= k < |SEPARATORS|
        ensures !EndsPast(text, b, SEPARATORS[k])
      {
        RawEndsPastNothing(text, target, b, SEPARATORS[k]);
      }
    }
  }

  lemma CutEndsPast(text: string, target: nat, b: Bound, sep: string)
    requires b.start + target < |text| && b.start <= b.end
    requires EndsAt(text[b.start..b.start + target], sep, Threshold(target), b.end - b.start)
    ensures EndsPast(text, b, sep)
  {
    AtWithin(text, b.start, b.start + target, sep, b.end - b.start - |sep|);
  }

  lemma RawEndsPastNothing(text: string, target: nat, b: Bound, sep: string)
    requires b.end == b.start + target < |text| && |sep| <= 2 && 5 <= target
    requires !Available(text[b.start..b.start + target], sep, Threshold(target))
    ensures !EndsPast(text, b, sep)
  {
    assert Threshold(target) <= target - |sep|;
    AtWithin(text, b.start, b.start + target, sep, target - |sep|);
  }

  lemma CutSeparator(window: string, floor: nat, kept: nat) returns (k: nat)
    requires IsCut(window, floor, kept)
    requires exists j :: 0 <= j < |SEPARATORS| && Available(window, SEPARATORS[j], floor)
    ensures k < |SEPARATORS| && EndsAt(window, SEPARATORS[k], floor, kept)
  {
    k := if Available(window, SEPARATORS[0], floor) then 0
         else if Available(window, SEPARATORS[1], floor) then 1 else 2;
  }

  lemma NoneInReach(window: string, floor: nat, kept: nat)
    requires IsCut(window, floor, kept)
    requires !exists j :: 0 <= j < |SEPARATORS| && Available(window, SEPARATORS[j], floor)
    ensures kept == |window|
  {
    assert !Available(window, SEPARATORS[0], floor) && !Available(window, SEPARATORS[1], floor);
    assert !Available(window, SEPARATORS[2], floor);
  }

  /** A text without separators is cut on the raw boundary, in the middle of whatever stands there. */
  lemma RawBoundaryCut(b: Bound)
    requires b.start == 0 && WellCut("aaaaaa", 4, b)
    ensures b.end == 4 && !EndsPastSeparator("aaaaaa", b)
  {
    var text := "aaaaaa";
    var window := text[0..4];
    forall k, i: nat | 0 <= k < |SEPARATORS|
      ensures !At(text, SEPARATORS[k], i) && !At(window, SEPARATORS[k], i)
    {
      NoSeparator(text, k, i);
      NoSeparator(window, k, i);
    }
    NoneInReach(window, Threshold(4), b.end);
  }

  lemma NoSeparator(text: string, k: nat, i: nat)
    requires k < |SEPARATORS| && forall j :: 0 <= j < |text| ==> text[j] == 'a'
    ensures !At(text, SEPARATORS[k], i)
  {
    assert i + |SEPARATORS[k]| <= |text| ==> text[i..i + |SEPARATORS[k]|][0] == text[i];
  }

  /** At a target of four, `". "` can end a window without starting in its last quarter. */
  lemma SmallTargetEndsPastByChance()
    ensures
      var text, b := "aa. b", Bound(0, 4);
      WellCut(text, 4, b) && EndsPastSeparator(text, b) && !SeparatorInReach(text, 4, b)
  {
    var text, b := "aa. b", Bound(0, 4);
    var window := text[0..4];
    assert window == "aa. ";
    forall k, i: nat | 0 <= k < |SEPARATORS| && 3 <= i
      ensures !At(window, SEPARATORS[k], i)
    {
      assert i + |SEPARATORS[k]| <= |window| ==> window[i..i + |SEPARATORS[k]|][0] == window[i];
    }
    assert text[2..4] == ". " && EndsPast(text, b, SEPARATORS[2]);
  }

  // ------------------------------------------------------------------------- the preferred cut

  /** `sep` starts at `i` and ends by `to`. */
  predicate Stands(text: string, sep: string, i: int, to: int) {
    0 <= i && i + |sep| <= to <= |text| && text[i..i + |sep|] == sep
  }

  /** `sep` starts somewhere from `quarter` on and ends by `to`. */
  ghost predicate StandsFrom(text: string, sep: string, quarter: int, to: int) {
    exists i :: quarter <= i && Stands(text, sep, i, to)
  }

  /** `end` is just past the last `sep` that ends by `to`, and that one starts from `quarter` on. */
  ghost predicate PastLast(text: string, sep: string, quarter: int, to: int, end: int) {
    && quarter <= end - |sep| && Stands(text, sep, end - |sep|, to)
    && forall i :: end - |sep| < i ==> !Stands(text, sep, i, to)
  }

  lemma AtIsStands(text: string, from: nat, to: nat, sep: string, i: nat)
    requires from <= to <= |text|
    ensures At(text[from..to], sep, i) <==> Stands(text, sep, from + i, to)
  {
    if from + i + |sep| <= to {
      AtWithin(text, from, to, sep, i);
    }
  }

  lemma AvailableIsStandsFrom(text: string, from: nat, to: nat, sep: string, floor: nat)
    requires from <= to <= |text|
    ensures Available(text[from..to], sep, floor) <==> StandsFrom(text, sep, from + floor, to)
  {
    if StandsFrom(text, sep, from + floor, to) {
      var i :| from + floor <= i && Stands(text, sep, i, to);
      AtIsStands(text, from, to, sep, i - from);
    }
    if Available(text[from..to], sep, floor) {
      var i: nat :| floor <= i && At(text[from..to], sep, i);
      AtIsStands(text, from, to, sep, i);
    }
  }

  lemma EndsAtIsPastLast(text: string, from: nat, to: nat, sep: string, floor: nat, kept: nat)
    requires from <= to <= |text| && EndsAt(text[from..to], sep, floor, kept)
    ensures PastLast(text, sep, from + floor, to, from + kept)
  {
    AtIsStands(text, from, to, sep, kept - |sep|);
    forall i | from + kept - |sep| < i
      ensures !Stands(text, sep, i, to)
    {
      AtIsStands(text, from, to, sep, i - from);
    }
  }

  /**
   * Where a chunk that is not the last ends: just past the last paragraph break when one starts in the last
   * quarter of its window, else just past the last line break, else the last sentence end, else at the target.
   */
  lemma PreferredCut(text: string, target: nat, b: Bound)
    requires b.start + target < |text| && WellCut(text, target, b)
    ensures
      var quarter, to := b.start + 3 * target / 4, b.start + target;
      if StandsFrom(text, "\n\n", quarter, to) then PastLast(text, "\n\n", quarter, to, b.end)
      else if StandsFrom(text, "\n", quarter, to) then PastLast(text, "\n", quarter, to, b.end)
      else if StandsFrom(text, ". ", quarter, to) then PastLast(text, ". ", quarter, to, b.end)
      else b.end == to
  {
    CutByPreference(text[b.start..b.start + target], Threshold(target), b.end - b.start);
    CutIsPastLast(text, target, b, "\n\n");
    CutIsPastLast(text, target, b, "\n");
    CutIsPastLast(text, target, b, ". ");
  }

  lemma CutByPreference(window: string, floor: nat, kept: nat)
    requires IsCut(window, floor, kept)
    ensures
      if Available(window, "\n\n", floor) then EndsAt(window, "\n\n", floor, kept)
      else if Available(window, "\n", floor) then EndsAt(window, "\n", floor, kept)
      else if Available(window, ". ", floor) then EndsAt(window, ". ", floor, kept)
      else kept == |window|
  {
  }

  lemma CutIsPastLast(text: string, target: nat, b: Bound, sep: string)
    requires b.start + target < |text| && b.start <= b.end
    ensures
      var window, floor, to := text[b.start..b.start + target], Threshold(target), b.start + target;
      && (Available(window, sep, floor) <==> StandsFrom(text, sep, b.start + 3 * target / 4, to))
      && (EndsAt(window, sep, floor, b.end - b.start) ==> PastLast(text, sep, b.start + 3 * target / 4, to, b.end))
  {
    var window, floor, to := text[b.start..b.start + target], Threshold(target), b.start + target;
    AvailableIsStandsFrom(text, b.start, to, sep, floor);
    if EndsAt(window, sep, floor, b.end - b.start) {
      EndsAtIsPastLast(text, b.start, to, sep, floor, b.end - b.start);
    }
  }

  /** A paragraph break is preferred to a sentence end that comes later in the window. */
  lemma ParagraphBeforeSentence(b: Bound)
    requires b.start == 0 && WellCut("aaaaaaaaaaaa\n\n. b", 16, b)
    ensures b.end == 14
  {
    var text := "aaaaaaaaaaaa\n\n. b";
    PreferredCut(text, 16, b);
    assert text[12..14] == "\n\n" && Stands(text, "\n\n", 12, 16);
    forall i | 12 < i
      ensures !Stands(text, "\n\n", i, 16)
    {
      assert i + 2 <= 16 ==> text[i..i + 2][1] == text[i + 1] != '\n';
    }
  }
}
