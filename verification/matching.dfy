/** Line-range overlap, the match predicate and the first-match lookup
    (src/rag_eval/metrics/core.py, lines 8-36). */
module Matching {
  import opened Wrappers
  import opened Models

  /** `lo <= x <= hi` under a name, so that the comprehension in `Lines` has a function
      term for the solver to instantiate on; the bound is written out as well so that
      Dafny sees the set is finite. */
  predicate Within(lo: int, x: int, hi: int) {
    lo <= x <= hi
  }

  /** The set of line numbers a closed range covers. */
  function Lines(lo: int, hi: int): set<int> {
    set x | lo <= x <= hi && Within(lo, x, hi)
  }

  lemma {:induction false} LinesCard(lo: int, hi: int)
    ensures |Lines(lo, hi)| == Max(0, hi - lo + 1)
    decreases hi - lo
  {
    if hi < lo {
      assert Lines(lo, hi) == {};
    } else {
      assert Lines(lo, hi) == Lines(lo, hi - 1) + {hi};
      LinesCard(lo, hi - 1);
    }
  }

  /** Number of lines two closed ranges share, clamped at zero. */
  function LineOverlap(aStart: int, aEnd: int, bStart: int, bEnd: int): (r: nat)
    ensures r > 0 ==> r <= aEnd - aStart + 1 && r <= bEnd - bStart + 1
  {
    Max(0, Min(aEnd, bEnd) - Max(aStart, bStart) + 1)
  }

  /** The overlap is exactly the number of lines the two ranges have in common; so it is
      symmetric, zero exactly when the ranges are disjoint, and bounded by each range's size. */
  lemma LineOverlapCountsCommonLines(aStart: int, aEnd: int, bStart: int, bEnd: int)
    ensures LineOverlap(aStart, aEnd, bStart, bEnd) == |Lines(aStart, aEnd) * Lines(bStart, bEnd)|
    ensures LineOverlap(aStart, aEnd, bStart, bEnd) == LineOverlap(bStart, bEnd, aStart, aEnd)
    ensures LineOverlap(aStart, aEnd, bStart, bEnd) == 0 <==> Lines(aStart, aEnd) !! Lines(bStart, bEnd)
    ensures LineOverlap(aStart, aEnd, bStart, bEnd) <= |Lines(aStart, aEnd)|
    ensures LineOverlap(aStart, aEnd, bStart, bEnd) <= |Lines(bStart, bEnd)|
  {
    var lo, hi := Max(aStart, bStart), Min(aEnd, bEnd);
    assert Lines(aStart, aEnd) * Lines(bStart, bEnd) == Lines(lo, hi);
    LinesCard(lo, hi);
    LinesCard(aStart, aEnd);
    LinesCard(bStart, bEnd);
    if LineOverlap(aStart, aEnd, bStart, bEnd) == 0 {
      assert Lines(lo, hi) == {};
    } else {
      assert lo in Lines(aStart, aEnd) * Lines(bStart, bEnd);
    }
  }

  function SpanOverlap(a: Span, b: Span): (r: nat)
    ensures a.file != b.file ==> r == 0
    ensures r > 0 ==> a.file == b.file && r <= a.Length() && r <= b.Length()
  {
    if a.file != b.file then 0 else LineOverlap(a.start, a.end, b.start, b.end)
  }

  /** `chunk_overlap`: zero across files, line overlap within one file. */
  function ChunkOverlap(gt: GroundTruthChunk, retrieved: CodeChunk): (r: nat)
    ensures gt.filePath != retrieved.filePath ==> r == 0
    ensures r > 0 ==> gt.filePath == retrieved.filePath
    ensures r > 0 ==> 1 <= r <= gt.AsSpan().Length() && r <= retrieved.AsSpan().Length()
  {
    SpanOverlap(gt.AsSpan(), retrieved.AsSpan())
  }

  /** Overlap divided by the shorter span's length. A positive overlap makes both lengths
      positive, so the division is defined even for an unvalidated ground-truth chunk. */
  function OverlapRatio(a: Span, b: Span): (q: real)
    requires SpanOverlap(a, b) > 0
    ensures 0.0 < q <= 1.0
  {
    var overlap := SpanOverlap(a, b);
    var shorter := Min(a.Length(), b.Length());
    assert 1 <= overlap <= shorter;
    RatioFacts(overlap, shorter);
    (overlap as real) / (shorter as real)
  }

  /** The match rule on two spans. */
  predicate SpanMatches(a: Span, b: Span, threshold: real)
  {
    SpanOverlap(a, b) != 0 && OverlapRatio(a, b) >= threshold
  }

  /** `chunk_matches`. */
  predicate ChunkMatches(gt: GroundTruthChunk, retrieved: CodeChunk, threshold: real): (r: bool)
    ensures r ==> gt.filePath == retrieved.filePath && ChunkOverlap(gt, retrieved) > 0
    ensures r ==> threshold <= 1.0
  {
    SpanMatches(gt.AsSpan(), retrieved.AsSpan(), threshold)
  }

  /** A match needs a shared file, a positive overlap, and a ratio of at least the threshold. */
  lemma ChunkMatchesMeaning(gt: GroundTruthChunk, retrieved: CodeChunk, threshold: real)
    ensures ChunkMatches(gt, retrieved, threshold) <==>
              gt.filePath == retrieved.filePath
              && ChunkOverlap(gt, retrieved) > 0
              && ChunkOverlap(gt, retrieved) as real
                 >= threshold * Min(gt.AsSpan().Length(), retrieved.AsSpan().Length()) as real
  {
    var a, b := gt.AsSpan(), retrieved.AsSpan();
    if ChunkOverlap(gt, retrieved) > 0 {
      var shorter := Min(a.Length(), b.Length()) as real;
      assert shorter > 0.0;
      var o := SpanOverlap(a, b) as real;
      assert OverlapRatio(a, b) == o / shorter;
      assert o / shorter >= threshold <==> o >= threshold * shorter;
    }
  }

  /** The rule is symmetric: it does not matter which span is the ground truth. */
  lemma SpanMatchesSymmetric(a: Span, b: Span, threshold: real)
    ensures SpanMatches(a, b, threshold) <==> SpanMatches(b, a, threshold)
  {
    LineOverlapCountsCommonLines(a.start, a.end, b.start, b.end);
  }

  /** Spans in different files never match, whatever their lines. */
  lemma DifferentFilesNeverMatch(gt: GroundTruthChunk, retrieved: CodeChunk, threshold: real)
    requires gt.filePath != retrieved.filePath
    ensures !ChunkMatches(gt, retrieved, threshold)
  {
  }

  /** A non-empty span nested in the other (either way round) in the same file
      matches for every threshold up to 1. */
  lemma NestedSpansMatch(gt: GroundTruthChunk, retrieved: CodeChunk, threshold: real)
    requires gt.filePath == retrieved.filePath
    requires threshold <= 1.0
    requires (gt.startLine <= retrieved.startLine <= retrieved.endLine <= gt.endLine)
          || (retrieved.startLine <= gt.startLine <= gt.endLine <= retrieved.endLine)
    ensures ChunkMatches(gt, retrieved, threshold)
  {
    var a, b := gt.AsSpan(), retrieved.AsSpan();
    assert SpanOverlap(a, b) == Min(a.Length(), b.Length());
    assert OverlapRatio(a, b) == 1.0;
  }

  /** A threshold above 1 rejects every pair. */
  lemma ThresholdAboveOneNeverMatches(gt: GroundTruthChunk, retrieved: CodeChunk, threshold: real)
    requires threshold > 1.0
    ensures !ChunkMatches(gt, retrieved, threshold)
  {
  }

  /** Lowering the threshold never loses a match. */
  lemma MatchesMonotoneInThreshold(gt: GroundTruthChunk, retrieved: CodeChunk, low: real, high: real)
    requires low <= high
    requires ChunkMatches(gt, retrieved, high)
    ensures ChunkMatches(gt, retrieved, low)
  {
  }

  /** `_first_match_index`: the least index of a matching ground-truth chunk, or `None`. */
  function FirstMatchIndex(chunk: CodeChunk, groundTruth: seq<GroundTruthChunk>, threshold: real): (r: Option<nat>)
    ensures r.Some? ==> r.value < |groundTruth| && ChunkMatches(groundTruth[r.value], chunk, threshold)
    ensures r.Some? ==> forall j :: 0 <= j < r.value ==> !ChunkMatches(groundTruth[j], chunk, threshold)
    ensures r.None? <==> forall j :: 0 <= j < |groundTruth| ==> !ChunkMatches(groundTruth[j], chunk, threshold)
  {
    FirstMatchFrom(chunk, groundTruth, threshold, 0)
  }

  /** The scan of `_first_match_index`, resumed at position `from`. */
  function FirstMatchFrom(chunk: CodeChunk, groundTruth: seq<GroundTruthChunk>, threshold: real, from: nat): (r: Option<nat>)
    requires from <= |groundTruth|
    ensures r.Some? ==> from <= r.value < |groundTruth| && ChunkMatches(groundTruth[r.value], chunk, threshold)
    ensures r.Some? ==> forall j :: from <= j < r.value ==> !ChunkMatches(groundTruth[j], chunk, threshold)
    ensures r.None? <==> forall j :: from <= j < |groundTruth| ==> !ChunkMatches(groundTruth[j], chunk, threshold)
    decreases |groundTruth| - from
  {
    if from == |groundTruth| then None
    else if ChunkMatches(groundTruth[from], chunk, threshold) then Some(from)
    else FirstMatchFrom(chunk, groundTruth, threshold, from + 1)
  }

  /** A retrieved chunk is a hit when some ground-truth chunk matches it. */
  predicate IsHit(chunk: CodeChunk, groundTruth: seq<GroundTruthChunk>, threshold: real)
  {
    FirstMatchIndex(chunk, groundTruth, threshold).Some?
  }

  lemma IsHitMeaning(chunk: CodeChunk, groundTruth: seq<GroundTruthChunk>, threshold: real)
    ensures IsHit(chunk, groundTruth, threshold)
        <==> exists j :: 0 <= j < |groundTruth| && ChunkMatches(groundTruth[j], chunk, threshold)
  {
  }

  /** The lookup takes the first match in list order, not the best overlap: here the second
      ground-truth chunk shares ten lines with the retrieved one and the first only four. */
  lemma FirstMatchIsNotBestOverlap()
    ensures var gt := [GroundTruthChunk("a.py", 1, 4), GroundTruthChunk("a.py", 1, 10)];
            var c := CodeChunk("a.py", 1, 10, "", None);
            && FirstMatchIndex(c, gt, 0.5) == Some(0)
            && ChunkOverlap(gt[0], c) == 4 && ChunkOverlap(gt[1], c) == 10
  {
    var gt := [GroundTruthChunk("a.py", 1, 4), GroundTruthChunk("a.py", 1, 10)];
    var c := CodeChunk("a.py", 1, 10, "", None);
    assert ChunkMatches(gt[0], c, 0.5);
  }
}
