/** The four rank-aware metrics over the top-k window and their bundle
    (src/rag_eval/metrics/core.py, lines 39-115).

    Every metric calls `_first_match_index` once per window chunk and uses nothing else
    about the chunks; `Profile` is that list of lookups, in rank order, and the metrics
    are stated over it. */
module Metrics {
  import opened Wrappers
  import opened Models
  import opened Matching
  import opened Sorting
  import opened Discounting

  /** The only error a metric can raise: `precision_at_k` divides by an empty window. */
  datatype MetricError = ZeroDivision

  /** `retrieved[:k]` for `k >= 0`: the first `min(k, |retrieved|)` chunks. */
  function Window(retrieved: seq<CodeChunk>, k: nat): (w: seq<CodeChunk>)
    ensures |w| == Min(k, |retrieved|)
    ensures w == retrieved[..|w|]
  {
    if k < |retrieved| then retrieved[..k] else retrieved
  }

  /** The first-match index of each window chunk, in rank order. */
  function Profile(w: seq<CodeChunk>, groundTruth: seq<GroundTruthChunk>, threshold: real): (p: seq<Option<nat>>)
    ensures |p| == |w|
  {
    if |w| == 0 then []
    else Profile(w[..|w| - 1], groundTruth, threshold) + [FirstMatchIndex(w[|w| - 1], groundTruth, threshold)]
  }

  lemma {:induction false} ProfileAt(w: seq<CodeChunk>, groundTruth: seq<GroundTruthChunk>, threshold: real, i: nat)
    requires i < |w|
    ensures Profile(w, groundTruth, threshold)[i] == FirstMatchIndex(w[i], groundTruth, threshold)
  {
    if i < |w| - 1 {
      ProfileAt(w[..|w| - 1], groundTruth, threshold, i);
    }
  }

  /** Each profile entry is a hit exactly when some ground-truth chunk matches that window
      chunk, and names the first such ground-truth chunk. */
  lemma ProfileMeaning(w: seq<CodeChunk>, groundTruth: seq<GroundTruthChunk>, threshold: real, i: nat)
    requires i < |w|
    ensures Profile(w, groundTruth, threshold)[i].Some? <==> IsHit(w[i], groundTruth, threshold)
    ensures Profile(w, groundTruth, threshold)[i].Some? <==>
              exists j :: 0 <= j < |groundTruth| && ChunkMatches(groundTruth[j], w[i], threshold)
    ensures Profile(w, groundTruth, threshold)[i].Some? ==>
              var j := Profile(w, groundTruth, threshold)[i].value;
              && j < |groundTruth| && ChunkMatches(groundTruth[j], w[i], threshold)
              && forall j' :: 0 <= j' < j ==> !ChunkMatches(groundTruth[j'], w[i], threshold)
  {
    ProfileAt(w, groundTruth, threshold, i);
    IsHitMeaning(w[i], groundTruth, threshold);
  }

  /** A longer cutoff extends the profile of a shorter one. */
  lemma ProfileGrows(retrieved: seq<CodeChunk>, groundTruth: seq<GroundTruthChunk>, threshold: real, k1: nat, k2: nat)
    requires k1 <= k2
    ensures var p1 := Profile(Window(retrieved, k1), groundTruth, threshold);
            p1 == Profile(Window(retrieved, k2), groundTruth, threshold)[..|p1|]
  {
    var w1, w2 := Window(retrieved, k1), Window(retrieved, k2);
    var p1, p2 := Profile(w1, groundTruth, threshold), Profile(w2, groundTruth, threshold);
    forall i | 0 <= i < |p1|
      ensures p1[i] == p2[i]
    {
      ProfileAt(w1, groundTruth, threshold, i);
      ProfileAt(w2, groundTruth, threshold, i);
    }
  }

  /** `i < n` under a name, for the same reason as `Matching.Within`: it gives the
      comprehension in `Below` a trigger, and the bound is repeated so the set is finite. */
  predicate IsBelow(i: nat, n: nat) {
    i < n
  }

  /** `{0, ..., n - 1}`. */
  function Below(n: nat): set<nat> {
    set i: nat | i < n && IsBelow(i, n)
  }

  lemma {:induction false} BelowCard(n: nat)
    ensures |Below(n)| == n
  {
    if n > 0 {
      assert Below(n) == Below(n - 1) + {n - 1};
      BelowCard(n - 1);
    }
  }

  lemma SubsetCard<T>(a: set<T>, b: set<T>)
    requires a <= b
    ensures |a| <= |b|
    ensures |a| == |b| ==> a == b
  {
    assert b == a + (b - a);
    if |a| == |b| {
      assert |b - a| == 0;
    }
  }

  lemma RealRatioFacts(x: real, y: real)
    requires 0.0 <= x <= y && y > 0.0
    ensures 0.0 <= x / y <= 1.0
    ensures x / y == 0.0 <==> x == 0.0
    ensures x / y == 1.0 <==> x == y
  {
  }

  lemma RatioMonotone(a: nat, b: nat, n: nat)
    requires a <= b && n > 0
    ensures a as real / n as real <= b as real / n as real
  {
  }

  /** Positions holding a hit. */
  function HitPositions(p: seq<Option<nat>>): (s: set<nat>)
    ensures s <= Below(|p|)
  {
    set i: nat | i < |p| && p[i].Some?
  }

  /** The `hits` sum: every hit counts, including several on the same ground truth. */
  function CountHits(p: seq<Option<nat>>): (n: nat)
    ensures n <= |p|
  {
    if |p| == 0 then 0
    else CountHits(p[..|p| - 1]) + (if p[|p| - 1].Some? then 1 else 0)
  }

  /** The hit count is the number of hit positions. */
  lemma {:induction false} CountHitsIsHitPositions(p: seq<Option<nat>>)
    ensures CountHits(p) == |HitPositions(p)|
  {
    if |p| > 0 {
      var last := |p| - 1;
      var front := p[..last];
      CountHitsIsHitPositions(front);
      var extra: set<nat> := if p[last].Some? then {last} else {};
      assert HitPositions(p) == HitPositions(front) + extra;
      assert last !in HitPositions(front);
    }
  }

  /** `precision_at_k`. The emptiness test is on the whole list, so a cutoff of zero with
      a non-empty list divides by zero. */
  function PrecisionAtK(retrieved: seq<CodeChunk>, groundTruth: seq<GroundTruthChunk>, k: nat, threshold: real): (r: Result<real, MetricError>)
    ensures |retrieved| == 0 ==> r == Success(0.0)
    ensures r.Failure? <==> |retrieved| > 0 && k == 0
    ensures r.Success? && |retrieved| > 0 ==>
              r.value == |HitPositions(Profile(Window(retrieved, k), groundTruth, threshold))| as real
                         / Min(k, |retrieved|) as real
    ensures r.Success? ==> 0.0 <= r.value <= 1.0
  {
    if |retrieved| == 0 then Success(0.0)
    else
      var considered := Window(retrieved, k);
      var p := Profile(considered, groundTruth, threshold);
      var hits := CountHits(p);
      CountHitsIsHitPositions(p);
      if |considered| == 0 then Failure(ZeroDivision)
      else
        RatioFacts(hits, |considered|);
        Success(hits as real / |considered| as real)
  }

  /** The set `matched_gt`: every first-match index the profile holds. */
  function Matched(p: seq<Option<nat>>): (s: set<nat>)
    ensures forall j :: j in s <==> exists i :: 0 <= i < |p| && p[i] == Some(j)
  {
    if |p| == 0 then {}
    else
      var front := Matched(p[..|p| - 1]);
      assert forall i :: 0 <= i < |p| - 1 ==> p[..|p| - 1][i] == p[i];
      match p[|p| - 1]
      case Some(j) => front + {j}
      case None => front
  }

  /** Every matched index names a ground-truth chunk. */
  lemma MatchedInRange(w: seq<CodeChunk>, groundTruth: seq<GroundTruthChunk>, threshold: real)
    ensures Matched(Profile(w, groundTruth, threshold)) <= Below(|groundTruth|)
  {
    var p := Profile(w, groundTruth, threshold);
    forall j | j in Matched(p)
      ensures j in Below(|groundTruth|)
    {
      var i :| 0 <= i < |p| && p[i] == Some(j);
      ProfileMeaning(w, groundTruth, threshold, i);
    }
  }

  /** `recall_at_k`. */
  function RecallAtK(retrieved: seq<CodeChunk>, groundTruth: seq<GroundTruthChunk>, k: nat, threshold: real): (r: real)
    ensures |groundTruth| == 0 ==> r == 1.0
    ensures |groundTruth| > 0 ==>
              r == |Matched(Profile(Window(retrieved, k), groundTruth, threshold))| as real / |groundTruth| as real
    ensures 0.0 <= r <= 1.0
  {
    if |groundTruth| == 0 then 1.0
    else
      var w := Window(retrieved, k);
      var matched := Matched(Profile(w, groundTruth, threshold));
      MatchedInRange(w, groundTruth, threshold);
      SubsetCard(matched, Below(|groundTruth|));
      BelowCard(|groundTruth|);
      RatioFacts(|matched|, |groundTruth|);
      |matched| as real / |groundTruth| as real
  }

  lemma MatchedGrows(p: seq<Option<nat>>, n: nat)
    requires n <= |p|
    ensures Matched(p[..n]) <= Matched(p)
  {
    forall j | j in Matched(p[..n])
      ensures j in Matched(p)
    {
      var i :| 0 <= i < n && p[..n][i] == Some(j);
      assert p[i] == Some(j);
    }
  }

  /** Recall never drops when the cutoff grows. */
  lemma RecallMonotoneInK(retrieved: seq<CodeChunk>, groundTruth: seq<GroundTruthChunk>, k1: nat, k2: nat, threshold: real)
    requires k1 <= k2
    ensures RecallAtK(retrieved, groundTruth, k1, threshold) <= RecallAtK(retrieved, groundTruth, k2, threshold)
  {
    if |groundTruth| > 0 {
      var p1 := Profile(Window(retrieved, k1), groundTruth, threshold);
      var p2 := Profile(Window(retrieved, k2), groundTruth, threshold);
      ProfileGrows(retrieved, groundTruth, threshold, k1, k2);
      MatchedGrows(p2, |p1|);
      SubsetCard(Matched(p1), Matched(p2));
      RatioMonotone(|Matched(p1)|, |Matched(p2)|, |groundTruth|);
    }
  }

  /** Full recall means every ground-truth chunk is the first match of some window chunk;
      one that is only ever matched after an earlier ground-truth chunk does not count. */
  lemma RecallFullIffCovered(retrieved: seq<CodeChunk>, groundTruth: seq<GroundTruthChunk>, k: nat, threshold: real)
    requires |groundTruth| > 0
    ensures RecallAtK(retrieved, groundTruth, k, threshold) == 1.0 <==>
              Below(|groundTruth|) <= Matched(Profile(Window(retrieved, k), groundTruth, threshold))
  {
    var w := Window(retrieved, k);
    var matched := Matched(Profile(w, groundTruth, threshold));
    MatchedInRange(w, groundTruth, threshold);
    FullSubset(matched, |groundTruth|);
    RatioFacts(|matched|, |groundTruth|);
  }

  /** A subset of `Below(n)` has `n` elements exactly when it is all of `Below(n)`. */
  lemma FullSubset(s: set<nat>, n: nat)
    requires s <= Below(n)
    ensures |s| == n <==> Below(n) <= s
  {
    SubsetCard(s, Below(n));
    BelowCard(n);
    if Below(n) <= s {
      assert s == Below(n);
    }
  }

  /** Full recall, spelled out on the retrieved list: every ground-truth chunk is the first
      match of one of the first `k` retrieved chunks. */
  lemma RecallFullIffAllFirstMatched(retrieved: seq<CodeChunk>, groundTruth: seq<GroundTruthChunk>, k: nat, threshold: real)
    requires |groundTruth| > 0
    ensures RecallAtK(retrieved, groundTruth, k, threshold) == 1.0 <==>
              forall j :: 0 <= j < |groundTruth| ==>
                exists i :: 0 <= i < Min(k, |retrieved|) && FirstMatchIndex(retrieved[i], groundTruth, threshold) == Some(j)
  {
    var covered := Below(|groundTruth|) <= Matched(Profile(Window(retrieved, k), groundTruth, threshold));
    RecallFullIffCovered(retrieved, groundTruth, k, threshold);
    assert RecallAtK(retrieved, groundTruth, k, threshold) == 1.0 <==> covered;
    CoveredIffAllFirstMatched(retrieved, groundTruth, k, threshold);
    assert covered <==> forall j :: 0 <= j < |groundTruth| ==>
      exists i :: 0 <= i < Min(k, |retrieved|) && FirstMatchIndex(retrieved[i], groundTruth, threshold) == Some(j);
  }

  /** The covering condition of `RecallFullIffCovered`, restated without the profile. */
  lemma CoveredIffAllFirstMatched(retrieved: seq<CodeChunk>, groundTruth: seq<GroundTruthChunk>, k: nat, threshold: real)
    ensures Below(|groundTruth|) <= Matched(Profile(Window(retrieved, k), groundTruth, threshold)) <==>
              forall j :: 0 <= j < |groundTruth| ==>
                exists i :: 0 <= i < Min(k, |retrieved|) && FirstMatchIndex(retrieved[i], groundTruth, threshold) == Some(j)
  {
    var w := Window(retrieved, k);
    var p := Profile(w, groundTruth, threshold);
    assert |p| == |w| == Min(k, |retrieved|);
    forall i | 0 <= i < |w|
      ensures p[i] == FirstMatchIndex(retrieved[i], groundTruth, threshold)
    {
      assert w[i] == retrieved[i];
      ProfileAt(w, groundTruth, threshold, i);
    }
    forall j: nat | j < |groundTruth|
      ensures Occurs(p, j) <==>
              (exists i :: 0 <= i < Min(k, |retrieved|) && FirstMatchIndex(retrieved[i], groundTruth, threshold) == Some(j))
    {
      if exists i :: 0 <= i < Min(k, |retrieved|) && FirstMatchIndex(retrieved[i], groundTruth, threshold) == Some(j) {
        var i :| 0 <= i < Min(k, |retrieved|) && FirstMatchIndex(retrieved[i], groundTruth, threshold) == Some(j);
        assert p[i] == Some(j);
      }
    }
    CoveredIffAllPresent(p, |groundTruth|);
  }

  /** Index `j` is the first match of some window position. */
  predicate Occurs(p: seq<Option<nat>>, j: nat) {
    exists i :: 0 <= i < |p| && p[i] == Some(j)
  }

  /** `Below(n) <= Matched(p)` says each index below `n` occurs in `p`. */
  lemma CoveredIffAllPresent(p: seq<Option<nat>>, n: nat)
    ensures Below(n) <= Matched(p) <==> forall j: nat :: j < n ==> Occurs(p, j)
  {
    if forall j: nat :: j < n ==> Occurs(p, j) {
      forall j | j in Below(n)
        ensures j in Matched(p)
      {
        assert IsBelow(j, n);
        assert Occurs(p, j);
      }
    }
    if Below(n) <= Matched(p) {
      forall j: nat | j < n
        ensures Occurs(p, j)
      {
        assert j in Below(n);
      }
    }
  }

  /** The rank loop of `mrr`, resumed at 0-based position `i` (rank `i + 1`). */
  function MrrFrom(p: seq<Option<nat>>, i: nat): (r: real)
    requires i <= |p|
    ensures r == 0.0 <==> forall q :: i <= q < |p| ==> p[q].None?
    ensures r != 0.0 ==> exists q :: i <= q < |p| && p[q].Some?
                                   && (forall q' :: i <= q' < q ==> p[q'].None?)
                                   && r == 1.0 / (q + 1) as real
    ensures 0.0 <= r <= 1.0
    decreases |p| - i
  {
    if i == |p| then 0.0
    else if p[i].Some? then RatioFacts(1, i + 1); 1.0 / (i + 1) as real
    else MrrFrom(p, i + 1)
  }

  /** `mrr`: the reciprocal of the 1-based rank of the first hit in the window, or zero. */
  function Mrr(retrieved: seq<CodeChunk>, groundTruth: seq<GroundTruthChunk>, k: nat, threshold: real): (r: real)
    ensures 0.0 <= r <= 1.0
    ensures r == 0.0 <==> HitPositions(Profile(Window(retrieved, k), groundTruth, threshold)) == {}
    ensures var p := Profile(Window(retrieved, k), groundTruth, threshold);
            r != 0.0 ==> exists q :: 0 <= q < |p| && p[q].Some?
                                   && (forall q' :: 0 <= q' < q ==> p[q'].None?)
                                   && r == 1.0 / (q + 1) as real
  {
    var p := Profile(Window(retrieved, k), groundTruth, threshold);
    var r := MrrFrom(p, 0);
    assert r == 0.0 <==> HitPositions(p) == {} by {
      if r != 0.0 {
        var q :| 0 <= q < |p| && p[q].Some?;
        assert q in HitPositions(p);
      }
    }
    r
  }

  /** MRR is positive exactly when the same window scores a hit for precision. */
  lemma MrrPositiveIffPrecisionHit(retrieved: seq<CodeChunk>, groundTruth: seq<GroundTruthChunk>, k: nat, threshold: real)
    ensures Mrr(retrieved, groundTruth, k, threshold) > 0.0 <==>
              CountHits(Profile(Window(retrieved, k), groundTruth, threshold)) > 0
    ensures PrecisionAtK(retrieved, groundTruth, k, threshold).Success? ==>
              (PrecisionAtK(retrieved, groundTruth, k, threshold).value > 0.0 <==> Mrr(retrieved, groundTruth, k, threshold) > 0.0)
  {
    var p := Profile(Window(retrieved, k), groundTruth, threshold);
    CountHitsIsHitPositions(p);
    if |retrieved| > 0 && k > 0 {
      RatioFacts(|HitPositions(p)|, Min(k, |retrieved|));
    }
  }

  /** The `relevance` list: 1 for a hit, 0 for a miss, position by position. */
  function Relevance(p: seq<Option<nat>>): (rel: seq<nat>)
    ensures |rel| == |p| && Binary(rel)
    ensures forall i :: 0 <= i < |p| ==> (rel[i] == 1 <==> p[i].Some?)
  {
    seq(|p|, i requires 0 <= i < |p| => if p[i].Some? then 1 else 0)
  }

  /** `ndcg_at_k`, with the discount `d` standing for `1 / log2(i + 2)`. */
  function NdcgAtK(retrieved: seq<CodeChunk>, groundTruth: seq<GroundTruthChunk>, k: nat, threshold: real,
                   d: nat -> real): (r: real)
    requires IsDiscount(d)
    ensures 0.0 <= r <= 1.0
  {
    var relevance := Relevance(Profile(Window(retrieved, k), groundTruth, threshold));
    if |relevance| == 0 then 0.0
    else
      var dcg := Dcg(relevance, d, 0);
      var idcg := Dcg(Ideal(relevance), d, 0);
      IdealDcg(relevance, d);
      DcgBounded(relevance, d, 0);
      if idcg == 0.0 then 0.0 else RealRatioFacts(dcg, idcg); dcg / idcg
  }

  /** Every hit precedes every miss. */
  ghost predicate HitsBeforeMisses(p: seq<Option<nat>>) {
    forall i, j :: 0 <= i < j < |p| && p[j].Some? ==> p[i].Some?
  }

  /** nDCG is zero exactly when the window holds no hit, and exactly one when it holds a hit
      and every hit precedes every miss. */
  lemma NdcgExtremes(retrieved: seq<CodeChunk>, groundTruth: seq<GroundTruthChunk>, k: nat, threshold: real,
                     d: nat -> real)
    requires IsDiscount(d)
    ensures var p := Profile(Window(retrieved, k), groundTruth, threshold);
            NdcgAtK(retrieved, groundTruth, k, threshold, d) == 0.0 <==> HitPositions(p) == {}
    ensures var p := Profile(Window(retrieved, k), groundTruth, threshold);
            NdcgAtK(retrieved, groundTruth, k, threshold, d) == 1.0 <==> HitPositions(p) != {} && HitsBeforeMisses(p)
  {
    var p := Profile(Window(retrieved, k), groundTruth, threshold);
    var rel := Relevance(p);
    var h := CountOnes(rel);
    CountOnesPositive(rel);
    assert h > 0 <==> HitPositions(p) != {} by {
      if h > 0 {
        var i :| 0 <= i < |rel| && rel[i] == 1;
        assert i in HitPositions(p);
      }
      if HitPositions(p) != {} {
        var i :| i in HitPositions(p);
        assert rel[i] == 1;
      }
    }
    assert HitsFirst(rel) <==> HitsBeforeMisses(p) by {
      if HitsFirst(rel) {
        forall i, j | 0 <= i < j < |p| && p[j].Some?
          ensures p[i].Some?
        {
          assert Key(rel[j]) <= Key(rel[i]);
        }
      }
      if HitsBeforeMisses(p) {
        forall i, j | 0 <= i < j < |rel|
          ensures Key(rel[j]) <= Key(rel[i])
        {
          if rel[j] == 1 {
            assert p[j].Some?;
          }
        }
      }
    }
    if |rel| > 0 {
      var dcg, idcg := Dcg(rel, d, 0), Dcg(Ideal(rel), d, 0);
      IdealDcg(rel, d);
      DcgBounded(rel, d, 0);
      DiscountSumPositive(d, 0, h);
      if h > 0 {
        assert idcg > 0.0;
        RealRatioFacts(dcg, idcg);
        if HitsFirst(rel) {
          DcgOfHitsFirst(rel, d, 0);
        } else {
          DcgBelowWhenMissFirst(rel, d, 0);
        }
        assert dcg > 0.0 by {
          var i :| 0 <= i < |rel| && rel[i] == 1;
          DcgPositive(rel, d, 0, i);
        }
      } else {
        assert idcg == 0.0;
      }
    }
  }

  /** The names of the four metrics in the dictionary `compute_metrics` returns. */
  const MetricNames: set<string> := {"precision@k", "recall@k", "mrr", "ndcg@k"}

  /** The dictionary of the four metric values under their names. */
  function Bundle(precision: real, recall: real, reciprocalRank: real, ndcg: real): (m: map<string, real>)
    ensures m.Keys == MetricNames
    ensures m["precision@k"] == precision && m["recall@k"] == recall
    ensures m["mrr"] == reciprocalRank && m["ndcg@k"] == ndcg
    ensures forall name :: name in m ==> m[name] == precision || m[name] == recall || m[name] == reciprocalRank || m[name] == ndcg
  {
    map["precision@k" := precision, "recall@k" := recall, "mrr" := reciprocalRank, "ndcg@k" := ndcg]
  }

  /** `compute_metrics`: the four metrics at the same cutoff and threshold. Precision is
      evaluated first, so its division by zero is the bundle's only error. */
  function ComputeMetrics(retrieved: seq<CodeChunk>, groundTruth: seq<GroundTruthChunk>, k: nat, threshold: real,
                          d: nat -> real): (r: Result<map<string, real>, MetricError>)
    requires IsDiscount(d)
    ensures r.Failure? <==> |retrieved| > 0 && k == 0
    ensures r.Success? ==> r.value.Keys == MetricNames
    ensures r.Success? ==> forall name :: name in r.value ==> 0.0 <= r.value[name] <= 1.0
    ensures r.Success? ==>
              && PrecisionAtK(retrieved, groundTruth, k, threshold) == Success(r.value["precision@k"])
              && r.value["recall@k"] == RecallAtK(retrieved, groundTruth, k, threshold)
              && r.value["mrr"] == Mrr(retrieved, groundTruth, k, threshold)
              && r.value["ndcg@k"] == NdcgAtK(retrieved, groundTruth, k, threshold, d)
  {
    var precision :- PrecisionAtK(retrieved, groundTruth, k, threshold);
    var recall := RecallAtK(retrieved, groundTruth, k, threshold);
    var reciprocalRank := Mrr(retrieved, groundTruth, k, threshold);
    var ndcg := NdcgAtK(retrieved, groundTruth, k, threshold, d);
    Success(Bundle(precision, recall, reciprocalRank, ndcg))
  }
}
