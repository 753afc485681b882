/** The worked example of tests/test_metrics.py: two ground-truth chunks and three
    retrieved ones, scored at cutoffs 2 and 3 with the default threshold 0.5. */
module MetricsScenario {
  import opened Wrappers
  import opened Models
  import opened Matching
  import opened Discounting
  import opened Metrics

  function ScenarioGroundTruth(): seq<GroundTruthChunk> {
    [GroundTruthChunk("a.py", 1, 10), GroundTruthChunk("b.py", 5, 15)]
  }

  function ScenarioRetrieved(): seq<CodeChunk> {
    [CodeChunk("a.py", 1, 5, "", None), CodeChunk("b.py", 7, 12, "", None), CodeChunk("c.py", 1, 3, "", None)]
  }

  /** The first chunk matches the first ground truth, the second the second, the third nothing. */
  lemma ScenarioProfile()
    ensures Profile(Window(ScenarioRetrieved(), 3), ScenarioGroundTruth(), 0.5) == [Some(0), Some(1), None]
    ensures Profile(Window(ScenarioRetrieved(), 2), ScenarioGroundTruth(), 0.5) == [Some(0), Some(1)]
  {
    var gt, r := ScenarioGroundTruth(), ScenarioRetrieved();
    assert ChunkMatches(gt[0], r[0], 0.5);
    assert !ChunkMatches(gt[0], r[1], 0.5);
    assert ChunkMatches(gt[1], r[1], 0.5);
    assert !ChunkMatches(gt[0], r[2], 0.5) && !ChunkMatches(gt[1], r[2], 0.5);
    assert FirstMatchIndex(r[0], gt, 0.5) == Some(0);
    assert FirstMatchIndex(r[1], gt, 0.5) == Some(1);
    assert FirstMatchIndex(r[2], gt, 0.5) == None;
    assert Window(r, 2) == r[..2];
    assert r[..2][..1] == r[..1];
  }

  /** At cutoff 2 both ground-truth chunks are already matched, so precision and recall are
      both 1; the repository's test expects recall 1/2 here, which the code does not produce. */
  lemma ScenarioAtTwo()
    ensures PrecisionAtK(ScenarioRetrieved(), ScenarioGroundTruth(), 2, 0.5) == Success(1.0)
    ensures RecallAtK(ScenarioRetrieved(), ScenarioGroundTruth(), 2, 0.5) == 1.0
    ensures RecallAtK(ScenarioRetrieved(), ScenarioGroundTruth(), 2, 0.5) != 0.5
  {
    ScenarioProfile();
    var p := [Some(0), Some(1)];
    assert HitPositions(p) == {0, 1};
    assert Matched(p[..1]) == {0};
    assert Matched(p) == {0, 1};
  }

  lemma ScenarioPrecisionAtThree()
    ensures PrecisionAtK(ScenarioRetrieved(), ScenarioGroundTruth(), 3, 0.5) == Success(2.0 / 3.0)
  {
    ScenarioProfile();
    assert HitPositions([Some(0), Some(1), None]) == {0, 1};
  }

  lemma ScenarioRecallAtThree()
    ensures RecallAtK(ScenarioRetrieved(), ScenarioGroundTruth(), 3, 0.5) == 1.0
  {
    ScenarioProfile();
    var p := [Some(0), Some(1), None];
    assert p[..2][..1] == [Some(0)];
    assert Matched(p[..2]) == {0, 1};
    assert Matched(p) == {0, 1};
  }

  /** Both hits come before the miss, so nDCG is 1 whatever the discount. */
  lemma ScenarioNdcgAtThree(d: nat -> real)
    requires IsDiscount(d)
    ensures NdcgAtK(ScenarioRetrieved(), ScenarioGroundTruth(), 3, 0.5, d) == 1.0
  {
    ScenarioProfile();
    var p := [Some(0), Some(1), None];
    assert 0 in HitPositions(p);
    NdcgExtremes(ScenarioRetrieved(), ScenarioGroundTruth(), 3, 0.5, d);
  }

  /** The first retrieved chunk is already a hit. */
  lemma ScenarioMrrAtThree()
    ensures Mrr(ScenarioRetrieved(), ScenarioGroundTruth(), 3, 0.5) == 1.0
  {
    ScenarioProfile();
    assert MrrFrom([Some(0), Some(1), None], 0) == 1.0;
  }

  /** At cutoff 3 the bundle holds precision 2/3, recall 1, reciprocal rank 1 and nDCG 1. */
  lemma ScenarioAtThree(d: nat -> real)
    requires IsDiscount(d)
    ensures var m := ComputeMetrics(ScenarioRetrieved(), ScenarioGroundTruth(), 3, 0.5, d);
            && m.Success?
            && m.value["precision@k"] == 2.0 / 3.0
            && m.value["recall@k"] == 1.0
            && m.value["mrr"] == 1.0
            && m.value["ndcg@k"] == 1.0
  {
    ScenarioPrecisionAtThree();
    ScenarioRecallAtThree();
    ScenarioMrrAtThree();
    ScenarioNdcgAtThree(d);
    assert ComputeMetrics(ScenarioRetrieved(), ScenarioGroundTruth(), 3, 0.5, d).Success?;
  }
}
