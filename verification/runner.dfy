/** The scoring side of `BenchmarkRunner` (src/rag_eval/runner/benchmark_runner.py): the
    effective cutoff, per-query scoring in dataset order, and the per-key mean. */
module Runner {
  import opened Wrappers
  import opened Models
  import opened Discounting
  import opened Metrics

  /** `top_k or dataset.top_k`: a missing or zero override falls back to the dataset's value. */
  function EffectiveK(topK: Option<nat>, datasetTopK: nat): (k: nat)
    ensures topK.Some? && topK.value != 0 ==> k == topK.value
    ensures topK.None? || topK.value == 0 ==> k == datasetTopK
  {
    match topK
    case Some(v) => if v != 0 then v else datasetTopK
    case None => datasetTopK
  }

  /** The cutoff is zero only when the dataset's own cutoff is zero. */
  lemma EffectiveKZeroOnlyFromDataset(topK: Option<nat>, datasetTopK: nat)
    ensures EffectiveK(topK, datasetTopK) == 0 <==> datasetTopK == 0 && (topK.None? || topK.value == 0)
  {
  }

  /** The `KeyError` raised when a later result carries a key the first one lacks. */
  datatype AggregateError = KeyError

  /** What `result` adds to the running sum of `key`: its value, or nothing when absent. */
  function Contribution(result: QueryResult, key: string): real {
    if key in result.metrics then result.metrics[key] else 0.0
  }

  /** The running sum of `key` over `results`, in order. */
  function KeySum(results: seq<QueryResult>, key: string): real {
    if |results| == 0 then 0.0
    else KeySum(results[..|results| - 1], key) + Contribution(results[|results| - 1], key)
  }

  /** Every result's keys are among the first result's keys. */
  predicate KeysKnown(results: seq<QueryResult>)
    requires |results| > 0
  {
    forall i :: 0 <= i < |results| ==> results[i].metrics.Keys <= results[0].metrics.Keys
  }

  /** `_aggregate`: the mean of every key of the first result; an empty list gives the empty
      mapping, and a key unknown to the first result raises `KeyError`. */
  function Aggregate(results: seq<QueryResult>): (r: Result<map<string, real>, AggregateError>)
    ensures |results| == 0 ==> r == Success(map[])
    ensures r.Failure? <==>
              exists i, key :: 0 <= i < |results| && key in results[i].metrics && key !in results[0].metrics
    ensures r.Success? && |results| > 0 ==> r.value.Keys == results[0].metrics.Keys
    ensures r.Success? ==> forall key :: key in r.value ==> r.value[key] == KeySum(results, key) / |results| as real
  {
    if |results| == 0 then Success(map[])
    else if !KeysKnown(results) then Failure(KeyError)
    else Success(map key | key in results[0].metrics :: KeySum(results, key) / |results| as real)
  }

  /** The loops of `_aggregate` as written: zeroed sums for the first result's keys, every
      value of every result added in, then each sum divided by the number of results. */
  method AggregateLoop(results: seq<QueryResult>) returns (r: Result<map<string, real>, AggregateError>)
    ensures r == Aggregate(results)
  {
    if |results| == 0 {
      return Success(map[]);
    }
    var keys := results[0].metrics.Keys;
    var sums := map key | key in keys :: 0.0;
    var i := 0;
    while i < |results|
      invariant 0 <= i <= |results|
      invariant sums.Keys == keys
      invariant forall key :: key in sums ==> sums[key] == KeySum(results[..i], key)
      invariant forall j :: 0 <= j < i ==> results[j].metrics.Keys <= keys
    {
      var m := results[i].metrics;
      var pending := m.Keys;
      ghost var done: set<string> := {};
      while pending != {}
        invariant pending + done == m.Keys && pending !! done
        invariant done <= keys
        invariant sums.Keys == keys
        invariant forall key :: key in sums ==>
                    sums[key] == KeySum(results[..i], key) + (if key in done then m[key] else 0.0)
        decreases pending
      {
        var key :| key in pending;
        if key !in sums {
          assert !KeysKnown(results);
          return Failure(KeyError);
        }
        sums := sums[key := sums[key] + m[key]];
        pending := pending - {key};
        done := done + {key};
      }
      assert done == m.Keys;
      assert results[..i + 1][..i] == results[..i];
      i := i + 1;
    }
    assert results[..i] == results;
    assert KeysKnown(results);
    var means := map key | key in keys :: sums[key] / |results| as real;
    assert means == Aggregate(results).value;
    return Success(means);
  }

  /** The mean of a single result is that result. */
  lemma AggregateSingle(result: QueryResult)
    ensures Aggregate([result]) == Success(result.metrics)
  {
    var means := Aggregate([result]).value;
    forall key | key in result.metrics
      ensures means[key] == result.metrics[key]
    {
      assert [result][..0] == [];
      assert KeySum([result], key) == result.metrics[key];
    }
    assert means == result.metrics;
  }

  lemma {:induction false} KeySumBounds(results: seq<QueryResult>, key: string, lo: real, hi: real)
    requires forall i :: 0 <= i < |results| ==> key in results[i].metrics && lo <= results[i].metrics[key] <= hi
    ensures |results| as real * lo <= KeySum(results, key) <= |results| as real * hi
  {
    if |results| > 0 {
      KeySumBounds(results[..|results| - 1], key, lo, hi);
    }
  }

  lemma MeanBounds(sum: real, n: nat, lo: real, hi: real)
    requires n > 0 && n as real * lo <= sum <= n as real * hi
    ensures lo <= sum / n as real <= hi
  {
  }

  /** When every result carries `key`, its mean lies between the smallest and the largest
      per-query value. */
  lemma AggregateWithinRange(results: seq<QueryResult>, key: string, lo: real, hi: real)
    requires Aggregate(results).Success? && |results| > 0
    requires forall i :: 0 <= i < |results| ==> key in results[i].metrics && lo <= results[i].metrics[key] <= hi
    ensures key in Aggregate(results).value && lo <= Aggregate(results).value[key] <= hi
  {
    KeySumBounds(results, key, lo, hi);
    MeanBounds(KeySum(results, key), |results|, lo, hi);
  }

  /** The retrieval system's `query(text, top_k)`, taken as given. */
  type Retriever = (string, nat) -> seq<CodeChunk>

  /** `_run_single`. */
  function ScoreQuery(query: Query, retrieve: Retriever, k: nat, threshold: real, d: nat -> real): (r: Result<QueryResult, MetricError>)
    requires IsDiscount(d)
    ensures r.Failure? <==> k == 0 && |retrieve(query.text, k)| > 0
    ensures r.Success? ==> r.value.query == query && r.value.retrieved == retrieve(query.text, k)
    ensures r.Success? ==> ComputeMetrics(r.value.retrieved, query.groundTruth, k, threshold, d) == Success(r.value.metrics)
  {
    var retrieved := retrieve(query.text, k);
    var metrics :- ComputeMetrics(retrieved, query.groundTruth, k, threshold, d);
    Success(QueryResult(query, retrieved, metrics))
  }

  /** Applies `f` to every element in order, stopping at the first failure. */
  function MapAll<A, B, E>(xs: seq<A>, f: A -> Result<B, E>): (r: Result<seq<B>, E>)
    ensures r.Failure? <==> exists i :: 0 <= i < |xs| && f(xs[i]).Failure?
    ensures r.Success? ==> |r.value| == |xs| && forall i :: 0 <= i < |xs| ==> f(xs[i]) == Success(r.value[i])
  {
    if |xs| == 0 then Success([])
    else
      var first :- f(xs[0]);
      var rest :- MapAll(xs[1..], f);
      assert forall i :: 1 <= i < |xs| ==> xs[i] == xs[1..][i - 1];
      Success([first] + rest)
  }

  function QueryScorer(retrieve: Retriever, k: nat, threshold: real, d: nat -> real): Query -> Result<QueryResult, MetricError>
    requires IsDiscount(d)
  {
    q => ScoreQuery(q, retrieve, k, threshold, d)
  }

  /** The list comprehension over the dataset's queries: one result per query, in order. */
  function ScoreQueries(queries: seq<Query>, retrieve: Retriever, k: nat, threshold: real, d: nat -> real): (r: Result<seq<QueryResult>, MetricError>)
    requires IsDiscount(d)
    ensures r.Failure? <==> exists i :: 0 <= i < |queries| && ScoreQuery(queries[i], retrieve, k, threshold, d).Failure?
    ensures r.Success? ==> |r.value| == |queries|
    ensures r.Success? ==> forall i :: 0 <= i < |queries| ==>
              ScoreQuery(queries[i], retrieve, k, threshold, d) == Success(r.value[i])
  {
    var f := QueryScorer(retrieve, k, threshold, d);
    var r := MapAll(queries, f);
    assert forall i :: 0 <= i < |queries| ==> f(queries[i]) == ScoreQuery(queries[i], retrieve, k, threshold, d);
    r
  }

  /** Scoring the queries fails exactly when `k` is zero and some query retrieves something;
      otherwise each result pairs its query with what was retrieved and the metrics of that. */
  lemma ScoreQueriesMeaning(queries: seq<Query>, retrieve: Retriever, k: nat, threshold: real, d: nat -> real)
    requires IsDiscount(d)
    ensures ScoreQueries(queries, retrieve, k, threshold, d).Failure? <==>
              k == 0 && exists i :: 0 <= i < |queries| && |retrieve(queries[i].text, k)| > 0
    ensures var r := ScoreQueries(queries, retrieve, k, threshold, d);
            r.Success? ==> forall i :: 0 <= i < |queries| ==>
              && r.value[i].query == queries[i]
              && r.value[i].retrieved == retrieve(queries[i].text, k)
              && ComputeMetrics(r.value[i].retrieved, queries[i].groundTruth, k, threshold, d) == Success(r.value[i].metrics)
  {
    var r := ScoreQueries(queries, retrieve, k, threshold, d);
    if k == 0 && exists i :: 0 <= i < |queries| && |retrieve(queries[i].text, k)| > 0 {
      var i :| 0 <= i < |queries| && |retrieve(queries[i].text, k)| > 0;
      assert ScoreQuery(queries[i], retrieve, k, threshold, d).Failure?;
    }
    if r.Failure? {
      var i :| 0 <= i < |queries| && ScoreQuery(queries[i], retrieve, k, threshold, d).Failure?;
      assert |retrieve(queries[i].text, k)| > 0;
    }
  }

  /** Results that all come out of `compute_metrics` share the same four keys, so the
      aggregation never raises and its keys are the metric names. */
  lemma AggregateOfComputedMetrics(results: seq<QueryResult>)
    requires forall i :: 0 <= i < |results| ==> results[i].metrics.Keys == MetricNames
    ensures Aggregate(results).Success?
    ensures |results| > 0 ==> Aggregate(results).value.Keys == MetricNames
  {
  }

  datatype RunError = MetricFailure(metricError: MetricError) | AggregateFailure(aggregateError: AggregateError)

  /** The scoring part of `run` on a loaded dataset, once the retrieval system has ingested
      the repository. */
  function Run(dataset: Dataset, topK: Option<nat>, threshold: real, retrieve: Retriever, d: nat -> real): (r: Result<EvaluationReport, RunError>)
    requires IsDiscount(d)
    ensures var k := EffectiveK(topK, dataset.topK);
            r.Failure? <==> k == 0 && exists i :: 0 <= i < |dataset.queries| && |retrieve(dataset.queries[i].text, k)| > 0
    ensures r.Failure? ==> r.error.MetricFailure?
    ensures r.Success? ==> r.value.dataset == dataset && |r.value.queryResults| == |dataset.queries|
    ensures r.Success? ==> forall i :: 0 <= i < |dataset.queries| ==> r.value.queryResults[i].query == dataset.queries[i]
    ensures r.Success? ==> r.value.aggregateMetrics.Keys == if |dataset.queries| == 0 then {} else MetricNames
    ensures r.Success? ==> Aggregate(r.value.queryResults) == Success(r.value.aggregateMetrics)
    ensures var k := EffectiveK(topK, dataset.topK);
            r.Success? ==> forall i :: 0 <= i < |dataset.queries| ==>
              && r.value.queryResults[i].retrieved == retrieve(dataset.queries[i].text, k)
              && ComputeMetrics(r.value.queryResults[i].retrieved, dataset.queries[i].groundTruth, k, threshold, d)
                   == Success(r.value.queryResults[i].metrics)
  {
    var k := EffectiveK(topK, dataset.topK);
    ScoreQueriesMeaning(dataset.queries, retrieve, k, threshold, d);
    match ScoreQueries(dataset.queries, retrieve, k, threshold, d)
    case Failure(e) => Failure(MetricFailure(e))
    case Success(results) =>
      AggregateOfComputedMetrics(results);
      match Aggregate(results)
      case Failure(e) => Failure(AggregateFailure(e))
      case Success(aggregate) => Success(EvaluationReport(dataset, aggregate, results))
  }
}
