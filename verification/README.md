# Retrieval scoring for code RAG benchmarks, in Dafny

This project models the scoring engine of `rag_eval`, a tool that benchmarks
retrieval-augmented-generation systems on code repositories. A benchmark query carries
ground-truth line ranges; a retrieval system returns ranked code chunks; the engine decides
which retrieved chunk matches which ground-truth chunk and turns the ranking into four
metrics — precision@k, recall@k, MRR and nDCG@k. Around the engine the model covers:

- the validity rule of `CodeChunk`;
- the runner's choice of cutoff and its per-key mean over all queries;
- the demonstration keyword retriever `SimpleGrepRAG.query`.

Layout, one module per file:

- `wrappers.dfy` (`Wrappers`): `Option`, `Result` and `Min`/`Max`.
- `models.dfy` (`Models`): the records (`CodeChunk`, `GroundTruthChunk`, `Query`,
  `Dataset`, `QueryResult`, `EvaluationReport`) and chunk construction with its two
  `ValueError`s.
- `matching.dfy` (`Matching`): line overlap, the match rule and the first-match lookup.
- `sorting.dfy` (`Sorting`): Python's stable sort with `reverse=True`, proved sorted, a
  permutation, and order-preserving among equal keys.
- `discounting.dfy` (`Discounting`): DCG over binary relevance for any positive, strictly
  decreasing discount.
- `metrics.dfy` (`Metrics`): the four metrics and `compute_metrics`.
- `scenario.dfy` (`MetricsScenario`): the worked example of the repository's metric test.
- `runner.dfy` (`Runner`): effective cutoff, per-query scoring, aggregation and the scoring
  half of `run`.
- `text.dfy` (`Text`): the string operations the keyword retriever uses.
- `simple_grep.dfy` (`SimpleGrep`): the keyword retriever over already-ingested files.

Metric values are exact `real`s. The nDCG discount `1 / log2(i + 2)` is a parameter `d`
required to be positive and strictly decreasing. Every nDCG result holds for every such
function, the logarithmic one included.

Two points where the code's behaviour deserves a note; the model follows the code:

- `precision_at_k` tests emptiness on the whole retrieved list, not on the top-k window
  (src/rag_eval/metrics/core.py:45, 53). A cutoff of 0 with a non-empty list therefore
  divides by zero, while an empty list gives 0.0. `Metrics.PrecisionAtK` returns
  `Failure(ZeroDivision)` exactly in that case. `Metrics.ComputeMetrics` and `Runner.Run`
  inherit this failure.
- The repository's test expects `recall_at_k(..., k=2) == 0.5` for its two ground-truth and
  three retrieved chunks (tests/test_metrics.py:17). The first two retrieved chunks already
  match both ground-truth chunks, so the test expects 0.5 and the code yields 1.0.
  `MetricsScenario.ScenarioAtTwo` proves the value is 1.0 and not 0.5.

## Model

| member | source | states |
|---|---|---|
| Models.NewCodeChunk | src/rag_eval/models/chunk.py:15-19 | construction succeeds iff `1 <= start <= end`; a start below 1 reports the start error even when the end is also wrong; an end before the start reports the end error; an accepted chunk keeps its fields and spans at least one line |
| Models.NewCodeChunkRoundTrip | src/rag_eval/models/chunk.py:9-19 | a chunk value is valid exactly when rebuilding it from its own fields succeeds and gives it back |
| Models.ValidityIgnoresPayload | src/rag_eval/models/chunk.py:12-19 | `content` and `score` never change whether construction fails or which error it raises |
| Matching.LineOverlap | src/rag_eval/metrics/core.py:8-9 | a positive overlap is no larger than either range's length `end - start + 1` |
| Matching.LineOverlapCountsCommonLines | src/rag_eval/metrics/core.py:8-9 | the overlap is the number of line numbers the two closed ranges share; it is symmetric, zero exactly when the ranges are disjoint, and bounded by each range's size |
| Matching.ChunkOverlap | src/rag_eval/metrics/core.py:12-15 | chunks in different files overlap by 0; a positive overlap means same file, and lies between 1 and each chunk's length, even for an unvalidated ground-truth range |
| Matching.OverlapRatio | src/rag_eval/metrics/core.py:21-27 | when the overlap is positive, both lengths are at least 1, so the divisor is at least 1 and the ratio lies in (0, 1] |
| Matching.ChunkMatches | src/rag_eval/metrics/core.py:18-27 | a match needs the two chunks in one file with a positive overlap, and is only possible for a threshold of at most 1, since the ratio never exceeds 1 |
| Matching.ChunkMatchesMeaning | src/rag_eval/metrics/core.py:18-27 | a match is a positive overlap whose ratio to the shorter length reaches the threshold |
| Matching.SpanMatchesSymmetric | src/rag_eval/metrics/core.py:21-27 | swapping the two ranges does not change whether they match |
| Matching.DifferentFilesNeverMatch | src/rag_eval/metrics/core.py:13-14 | chunks in different files never match, whatever their lines and the threshold |
| Matching.NestedSpansMatch | src/rag_eval/metrics/core.py:21-27 | a retrieved range nested inside the ground-truth range in the same file matches for every threshold up to 1 |
| Matching.ThresholdAboveOneNeverMatches | src/rag_eval/metrics/core.py:21-27 | with a threshold above 1 nothing matches |
| Matching.MatchesMonotoneInThreshold | src/rag_eval/metrics/core.py:27 | a match at some threshold is also a match at every lower threshold |
| Matching.FirstMatchIndex | src/rag_eval/metrics/core.py:30-36 | the result is the least ground-truth index that matches, and `None` exactly when no ground-truth chunk matches |
| Matching.IsHitMeaning | src/rag_eval/metrics/core.py:30-36 | a chunk has a first match exactly when some ground-truth chunk matches it |
| Matching.FirstMatchIsNotBestOverlap | src/rag_eval/metrics/core.py:33-35 | in a concrete example the earliest matching ground-truth chunk wins over one with a larger overlap |
| Sorting.SortDescProperties | src/rag_eval/metrics/core.py:97 | the sort puts keys in non-increasing order and is a permutation of its input; elements with equal keys keep their original relative order |
| Discounting.DcgBounded | src/rag_eval/metrics/core.py:96-98 | the DCG of a binary relevance list is at least 0 and at most the DCG of the same number of hits placed first |
| Discounting.DcgOfHitsFirst | src/rag_eval/metrics/core.py:96-98 | a list whose hits all precede its misses reaches that bound exactly |
| Discounting.DcgBelowWhenMissFirst | src/rag_eval/metrics/core.py:96-98 | a miss ahead of a hit makes the DCG strictly smaller than the bound |
| Discounting.DcgPositive | src/rag_eval/metrics/core.py:96 | a single hit anywhere makes the DCG positive |
| Discounting.IdealDcg | src/rag_eval/metrics/core.py:97-98 | the ideal list is a descending permutation of the relevance list with the same number of hits, and its DCG is the hits-first bound |
| Metrics.Window | src/rag_eval/metrics/core.py:47 | the window `retrieved[:k]` is the first `min(k, len)` retrieved chunks; the same window feeds recall, MRR and nDCG (lines 65, 78, 92) |
| Metrics.ProfileMeaning | src/rag_eval/metrics/core.py:47-51 | position `i` of the window is a hit exactly when some ground-truth chunk matches it; the recorded index is then the first match |
| Metrics.ProfileGrows | src/rag_eval/metrics/core.py:65 | a larger cutoff only appends positions: the smaller window's per-position results are a prefix of the larger one's |
| Metrics.PrecisionAtK | src/rag_eval/metrics/core.py:39-53 | 0.0 for an empty list; division by zero exactly when the list is non-empty and the cutoff is 0; otherwise hit positions (duplicates on one ground truth counted) over `min(k, len)`, in [0, 1] |
| Metrics.RecallAtK | src/rag_eval/metrics/core.py:56-69 | 1.0 without ground truth; otherwise the number of distinct first-match indices in the window over the number of ground-truth chunks, in [0, 1] |
| Metrics.MatchedInRange | src/rag_eval/metrics/core.py:64-68 | every index collected into `matched_gt` names a ground-truth chunk |
| Metrics.RecallMonotoneInK | src/rag_eval/metrics/core.py:65-69 | recall never decreases as the cutoff grows |
| Metrics.RecallFullIffCovered | src/rag_eval/metrics/core.py:64-69 | recall is 1 exactly when every ground-truth index is collected |
| Metrics.RecallFullIffAllFirstMatched | src/rag_eval/metrics/core.py:64-69 | recall is 1 exactly when every ground-truth chunk is the first match of some chunk in the window |
| Metrics.Mrr | src/rag_eval/metrics/core.py:72-81 | in [0, 1]; 0 exactly when the window has no hit; otherwise `1 / r` for the 1-based rank `r` of the first hit |
| Metrics.MrrPositiveIffPrecisionHit | src/rag_eval/metrics/core.py:48-81 | MRR is positive exactly when the same window has a hit, which is exactly when a defined precision is positive |
| Metrics.NdcgAtK | src/rag_eval/metrics/core.py:84-101 | for every positive, decreasing discount the result lies in [0, 1] |
| Metrics.NdcgExtremes | src/rag_eval/metrics/core.py:90-101 | nDCG is 0 exactly when the window has no hit; it is 1 exactly when there is a hit and every hit precedes every miss |
| Metrics.ComputeMetrics | src/rag_eval/metrics/core.py:104-115 | fails exactly when precision divides by zero; otherwise its keys are exactly the four metric names, every value lies in [0, 1], and each value is its metric at the same cutoff and threshold |
| MetricsScenario.ScenarioAtTwo | tests/test_metrics.py:6-17 | on the test's data at cutoff 2, precision is 1 and recall is 1, not the 0.5 the test expects |
| MetricsScenario.ScenarioAtThree | tests/test_metrics.py:19-21 | on the test's data at cutoff 3, the bundle holds precision 2/3, recall 1, MRR 1 and nDCG 1 |
| Runner.EffectiveK | src/rag_eval/runner/benchmark_runner.py:33 | an override that is present and non-zero is used; a missing or zero override falls back to the dataset's cutoff |
| Runner.EffectiveKZeroOnlyFromDataset | src/rag_eval/runner/benchmark_runner.py:33 | the cutoff is 0 exactly when the dataset's cutoff is 0 and no non-zero override is given |
| Runner.Aggregate | src/rag_eval/runner/benchmark_runner.py:45-54 | no results give the empty mapping; a key that a later result has and the first lacks raises `KeyError`, and nothing else does; the keys are the first result's; each value is that key's sum over all results divided by their number |
| Runner.AggregateLoop | src/rag_eval/runner/benchmark_runner.py:45-54 | the nested loops as written compute the same mapping or error as the per-key mean |
| Runner.AggregateSingle | src/rag_eval/runner/benchmark_runner.py:46-54 | a single result's metrics come back unchanged |
| Runner.AggregateWithinRange | src/rag_eval/runner/benchmark_runner.py:50-54 | when every result has the key, its mean lies between the smallest and largest per-query value |
| Runner.AggregateOfComputedMetrics | src/rag_eval/runner/benchmark_runner.py:45-54 | results from `compute_metrics` never make the aggregation fail, and its keys are the four metric names |
| Runner.ScoreQuery | src/rag_eval/runner/benchmark_runner.py:38-43 | fails exactly when the cutoff is 0 and the query retrieved something; otherwise it keeps the query and what was retrieved, with their metrics at the same cutoff |
| Runner.ScoreQueriesMeaning | src/rag_eval/runner/benchmark_runner.py:34 | scoring fails exactly when the cutoff is 0 and some query retrieves something; otherwise there is one result per query, in dataset order, each with its own metrics |
| Runner.Run | src/rag_eval/runner/benchmark_runner.py:33-43 | fails only through a metric's division by zero, and exactly when the effective cutoff is 0 and some query retrieves something; otherwise the report keeps the dataset and query order; result `i` holds what the system retrieved for query `i` at the effective cutoff and that list's metrics against the query's ground truth; the aggregate is the per-key mean of exactly those results, with the four names as keys, or none without queries |
| Text.Split | examples/simple_adapter.py:34 | whitespace splitting yields non-empty words without whitespace, and no words exactly when the text is blank |
| Text.SplitJoinRoundTrip | examples/simple_adapter.py:34 | the words are the maximal non-space runs: joining non-empty, space-free words with single spaces and splitting again gives the same words back |
| Text.SplitKeepsText | examples/simple_adapter.py:34 | the words, joined back together, are exactly the input with its whitespace removed |
| Text.Lower | examples/simple_adapter.py:40 | lower-casing keeps the length and lowers each character on its own: ASCII capitals become small letters, everything else is unchanged |
| Text.Count | examples/simple_adapter.py:41 | an empty term occurs `len + 1` times; otherwise the occurrences are non-overlapping, so their number times the term's length fits in the line |
| Text.JoinLinesRoundTrip | examples/simple_adapter.py:54 | joining lines that hold no newline with `"\n"` loses nothing: splitting at newlines gives the same lines back |
| Text.CountPositiveIffContains | examples/simple_adapter.py:41-46 | a term's occurrence count in a line is positive exactly when the line contains the term |
| SimpleGrep.TermsAreLoweredWords | examples/simple_adapter.py:34-36 | the blank filter never drops a word, so the terms are the lower-cased words; there are none exactly when the query is blank |
| SimpleGrep.FileScorePositive | examples/simple_adapter.py:41-43 | a file's total score is positive exactly when one of its lines contains a term |
| SimpleGrep.FirstTermLine | examples/simple_adapter.py:45-48 | the result is the first line containing a term, if there is one; the 0 default is used only when no line does |
| SimpleGrep.ScoreFile | examples/simple_adapter.py:40-57 | a file yields nothing exactly when its score is 0. Otherwise the chunk is valid and spans at most 20 lines. It starts at the first line mentioning a term and ends at `min(start + 20, lines)`. It keeps the file's path and the joined lines, and carries the score |
| SimpleGrep.ScoreFilesMembers | examples/simple_adapter.py:39-57 | every scored entry comes from an ingested file, and every file with a positive score has its entry |
| SimpleGrep.Ranked | examples/simple_adapter.py:59 | the ranking is by non-increasing score and is a permutation of the scored files; files with equal scores stay in ingestion order |
| SimpleGrep.Search | examples/simple_adapter.py:30-60 | fails exactly before ingestion; a blank query gives nothing; at most `top_k` chunks and at most one per positively scored file; exactly `min(top_k, number of scored files)` chunks for a non-blank query and a non-negative `top_k`; each chunk is valid, at most 20 lines, with a positive score, cut from an ingested file; scores are non-increasing |
| SimpleGrep.SearchIsRankedPrefix | examples/simple_adapter.py:59-60 | the answer is the first chunks of the stable ranking, so ties appear in ingestion order; it is empty for a blank query, and otherwise as long as `ranked[:top_k]`: `min(top_k, n)` chunks, or all but the last `-top_k` for a negative `top_k` |
| SimpleGrep.SlicePrefix | examples/simple_adapter.py:60 | Python's `xs[:k]`: the first `min(k, len)` elements for `k >= 0`, all but the last `-k` (or none) for a negative `k`; always a prefix of `xs` |
| SimpleGrep.SearchReturnsEveryMatchingFile | examples/simple_adapter.py:57-60 | with a budget of at least the number of files, every file mentioning a term is returned, best first |

## Left out

- Floating point: metric values are exact reals. Rounding at the exact threshold boundary in `chunk_matches`, and `math.log2`'s values, are not modelled. `d` stands for the logarithmic discount.
- Negative cutoffs: `k` and `Dataset.topK` are `nat`, so Python's negative-slice behaviour in the metrics and the runner is outside the model. `SimpleGrep.SlicePrefix` does model a negative `top_k` for the keyword retriever.
- `BenchmarkRunner.run`'s side effects: loading the YAML dataset, cloning or checking out the repository, `clear` and `ingest`. `Runner.Run` starts from a loaded dataset and an ingested retrieval system. The system's `query` is the function parameter `retrieve`.
- Runner.Aggregate: which key the `KeyError` names is not recorded. Python stops at the first unknown key met in dictionary order, and the model only says that some unknown key exists.
- src/rag_eval/runner/dataset_loader.py, src/rag_eval/cli.py, src/rag_eval/reporting/* and adapters/code_rag_adapter.py are not part of this model. They are YAML, git, console and file I/O, plus a wrapper over an external embedding library.
- `SimpleGrepRAG.ingest`: walking the directory, decoding UTF-8 and skipping unreadable files. The ingested state is given as `GrepIndex`, with each file's path relative to the repository root and its lines after `splitlines()`.
- SimpleGrep.Search: `str.lower`, `str.split` and `str.strip` are modelled on ASCII only. Unicode case mapping and Unicode whitespace are not modelled.
- Default arguments: `k=10` and `overlap_threshold=0.5` of the metric functions, and `top_k=10` of `query`, are not modelled. Every call in the model passes them explicitly.
- Dictionary order: `compute_metrics` and `_aggregate` return dicts whose insertion order Python keeps. A Dafny `map` has no order, so the model states their keys and values only.
- `GroundTruthChunk`, `Query`, `RepoSpec`, `Dataset`, `QueryResult` and `EvaluationReport` are plain records. They are datatypes with no operations. `GroundTruthChunk` is deliberately unvalidated, as in the source.
