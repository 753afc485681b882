/** The plain records of the benchmark: retrieved chunks, ground-truth chunks, queries,
    datasets and per-query / per-run results. */
module Models {
  import opened Wrappers

  /** A closed, 1-based line range `[start, end]` in one file. Nothing forces
      `start <= end`: for an unvalidated range the length may be zero or negative. */
  datatype Span = Span(file: string, start: int, end: int) {
    function Length(): int {
      end - start + 1
    }
  }

  /** A labelled location. The source performs no validation at all on it, so every
      field combination is representable. */
  datatype GroundTruthChunk = GroundTruthChunk(filePath: string, startLine: int, endLine: int) {
    function AsSpan(): Span {
      Span(filePath, startLine, endLine)
    }
  }

  /** A code snippet returned by a retrieval system. `content` and `score` are
      informational: no metric reads them. */
  datatype CodeChunk = CodeChunk(filePath: string, startLine: int, endLine: int,
                                 content: string, score: Option<real>) {
    /** The construction-time invariant. */
    predicate Valid() {
      1 <= startLine <= endLine
    }

    function AsSpan(): Span {
      Span(filePath, startLine, endLine)
    }
  }

  /** The two `ValueError`s that construction can raise. */
  datatype ChunkError = StartLineBelowOne | EndLineBeforeStart

  /** Dataclass construction followed by the validity checks; the start check runs first. */
  function NewCodeChunk(filePath: string, startLine: int, endLine: int,
                        content: string, score: Option<real>): (r: Result<CodeChunk, ChunkError>)
    ensures r.Success? <==> 1 <= startLine <= endLine
    ensures startLine < 1 ==> r == Failure(StartLineBelowOne)
    ensures 1 <= startLine && endLine < startLine ==> r == Failure(EndLineBeforeStart)
    ensures r.Success? ==> r.value.Valid() && r.value.AsSpan().Length() >= 1
    ensures r.Success? ==> r.value == CodeChunk(filePath, startLine, endLine, content, score)
  {
    if startLine < 1 then Failure(StartLineBelowOne)
    else if endLine < startLine then Failure(EndLineBeforeStart)
    else Success(CodeChunk(filePath, startLine, endLine, content, score))
  }

  /** Construction accepts exactly the valid chunks, and gives back the chunk itself. */
  lemma NewCodeChunkRoundTrip(c: CodeChunk)
    ensures c.Valid() <==> NewCodeChunk(c.filePath, c.startLine, c.endLine, c.content, c.score) == Success(c)
  {
  }

  /** Neither `content` nor `score` affects whether construction succeeds or which error it raises. */
  lemma ValidityIgnoresPayload(filePath: string, startLine: int, endLine: int,
                               c1: string, s1: Option<real>, c2: string, s2: Option<real>)
    ensures NewCodeChunk(filePath, startLine, endLine, c1, s1).Failure?
        <==> NewCodeChunk(filePath, startLine, endLine, c2, s2).Failure?
    ensures NewCodeChunk(filePath, startLine, endLine, c1, s1).Failure? ==>
              NewCodeChunk(filePath, startLine, endLine, c1, s1).error
              == NewCodeChunk(filePath, startLine, endLine, c2, s2).error
  {
  }

  datatype Query = Query(id: string, text: string, groundTruth: seq<GroundTruthChunk>)

  datatype RepoSpec = RepoSpec(url: string, commit: Option<string>)

  /** `topK` is a `nat`: negative values (Python slice semantics) are outside the model. */
  datatype Dataset = Dataset(name: string, repo: RepoSpec, queries: seq<Query>, topK: nat)

  datatype QueryResult = QueryResult(query: Query, retrieved: seq<CodeChunk>, metrics: map<string, real>)

  datatype EvaluationReport = EvaluationReport(dataset: Dataset, aggregateMetrics: map<string, real>,
                                               queryResults: seq<QueryResult>)
}
