/** The demonstration keyword-search retriever: after ingestion it scores every file by how
    often the query's terms occur in it, cuts one chunk of up to twenty lines starting at the
    first line that mentions a term, and returns the best-scoring chunks. */
module SimpleGrep {
  import opened Wrappers
  import opened Models
  import opened Text
  import Sorting

  /** Lines per returned chunk. */
  const ChunkLines: nat := 20

  /** One readable file: its path relative to the repository root and its lines. */
  datatype IndexedFile = IndexedFile(path: string, lines: seq<string>)

  /** The retriever's state; `repoPath` is `None` until ingestion. */
  datatype GrepIndex = GrepIndex(repoPath: Option<string>, files: seq<IndexedFile>)

  datatype QueryError = NotIngested

  /** A chunk together with the integer score of its file. */
  datatype Scored = Scored(score: nat, chunk: CodeChunk)

  function KeepNonBlank(words: seq<string>): (r: seq<string>)
    ensures |r| <= |words|
    ensures forall k :: 0 <= k < |r| ==> StripNonEmpty(r[k])
  {
    if |words| == 0 then []
    else (if StripNonEmpty(words[0]) then [words[0]] else []) + KeepNonBlank(words[1..])
  }

  function LowerAll(lines: seq<string>): (r: seq<string>)
    ensures |r| == |lines|
    ensures forall i :: 0 <= i < |lines| ==> r[i] == Lower(lines[i])
  {
    seq(|lines|, i requires 0 <= i < |lines| => Lower(lines[i]))
  }

  /** The lower-cased whitespace-separated words of the query that are not blank. */
  function Terms(query: string): seq<string> {
    LowerAll(KeepNonBlank(Split(query)))
  }

  lemma {:induction false} KeepNonBlankKeepsWords(words: seq<string>)
    requires forall k :: 0 <= k < |words| ==> !Blank(words[k])
    ensures KeepNonBlank(words) == words
  {
    if |words| > 0 {
      KeepNonBlankKeepsWords(words[1..]);
    }
  }

  /** The blank filter never drops a word of `split()`, so the terms are exactly the
      lower-cased words, and there are none only for a blank query. */
  lemma TermsAreLoweredWords(query: string)
    ensures |Terms(query)| == |Split(query)|
    ensures forall k :: 0 <= k < |Split(query)| ==> Terms(query)[k] == Lower(Split(query)[k])
    ensures |Terms(query)| == 0 <==> Blank(query)
    ensures forall k :: 0 <= k < |Terms(query)| ==> |Terms(query)[k]| > 0
  {
    KeepNonBlankKeepsWords(Split(query));
  }

  /** Occurrences of `term` summed over the lines. */
  function TermScore(lines: seq<string>, term: string): nat {
    if |lines| == 0 then 0 else Count(lines[0], term) + TermScore(lines[1..], term)
  }

  /** Occurrences of every term summed over every line. */
  function FileScore(lines: seq<string>, terms: seq<string>): nat {
    if |terms| == 0 then 0 else TermScore(lines, terms[0]) + FileScore(lines, terms[1..])
  }

  /** Some term occurs in `line`. */
  predicate LineHasTerm(line: string, terms: seq<string>) {
    exists j :: 0 <= j < |terms| && Contains(line, terms[j])
  }

  lemma {:induction false} TermScorePositive(lines: seq<string>, term: string)
    ensures TermScore(lines, term) > 0 <==> exists i :: 0 <= i < |lines| && Contains(lines[i], term)
  {
    if |lines| > 0 {
      TermScorePositive(lines[1..], term);
      CountPositiveIffContains(lines[0], term);
      if exists i :: 0 <= i < |lines| && Contains(lines[i], term) {
        var i :| 0 <= i < |lines| && Contains(lines[i], term);
        if i > 0 {
          assert lines[1..][i - 1] == lines[i];
        }
      }
      if exists i :: 0 <= i < |lines[1..]| && Contains(lines[1..][i], term) {
        var i :| 0 <= i < |lines[1..]| && Contains(lines[1..][i], term);
        assert lines[i + 1] == lines[1..][i];
      }
    }
  }

  /** A file scores above zero exactly when one of its lines mentions a term. */
  lemma {:induction false} FileScorePositive(lines: seq<string>, terms: seq<string>)
    ensures FileScore(lines, terms) > 0 <==> exists i :: 0 <= i < |lines| && LineHasTerm(lines[i], terms)
  {
    if |terms| > 0 {
      FileScorePositive(lines, terms[1..]);
      TermScorePositive(lines, terms[0]);
      if exists i :: 0 <= i < |lines| && LineHasTerm(lines[i], terms) {
        var i :| 0 <= i < |lines| && LineHasTerm(lines[i], terms);
        var j :| 0 <= j < |terms| && Contains(lines[i], terms[j]);
        if j > 0 {
          assert terms[1..][j - 1] == terms[j];
          assert LineHasTerm(lines[i], terms[1..]);
        }
      }
      if exists i :: 0 <= i < |lines| && LineHasTerm(lines[i], terms[1..]) {
        var i :| 0 <= i < |lines| && LineHasTerm(lines[i], terms[1..]);
        var j :| 0 <= j < |terms[1..]| && Contains(lines[i], terms[1..][j]);
        assert terms[j + 1] == terms[1..][j];
        assert LineHasTerm(lines[i], terms);
      }
    }
  }

  function FirstTermLineFrom(lines: seq<string>, terms: seq<string>, from: nat): (r: nat)
    requires from <= |lines|
    ensures from <= r <= |lines|
    ensures r < |lines| ==> LineHasTerm(lines[r], terms)
    ensures forall i :: from <= i < r ==> !LineHasTerm(lines[i], terms)
    decreases |lines| - from
  {
    if from == |lines| then from
    else if LineHasTerm(lines[from], terms) then from
    else FirstTermLineFrom(lines, terms, from + 1)
  }

  /** Index of the first line mentioning a term, `0` when there is none. */
  function FirstTermLine(lines: seq<string>, terms: seq<string>): (r: nat)
    ensures r <= |lines|
    ensures (exists i :: 0 <= i < |lines| && LineHasTerm(lines[i], terms)) ==>
              r < |lines| && LineHasTerm(lines[r], terms)
    ensures forall i :: 0 <= i < r ==> !LineHasTerm(lines[i], terms)
    ensures (forall i :: 0 <= i < |lines| ==> !LineHasTerm(lines[i], terms)) ==> r == 0
  {
    var r := FirstTermLineFrom(lines, terms, 0);
    if r < |lines| then r else 0
  }

  /** What the retriever makes of one file with a positive score. */
  ghost predicate ChunkFor(file: IndexedFile, terms: seq<string>, s: Scored) {
    var lowered := LowerAll(file.lines);
    var start := s.chunk.startLine - 1;
    && s.score == FileScore(lowered, terms) > 0
    && s.chunk.Valid()
    && s.chunk.filePath == file.path
    && s.chunk.score == Some(s.score as real)
    && s.chunk.endLine == Min(start + ChunkLines, |file.lines|)
    && 0 <= start < |file.lines|
    && LineHasTerm(lowered[start], terms)
    && (forall i :: 0 <= i < start ==> !LineHasTerm(lowered[i], terms))
    && s.chunk.content == JoinLines(file.lines[start..s.chunk.endLine])
  }

  /** Scores one file; `None` when no term occurs in it. */
  function ScoreFile(file: IndexedFile, terms: seq<string>): (r: Option<Scored>)
    ensures r.None? <==> FileScore(LowerAll(file.lines), terms) == 0
    ensures r.Some? ==> ChunkFor(file, terms, r.value)
    ensures r.Some? ==> r.value.chunk.endLine - r.value.chunk.startLine < ChunkLines
  {
    var lowered := LowerAll(file.lines);
    var score := FileScore(lowered, terms);
    if score <= 0 then None
    else
      FileScorePositive(lowered, terms);
      var startIdx := FirstTermLine(lowered, terms);
      var endIdx := Min(startIdx + ChunkLines, |file.lines|);
      var chunk := NewCodeChunk(file.path, startIdx + 1, endIdx,
                                JoinLines(file.lines[startIdx..endIdx]), Some(score as real));
      Some(Scored(score, chunk.value))
  }

  /** The present results of `f` over `xs`, in order. */
  function FilterMap<A, B>(xs: seq<A>, f: A -> Option<B>): (r: seq<B>)
    ensures |r| <= |xs|
  {
    if |xs| == 0 then []
    else (if f(xs[0]).Some? then [f(xs[0]).value] else []) + FilterMap(xs[1..], f)
  }

  /** Every element of `FilterMap` is a present result, and every present result is there. */
  lemma {:induction false} FilterMapMembers<A, B>(xs: seq<A>, f: A -> Option<B>)
    ensures forall k :: 0 <= k < |FilterMap(xs, f)| ==>
              exists i :: 0 <= i < |xs| && f(xs[i]) == Some(FilterMap(xs, f)[k])
    ensures forall i :: 0 <= i < |xs| && f(xs[i]).Some? ==> f(xs[i]).value in FilterMap(xs, f)
  {
    if |xs| > 0 {
      FilterMapMembers(xs[1..], f);
      var head := if f(xs[0]).Some? then [f(xs[0]).value] else [];
      var rest := FilterMap(xs[1..], f);
      var r := FilterMap(xs, f);
      assert r == head + rest;
      forall k | 0 <= k < |r|
        ensures exists i :: 0 <= i < |xs| && f(xs[i]) == Some(r[k])
      {
        if k >= |head| {
          assert r[k] == rest[k - |head|];
          var i :| 0 <= i < |xs[1..]| && f(xs[1..][i]) == Some(rest[k - |head|]);
          assert xs[1..][i] == xs[i + 1];
        }
      }
      forall i | 0 <= i < |xs| && f(xs[i]).Some?
        ensures f(xs[i]).value in r
      {
        if i > 0 {
          assert xs[1..][i - 1] == xs[i];
        }
      }
    } else {
      assert |FilterMap(xs, f)| == 0;
    }
  }

  /** The scored files in ingestion order. */
  function ScoreFiles(files: seq<IndexedFile>, terms: seq<string>): (r: seq<Scored>)
    ensures |r| <= |files|
  {
    FilterMap(files, Scorer(terms))
  }

  function Scorer(terms: seq<string>): IndexedFile -> Option<Scored> {
    file => ScoreFile(file, terms)
  }

  /** Every scored entry comes from a file, and every file that scores is there. */
  lemma ScoreFilesMembers(files: seq<IndexedFile>, terms: seq<string>)
    ensures forall k :: 0 <= k < |ScoreFiles(files, terms)| ==>
              exists i :: 0 <= i < |files| && ScoreFile(files[i], terms) == Some(ScoreFiles(files, terms)[k])
    ensures forall i :: 0 <= i < |files| && ScoreFile(files[i], terms).Some? ==>
              ScoreFile(files[i], terms).value in ScoreFiles(files, terms)
  {
    var f := Scorer(terms);
    assert ScoreFiles(files, terms) == FilterMap(files, f);
    FilterMapMembers(files, f);
    forall k | 0 <= k < |ScoreFiles(files, terms)|
      ensures exists i :: 0 <= i < |files| && ScoreFile(files[i], terms) == Some(ScoreFiles(files, terms)[k])
    {
      var i :| 0 <= i < |files| && f(files[i]) == Some(FilterMap(files, f)[k]);
      assert ScoreFile(files[i], terms) == f(files[i]);
      assert ScoreFile(files[i], terms) == Some(ScoreFiles(files, terms)[k]);
    }
    forall i | 0 <= i < |files| && ScoreFile(files[i], terms).Some?
      ensures ScoreFile(files[i], terms).value in ScoreFiles(files, terms)
    {
      assert f(files[i]) == ScoreFile(files[i], terms);
    }
    assert forall k :: 0 <= k < |ScoreFiles(files, terms)| ==>
              exists i :: 0 <= i < |files| && ScoreFile(files[i], terms) == Some(ScoreFiles(files, terms)[k]);
  }

  function ScoreKey(s: Scored): int {
    s.score
  }

  /** The scored files ordered by decreasing score, ties in ingestion order. */
  function Ranked(files: seq<IndexedFile>, terms: seq<string>): (r: seq<Scored>)
    ensures Sorting.SortedDesc(r, ScoreKey)
    ensures multiset(r) == multiset(ScoreFiles(files, terms))
    ensures |r| == |ScoreFiles(files, terms)|
    ensures forall v :: Sorting.WithKey(r, ScoreKey, v) == Sorting.WithKey(ScoreFiles(files, terms), ScoreKey, v)
  {
    Sorting.SortDescProperties(ScoreFiles(files, terms), ScoreKey);
    Sorting.SortDesc(ScoreFiles(files, terms), ScoreKey)
  }

  /** Python's `xs[:k]`, a negative `k` dropping that many elements from the end. */
  function SlicePrefix<T>(xs: seq<T>, k: int): (r: seq<T>)
    ensures k >= 0 ==> |r| == Min(k, |xs|)
    ensures k < 0 ==> |r| == Max(0, |xs| + k)
    ensures |r| <= |xs| && r == xs[..|r|]
  {
    if k >= 0 then xs[..Min(k, |xs|)] else xs[..Max(0, |xs| + k)]
  }

  function Chunks(ss: seq<Scored>): (r: seq<CodeChunk>)
    ensures |r| == |ss|
    ensures forall k :: 0 <= k < |ss| ==> r[k] == ss[k].chunk
  {
    seq(|ss|, k requires 0 <= k < |ss| => ss[k].chunk)
  }

  /** A ranked entry came from some ingested file. */
  lemma RankedFromFile(files: seq<IndexedFile>, terms: seq<string>, k: nat)
    requires k < |Ranked(files, terms)|
    ensures exists i :: 0 <= i < |files| && ScoreFile(files[i], terms) == Some(Ranked(files, terms)[k])
  {
    var s := Ranked(files, terms)[k];
    assert s in multiset(Ranked(files, terms));
    assert s in ScoreFiles(files, terms);
    var m :| 0 <= m < |ScoreFiles(files, terms)| && ScoreFiles(files, terms)[m] == s;
    ScoreFilesMembers(files, terms);
  }

  /** `query`: fails before ingestion, returns nothing for a blank query, and otherwise the
      `topK` best chunks, each cut from a file that mentions a term, by non-increasing score. */
  function Search(index: GrepIndex, query: string, topK: int): (r: Result<seq<CodeChunk>, QueryError>)
    ensures r.Failure? <==> index.repoPath.None?
    ensures r.Success? && Blank(query) ==> r.value == []
    ensures r.Success? && topK >= 0 ==> |r.value| <= topK
    ensures r.Success? ==> |r.value| <= |ScoreFiles(index.files, Terms(query))| <= |index.files|
    ensures r.Success? && !Blank(query) && topK >= 0 ==> |r.value| == Min(topK, |Ranked(index.files, Terms(query))|)
    ensures r.Success? ==> forall k :: 0 <= k < |r.value| ==>
              && r.value[k].Valid()
              && r.value[k].endLine - r.value[k].startLine < ChunkLines
              && r.value[k].score.Some? && r.value[k].score.value > 0.0
              && exists i :: 0 <= i < |index.files| && ScoreFile(index.files[i], Terms(query)).Some?
                   && ScoreFile(index.files[i], Terms(query)).value.chunk == r.value[k]
    ensures r.Success? ==> forall j, k :: 0 <= j < k < |r.value| ==>
              r.value[k].score.value <= r.value[j].score.value
  {
    if index.repoPath.None? then Failure(NotIngested)
    else
      var terms := Terms(query);
      TermsAreLoweredWords(query);
      if |terms| == 0 then Success([])
      else
        var top := SlicePrefix(Ranked(index.files, terms), topK);
        TopFromFiles(index.files, terms, topK);
        Success(Chunks(top))
  }

  /** Every entry of a prefix of the ranking came from some ingested file. */
  lemma TopFromFiles(files: seq<IndexedFile>, terms: seq<string>, topK: int)
    ensures var top := SlicePrefix(Ranked(files, terms), topK);
            forall k :: 0 <= k < |top| ==>
              exists i :: 0 <= i < |files| && ScoreFile(files[i], terms) == Some(top[k])
  {
    var top := SlicePrefix(Ranked(files, terms), topK);
    forall k | 0 <= k < |top|
      ensures exists i :: 0 <= i < |files| && ScoreFile(files[i], terms) == Some(top[k])
    {
      RankedFromFile(files, terms, k);
    }
  }

  /** With a budget at least the number of files, every file that mentions a term is
      returned, best first. */
  lemma SearchReturnsEveryMatchingFile(index: GrepIndex, query: string, topK: int)
    requires index.repoPath.Some? && !Blank(query) && topK >= |index.files|
    ensures Search(index, query, topK).Success?
    ensures Search(index, query, topK).value == Chunks(Ranked(index.files, Terms(query)))
  {
    TermsAreLoweredWords(query);
  }

  /** The answer is a prefix of the ranking, so chunks of equal score appear in ingestion order;
      its length is the one Python's `ranked[:top_k]` gives, negative `top_k` included. */
  lemma SearchIsRankedPrefix(index: GrepIndex, query: string, topK: int)
    requires index.repoPath.Some?
    ensures var r := Search(index, query, topK).value;
            |r| <= |Ranked(index.files, Terms(query))|
            && r == Chunks(Ranked(index.files, Terms(query))[..|r|])
    ensures var r := Search(index, query, topK).value;
            var n := |Ranked(index.files, Terms(query))|;
            && (Blank(query) ==> |r| == 0)
            && (!Blank(query) && topK >= 0 ==> |r| == Min(topK, n))
            && (!Blank(query) && topK < 0 ==> |r| == Max(0, n + topK))
  {
    TermsAreLoweredWords(query);
  }
}
