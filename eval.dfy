/** The evaluation runner (backend/eval/run.py): three count ratios per question
    (retrieval precision, citation precision and the word-overlap faithfulness
    heuristic) and their averages over a dataset. Retrieval, answer generation and
    the latency clock are parameters. */
module Eval {
  import opened Wrappers
  import opened Models
  import opened Text
  import Generator
  import Retriever

  // ---------------------------------------------------------------- retrieval precision

  /** `{chunk["file_path"] for chunk in retrieved_chunks}`. */
  function RetrievedFiles(retrieved: seq<Chunk>): set<string> {
    set k | 0 <= k < |retrieved| :: retrieved[k].filePath
  }

  /** `sum(1 for f in expected_files if f in retrieved_files)`. */
  function CountFound(expected: seq<string>, files: set<string>): (n: nat)
    ensures n <= |expected|
  {
    if expected == [] then 0
    else (if expected[0] in files then 1 else 0) + CountFound(expected[1..], files)
  }

  /** Every expected entry counts exactly when all of them were retrieved. */
  lemma {:induction false} CountFoundAll(expected: seq<string>, files: set<string>)
    ensures CountFound(expected, files) == |expected| <==> forall k :: 0 <= k < |expected| ==> expected[k] in files
    ensures CountFound(expected, files) == 0 <==> forall k :: 0 <= k < |expected| ==> expected[k] !in files
  {
    if expected != [] {
      CountFoundAll(expected[1..], files);
      assert forall k :: 1 <= k < |expected| ==> expected[k] == expected[1..][k - 1];
    }
  }

  /** `evaluate_retrieval_precision`. */
  function RetrievalPrecision(retrieved: seq<Chunk>, expected: seq<string>): (r: real)
    ensures 0.0 <= r <= 1.0
  {
    if expected == [] || retrieved == [] then 0.0
    else
      Retriever.Ratio(CountFound(expected, RetrievedFiles(retrieved)), |expected|);
      (CountFound(expected, RetrievedFiles(retrieved)) as real) / (|expected| as real)
  }

  /** Retrieval precision lies in [0, 1]; it is 0 without expected files or retrieved
      chunks, and 1 exactly when both are present and every expected file is the
      path of some retrieved chunk. */
  lemma RetrievalPrecisionSpec(retrieved: seq<Chunk>, expected: seq<string>)
    ensures 0.0 <= RetrievalPrecision(retrieved, expected) <= 1.0
    ensures expected == [] || retrieved == [] ==> RetrievalPrecision(retrieved, expected) == 0.0
    ensures RetrievalPrecision(retrieved, expected) == 1.0 <==>
      expected != [] && retrieved != [] &&
      forall k :: 0 <= k < |expected| ==> exists j :: 0 <= j < |retrieved| && retrieved[j].filePath == expected[k]
  {
    var files := RetrievedFiles(retrieved);
    CountFoundAll(expected, files);
    if expected != [] && retrieved != [] {
      Retriever.Ratio(CountFound(expected, files), |expected|);
      forall k | 0 <= k < |expected| ensures expected[k] in files <==> exists j :: 0 <= j < |retrieved| && retrieved[j].filePath == expected[k] {
      }
    }
  }

  // ---------------------------------------------------------------- citation precision

  /** The chunk contains the line a citation starts at, in the same file. */
  predicate Supports(chunk: Chunk, c: Generator.Citation) {
    chunk.filePath == c.filePath && chunk.startLine <= c.startLine <= chunk.endLine
  }

  /** Some retrieved chunk supports the citation. */
  predicate ValidCitation(c: Generator.Citation, chunks: seq<Chunk>) {
    exists k :: 0 <= k < |chunks| && Supports(chunks[k], c)
  }

  /** How many citations are valid. */
  function ValidCount(citations: seq<Generator.Citation>, chunks: seq<Chunk>): (n: nat)
    ensures n <= |citations|
  {
    if citations == [] then 0
    else ValidCount(citations[..|citations| - 1], chunks) + (if ValidCitation(citations[|citations| - 1], chunks) then 1 else 0)
  }

  /** Citation precision: the share of valid citations, 0 when there are none. */
  function Precision(citations: seq<Generator.Citation>, chunks: seq<Chunk>): (r: real)
    ensures 0.0 <= r <= 1.0
  {
    if citations == [] then 0.0
    else
      Retriever.Ratio(ValidCount(citations, chunks), |citations|);
      (ValidCount(citations, chunks) as real) / (|citations| as real)
  }

  /** `evaluate_citation_precision`: for each citation the chunks are scanned until one
      supports it, so each citation counts at most once. */
  method CitationPrecision(citations: seq<Generator.Citation>, chunks: seq<Chunk>) returns (r: real)
    ensures r == Precision(citations, chunks)
  {
    if citations == [] {
      return 0.0;
    }
    var validCitations := 0;
    for i := 0 to |citations|
      invariant validCitations == ValidCount(citations[..i], chunks)
    {
      assert citations[..i + 1][..i] == citations[..i];
      var citation := citations[i];
      var j := 0;
      while j < |chunks|
        invariant j <= |chunks| && validCitations == ValidCount(citations[..i], chunks)
        invariant forall m :: 0 <= m < j ==> !Supports(chunks[m], citation)
      {
        if Supports(chunks[j], citation) {
          validCitations := validCitations + 1;
          break;
        }
        j := j + 1;
      }
    }
    assert citations[..|citations|] == citations;
    return (validCitations as real) / (|citations| as real);
  }

  /** Citation precision lies in [0, 1], and is 0 without citations. */
  lemma PrecisionBounds(citations: seq<Generator.Citation>, chunks: seq<Chunk>)
    ensures 0.0 <= Precision(citations, chunks) <= 1.0
    ensures citations == [] ==> Precision(citations, chunks) == 0.0
  {
  }

  /** A chunk's line range is not empty (as every chunk of the chunker is). */
  predicate WellFormed(chunks: seq<Chunk>) {
    forall k :: 0 <= k < |chunks| ==> chunks[k].startLine <= chunks[k].endLine
  }

  /** Citations copied from the retrieved chunks are all valid. */
  lemma {:induction false} CopiedCitationsValid(citations: seq<Generator.Citation>, chunks: seq<Chunk>)
    requires WellFormed(chunks)
    requires forall c :: c in citations ==> Generator.CitesChunk(c, chunks)
    ensures ValidCount(citations, chunks) == |citations|
  {
    if citations != [] {
      var init := citations[..|citations| - 1];
      assert forall c :: c in init ==> c in citations;
      CopiedCitationsValid(init, chunks);
      var last := citations[|citations| - 1];
      assert last in citations;
      var k :| 0 <= k < |chunks| && last == Generator.CitationOf(chunks[k]);
      assert Supports(chunks[k], last);
    }
  }

  /** The citations `generate_answer` returns, which `extract_citations` copies from
      the chunks it was given, have precision 1 whenever there is one. */
  lemma GeneratedCitationsPrecise(citations: seq<Generator.Citation>, chunks: seq<Chunk>)
    requires WellFormed(chunks)
    requires forall c :: c in citations ==> Generator.CitesChunk(c, chunks)
    ensures Precision(citations, chunks) == if citations == [] then 0.0 else 1.0
  {
    CopiedCitationsValid(citations, chunks);
    if citations != [] {
      assert Precision(citations, chunks) == (|citations| as real) / (|citations| as real) == 1.0;
    }
  }

  // ---------------------------------------------------------------- faithfulness

  /** `set(text.split())`. */
  function WordSet(text: string): set<string> {
    set w | w in Words(text)
  }

  /** `" ".join(chunk["content"].lower() for chunk in chunks)`. */
  function SourcesText(chunks: seq<Chunk>): string {
    Join(seq(|chunks|, k requires 0 <= k < |chunks| => Lower(chunks[k].content)), " ")
  }

  /** The heuristic branch of `evaluate_faithfulness`: the share of the answer's
      lower-cased words that occur among the sources' words, capped at 1; 0 without
      chunks or without answer words. */
  function Faithfulness(answer: string, chunks: seq<Chunk>): (r: real)
    ensures 0.0 <= r <= 1.0
  {
    if chunks == [] then 0.0
    else
      var answerWords := WordSet(Lower(answer));
      var sourceWords := WordSet(SourcesText(chunks));
      var overlap := |answerWords * sourceWords|;
      var total := |answerWords|;
      if total > 0 then
        Retriever.SubsetCard(answerWords * sourceWords, answerWords);
        Retriever.Ratio(overlap, total);
        var ratio := (overlap as real) / (total as real);
        if ratio < 1.0 then ratio else 1.0
      else 0.0
  }

  /** Faithfulness lies in [0, 1] and the cap never applies: it is the overlap share
      itself. It is 1 exactly when there are answer words and all of them occur in
      the sources. */
  lemma FaithfulnessSpec(answer: string, chunks: seq<Chunk>)
    ensures 0.0 <= Faithfulness(answer, chunks) <= 1.0
    ensures chunks == [] || WordSet(Lower(answer)) == {} ==> Faithfulness(answer, chunks) == 0.0
    ensures chunks != [] ==>
      var a := WordSet(Lower(answer));
      var s := WordSet(SourcesText(chunks));
      (|a| > 0 ==> Faithfulness(answer, chunks) == (|a * s| as real) / (|a| as real)) &&
      (Faithfulness(answer, chunks) == 1.0 <==> |a| > 0 && a <= s)
  {
    var a := WordSet(Lower(answer));
    var s := WordSet(SourcesText(chunks));
    Retriever.SubsetCard(a * s, a);
    if chunks != [] && |a| > 0 {
      Retriever.Ratio(|a * s|, |a|);
      if a <= s {
        assert a * s == a;
      }
      if |a * s| == |a| {
        assert a * s == a;
        assert forall w :: w in a ==> w in a * s;
      }
    }
  }

  // ---------------------------------------------------------------- run_evaluation

  /** A dataset entry: the question and the files expected among the sources
      (`question.get("expected_files", [])`, empty when absent). */
  datatype Question = Question(question: string, expectedFiles: seq<string>)

  /** The per-question record of `evaluate_question`. */
  datatype QuestionResult = QuestionResult(
    question: string,
    answer: string,
    retrievalPrecision: real,
    citationPrecision: real,
    faithfulness: real,
    confidence: Generator.Confidence,
    latencyMs: real,
    numChunksRetrieved: nat,
    numCitations: nat)

  /** `evaluate_question` once the chunks are retrieved and the answer generated. */
  function Evaluated(q: Question, chunks: seq<Chunk>, result: Generator.GeneratedAnswer, latencyMs: real): QuestionResult {
    QuestionResult(q.question, result.answer,
      RetrievalPrecision(chunks, q.expectedFiles),
      Precision(result.citations, chunks),
      Faithfulness(result.answer, chunks),
      result.confidence, latencyMs, |chunks|, |result.citations|)
  }

  /** The report's aggregate metrics. */
  datatype Report = Report(
    numQuestions: nat,
    retrievalPrecisionAtK: real,
    citationPrecision: real,
    faithfulnessScore: real,
    avgLatencyMs: real,
    results: seq<QuestionResult>)

  /** Retrieval of the top 8 chunks for a question. */
  type Retrieve = string -> seq<Chunk>
  /** `generate_answer` for a question and its chunks. */
  type Generate = (string, seq<Chunk>) -> Generator.GeneratedAnswer

  /** The result of question `i` of the dataset. */
  function ResultAt(questions: seq<Question>, i: nat, retrieve: Retrieve, generate: Generate, latency: nat -> real): QuestionResult
    requires i < |questions|
  {
    var q := questions[i];
    var chunks := retrieve(q.question);
    Evaluated(q, chunks, generate(q.question, chunks), latency(i))
  }

  function Sum(xs: seq<real>): real {
    if xs == [] then 0.0 else Sum(xs[..|xs| - 1]) + xs[|xs| - 1]
  }

  /** `sum(xs) / len(xs)`. */
  function Mean(xs: seq<real>): real
    requires xs != []
  {
    Sum(xs) / (|xs| as real)
  }

  /** A sum of values in [lo, hi] lies in [n·lo, n·hi]. */
  lemma {:induction false} SumBounds(xs: seq<real>, lo: real, hi: real)
    requires forall k :: 0 <= k < |xs| ==> lo <= xs[k] <= hi
    ensures (|xs| as real) * lo <= Sum(xs) <= (|xs| as real) * hi
  {
    if xs != [] {
      SumBounds(xs[..|xs| - 1], lo, hi);
    }
  }

  /** An average of values in [lo, hi] lies in [lo, hi]. */
  lemma MeanBounds(xs: seq<real>, lo: real, hi: real)
    requires xs != []
    requires forall k :: 0 <= k < |xs| ==> lo <= xs[k] <= hi
    ensures lo <= Mean(xs) <= hi
  {
    SumBounds(xs, lo, hi);
    DivBounds(Sum(xs), |xs| as real, lo, hi);
  }

  /** Dividing bounds `n·lo <= s <= n·hi` by a positive `n`. */
  lemma DivBounds(s: real, n: real, lo: real, hi: real)
    requires n > 0.0 && n * lo <= s <= n * hi
    ensures lo <= s / n <= hi
  {
    var m := s / n;
    assert s == m * n;
    assert (hi - m) * n >= 0.0 && (m - lo) * n >= 0.0;
  }

  /** One metric of every result, in order. */
  function RetrievalColumn(rs: seq<QuestionResult>): seq<real> {
    seq(|rs|, k requires 0 <= k < |rs| => rs[k].retrievalPrecision)
  }
  function CitationColumn(rs: seq<QuestionResult>): seq<real> {
    seq(|rs|, k requires 0 <= k < |rs| => rs[k].citationPrecision)
  }
  function FaithfulnessColumn(rs: seq<QuestionResult>): seq<real> {
    seq(|rs|, k requires 0 <= k < |rs| => rs[k].faithfulness)
  }
  function LatencyColumn(rs: seq<QuestionResult>): seq<real> {
    seq(|rs|, k requires 0 <= k < |rs| => rs[k].latencyMs)
  }

  /** `run_evaluation`: one result per question, in dataset order, then the averages;
      an empty dataset divides by zero. */
  method RunEvaluation(questions: seq<Question>, retrieve: Retrieve, generate: Generate, latency: nat -> real)
    returns (r: Result<Report>)
    ensures questions == [] ==> r == Err("division by zero")
    ensures questions != [] ==> (r.Ok? &&
      var rs := r.value.results;
      |rs| == |questions| &&
      (forall i :: 0 <= i < |rs| ==> rs[i] == ResultAt(questions, i, retrieve, generate, latency)) &&
      r.value == Report(|questions|, Mean(RetrievalColumn(rs)), Mean(CitationColumn(rs)),
                        Mean(FaithfulnessColumn(rs)), Mean(LatencyColumn(rs)), rs))
  {
    var results: seq<QuestionResult> := [];
    for i := 0 to |questions|
      invariant |results| == i
      invariant forall k :: 0 <= k < i ==> results[k] == ResultAt(questions, k, retrieve, generate, latency)
    {
      var q := questions[i];
      var chunks := retrieve(q.question);
      var result := generate(q.question, chunks);
      var citationPrecision := CitationPrecision(result.citations, chunks);
      var qr := QuestionResult(q.question, result.answer,
        RetrievalPrecision(chunks, q.expectedFiles), citationPrecision,
        Faithfulness(result.answer, chunks), result.confidence, latency(i), |chunks|, |result.citations|);
      results := results + [qr];
    }
    if |results| == 0 {
      return Err("division by zero");
    }
    var report := Report(|questions|, Mean(RetrievalColumn(results)), Mean(CitationColumn(results)),
                         Mean(FaithfulnessColumn(results)), Mean(LatencyColumn(results)), results);
    return Ok(report);
  }

  /** Every aggregate ratio of a report lies in [0, 1]. */
  lemma ReportBounds(questions: seq<Question>, retrieve: Retrieve, generate: Generate, latency: nat -> real, rs: seq<QuestionResult>)
    requires questions != [] && |rs| == |questions|
    requires forall i :: 0 <= i < |rs| ==> rs[i] == ResultAt(questions, i, retrieve, generate, latency)
    ensures 0.0 <= Mean(RetrievalColumn(rs)) <= 1.0
    ensures 0.0 <= Mean(CitationColumn(rs)) <= 1.0
    ensures 0.0 <= Mean(FaithfulnessColumn(rs)) <= 1.0
  {
    forall i | 0 <= i < |rs|
      ensures 0.0 <= rs[i].retrievalPrecision <= 1.0
      ensures 0.0 <= rs[i].citationPrecision <= 1.0
      ensures 0.0 <= rs[i].faithfulness <= 1.0
    {
      var q := questions[i];
      var chunks := retrieve(q.question);
      var result := generate(q.question, chunks);
      RetrievalPrecisionSpec(chunks, q.expectedFiles);
      PrecisionBounds(result.citations, chunks);
      FaithfulnessSpec(result.answer, chunks);
    }
    MeanBounds(RetrievalColumn(rs), 0.0, 1.0);
    MeanBounds(CitationColumn(rs), 0.0, 1.0);
    MeanBounds(FaithfulnessColumn(rs), 0.0, 1.0);
  }
}
