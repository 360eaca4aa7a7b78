/** Answer generation (backend/app/rag/generator.py): the retrieved chunks are shown to
    the language model as numbered sources, `[Source N]` markers in the answer are
    resolved back to those chunks as citations, and a confidence level is derived from
    the answer and its citations. When no model answer is available a local answer is
    assembled from the chunks themselves, citing them by the same markers. */
module Generator {
  import opened Wrappers
  import opened Text
  import opened Models

  /** A citation dictionary: where the cited chunk lives, and a snippet of it. */
  datatype Citation = Citation(filePath: string, startLine: int, endLine: int, snippet: string)

  /** The three confidence levels. */
  datatype Confidence = Low | Medium | High {
    function Value(): string {
      match this
      case Low => "low"
      case Medium => "medium"
      case High => "high"
    }
  }

  const MarkerOpen: string := "[Source "
  const SnippetChars := 200
  const ExcerptChars := 500
  const FallbackMaxChunks := 3

  // ---------------------------------------------------------------- markers

  /** The label of source `i`, as the prompt and the local answer write it. */
  function Label(i: nat): string {
    MarkerOpen + NatToString(i) + "]"
  }

  /** Length of the run of ASCII digits at the start of `s` (the greedy `\d+`). */
  function DigitRun(s: string): (n: nat)
    ensures n <= |s|
    ensures AllDigits(s[..n])
    ensures n < |s| ==> !IsDigit(s[n])
    decreases |s|
  {
    if |s| > 0 && IsDigit(s[0]) then
      var n := 1 + DigitRun(s[1..]);
      assert s[..n] == [s[0]] + s[1..][..n - 1];
      n
    else 0
  }

  /** A match of the pattern `\[Source (\d+)\]` at the very start of a string: the
      number it names and how many characters it spans. */
  datatype Marker = Marker(number: nat, length: nat)

  function MarkerAt(s: string): (r: Option<Marker>)
    ensures r.Some? ==> |MarkerOpen| + 2 <= r.value.length <= |s|
    ensures r.Some? ==> forall p :: 0 < p < r.value.length ==> s[p] != '['
    ensures r.Some? ==>
      var digits := s[|MarkerOpen|..r.value.length - 1];
      s[..r.value.length] == MarkerOpen + digits + "]" && AllDigits(digits) && r.value.number == ParseDigits(digits)
  {
    if |s| < |MarkerOpen| || s[..|MarkerOpen|] != MarkerOpen then None
    else
      var t := s[|MarkerOpen|..];
      var d := DigitRun(t);
      if d == 0 || d == |t| || t[d] != ']' then None
      else
        assert t[..d] == s[|MarkerOpen|..|MarkerOpen| + d];
        MarkerShape(s, d);
        Some(Marker(ParseDigits(t[..d]), |MarkerOpen| + d + 1))
  }

  /** The opening, a run of digits and a closing bracket form a match of the
      pattern's length, with no `[` after its first character. */
  lemma MarkerShape(s: string, d: nat)
    requires |MarkerOpen| + d < |s| && s[..|MarkerOpen|] == MarkerOpen
    requires AllDigits(s[|MarkerOpen|..|MarkerOpen| + d]) && s[|MarkerOpen| + d] == ']'
    ensures s[..|MarkerOpen| + d + 1] == MarkerOpen + s[|MarkerOpen|..|MarkerOpen| + d] + "]"
    ensures forall p :: 0 < p < |MarkerOpen| + d + 1 ==> s[p] != '['
  {
    var ds := s[|MarkerOpen|..|MarkerOpen| + d];
    assert s[..|MarkerOpen| + d + 1] == s[..|MarkerOpen|] + ds + [s[|MarkerOpen| + d]];
    forall p | 0 < p < |MarkerOpen| + d + 1 ensures s[p] != '[' {
      if p < |MarkerOpen| {
        assert s[p] == MarkerOpen[p];
      } else if p < |MarkerOpen| + d {
        assert s[p] == ds[p - |MarkerOpen|];
      }
    }
  }

  /** `re.findall(r"\[Source (\d+)\]", answer)`, each match converted by `int`: the
      numbers of the markers, scanning from left to right. */
  function FindMarkers(s: string): (r: seq<nat>)
    ensures |r| <= |s|
    decreases |s|
  {
    if |s| == 0 then []
    else
      match MarkerAt(s)
      case Some(m) => [m.number] + FindMarkers(s[m.length..])
      case None => FindMarkers(s[1..])
  }

  /** Every number the scan reports is that of a match at some position of the text. */
  lemma {:induction false} FindMarkersOccur(s: string, n: nat) returns (p: nat)
    requires n in FindMarkers(s)
    ensures p < |s| && MarkerAt(s[p..]).Some? && MarkerAt(s[p..]).value.number == n
    decreases |s|
  {
    match MarkerAt(s)
    case Some(m) =>
      if m.number == n {
        p := 0;
        assert s[0..] == s;
      } else {
        var q := FindMarkersOccur(s[m.length..], n);
        p := m.length + q;
        assert s[m.length..][q..] == s[p..];
      }
    case None =>
      var q := FindMarkersOccur(s[1..], n);
      p := 1 + q;
      assert s[1..][q..] == s[p..];
  }

  /** Every number the scan reports stands in the text as "[Source ", a non-empty run
      of digits that reads as that number, and "]". */
  lemma FindMarkersSpec(s: string, n: nat) returns (p: nat, digits: string)
    requires n in FindMarkers(s)
    ensures p + |MarkerOpen| + |digits| + 1 <= |s|
    ensures s[p..p + |MarkerOpen| + |digits| + 1] == MarkerOpen + digits + "]"
    ensures |digits| > 0 && AllDigits(digits) && ParseDigits(digits) == n
  {
    p := FindMarkersOccur(s, n);
    var t := s[p..];
    var len := MarkerAt(t).value.length;
    digits := t[|MarkerOpen|..len - 1];
    assert t[..len] == MarkerOpen + digits + "]" && len == |MarkerOpen| + |digits| + 1;
    SuffixPrefix(s, p, len);
  }

  /** A prefix of a suffix is a slice. */
  lemma SuffixPrefix(s: string, p: nat, len: nat)
    requires p + len <= |s|
    ensures s[p..][..len] == s[p..p + len]
  {
  }

  /** A label followed by anything is matched as exactly that label. */
  lemma LabelMatch(i: nat, y: string)
    ensures MarkerAt(Label(i) + y) == Some(Marker(i, |Label(i)|))
  {
    var s := Label(i) + y;
    var ds := NatToString(i);
    var t := s[|MarkerOpen|..];
    assert s[..|MarkerOpen|] == MarkerOpen;
    assert t == ds + ("]" + y);
    DigitRunOf(ds, "]" + y);
    var d := DigitRun(t);
    assert t[..d] == ds;
    ParseNatToString(i);
  }

  /** The digit run of a digit string followed by a non-digit is that string. */
  lemma {:induction false} DigitRunOf(ds: string, rest: string)
    requires AllDigits(ds)
    requires rest == [] || !IsDigit(rest[0])
    ensures DigitRun(ds + rest) == |ds|
    decreases |ds|
  {
    if |ds| > 0 {
      DigitRunOf(ds[1..], rest);
      assert (ds + rest)[1..] == ds[1..] + rest;
    }
  }

  /** Wherever a label stands in a text, the scan finds its number: an earlier match
      cannot swallow it, because a match holds no `[` after its first character. */
  lemma {:induction false} LabelFound(x: string, i: nat, y: string)
    ensures i in FindMarkers(x + Label(i) + y)
    decreases |x|
  {
    var s := x + Label(i) + y;
    if |x| == 0 {
      assert s == Label(i) + y;
      LabelMatch(i, y);
    } else {
      match MarkerAt(s)
      case Some(m) =>
        assert s[|x|] == '[';
        assert m.length <= |x|;
        assert s[m.length..] == x[m.length..] + Label(i) + y;
        LabelFound(x[m.length..], i, y);
      case None =>
        assert s[1..] == x[1..] + Label(i) + y;
        LabelFound(x[1..], i, y);
    }
  }

  // ---------------------------------------------------------------- citations

  /** Every element is smaller than the next: ascending and without repeats. */
  predicate Ascending(xs: seq<nat>) {
    forall a, b :: 0 <= a < b < |xs| ==> xs[a] < xs[b]
  }

  /** `x` placed into an ascending list, unless it is already there. */
  function Insert(x: nat, xs: seq<nat>): seq<nat>
    decreases |xs|
  {
    if |xs| == 0 then [x]
    else if x < xs[0] then [x] + xs
    else if x == xs[0] then xs
    else [xs[0]] + Insert(x, xs[1..])
  }

  /** `Insert` adds `x` and keeps everything else. */
  lemma {:induction false} InsertMembers(x: nat, xs: seq<nat>)
    ensures forall y :: y in Insert(x, xs) <==> y == x || y in xs
    decreases |xs|
  {
    if |xs| > 0 && x > xs[0] {
      InsertMembers(x, xs[1..]);
      assert Insert(x, xs) == [xs[0]] + Insert(x, xs[1..]);
      assert xs == [xs[0]] + xs[1..];
    }
  }

  /** A lower bound of `x` and of every element of `xs` bounds `Insert(x, xs)`. */
  lemma {:induction false} InsertAbove(x: nat, xs: seq<nat>, m: int)
    requires m < x && forall k :: 0 <= k < |xs| ==> m < xs[k]
    ensures forall k :: 0 <= k < |Insert(x, xs)| ==> m < Insert(x, xs)[k]
    decreases |xs|
  {
    if |xs| > 0 && x > xs[0] {
      InsertAbove(x, xs[1..], m);
      assert Insert(x, xs) == [xs[0]] + Insert(x, xs[1..]);
    }
  }

  lemma {:induction false} InsertSpec(x: nat, xs: seq<nat>)
    requires Ascending(xs)
    ensures Ascending(Insert(x, xs))
    ensures forall y :: y in Insert(x, xs) <==> y == x || y in xs
    decreases |xs|
  {
    InsertMembers(x, xs);
    if |xs| > 0 && x > xs[0] {
      var tail := Insert(x, xs[1..]);
      InsertSpec(x, xs[1..]);
      InsertAbove(x, xs[1..], xs[0]);
      var r := Insert(x, xs);
      assert r == [xs[0]] + tail;
      forall a, b | 0 <= a < b < |r| ensures r[a] < r[b] {
        assert r[b] == tail[b - 1];
        if a > 0 {
          assert r[a] == tail[a - 1];
        }
      }
    }
  }

  /** `sorted(set(ms))`: the distinct numbers of `ms` in ascending order. */
  function SortedUnique(ms: seq<nat>): seq<nat>
    decreases |ms|
  {
    if |ms| == 0 then [] else Insert(ms[0], SortedUnique(ms[1..]))
  }

  lemma {:induction false} SortedUniqueSpec(ms: seq<nat>)
    ensures Ascending(SortedUnique(ms))
    ensures forall n :: n in SortedUnique(ms) <==> n in ms
    decreases |ms|
  {
    if |ms| > 0 {
      SortedUniqueSpec(ms[1..]);
      InsertSpec(ms[0], SortedUnique(ms[1..]));
      assert ms == [ms[0]] + ms[1..];
    }
  }

  /** The numbers among the first `j` of `ns` that name one of `count` sources. */
  function InRange(ns: seq<nat>, j: nat, count: nat): (r: seq<nat>)
    requires j <= |ns|
    ensures forall k :: 0 <= k < |r| ==> 1 <= r[k] <= count
    ensures |r| <= j
  {
    if j == 0 then []
    else
      var n := ns[j - 1];
      if 1 <= n <= count then InRange(ns, j - 1, count) + [n] else InRange(ns, j - 1, count)
  }

  /** The source numbers `extract_citations` resolves, in the order it resolves them. */
  function CitedSources(answer: string, chunks: seq<Chunk>): (r: seq<nat>)
    ensures forall k :: 0 <= k < |r| ==> 1 <= r[k] <= |chunks|
  {
    var sources := SortedUnique(FindMarkers(answer));
    InRange(sources, |sources|, |chunks|)
  }

  /** The first 200 characters of `content`, with "..." appended when that cut
      something off: the snippet starts with the content's first 200 characters,
      gains "..." exactly when the content is longer, and is never longer than 203. */
  function Snippet(content: string): (r: string)
    ensures Take(r, SnippetChars) == Take(content, SnippetChars)
    ensures |content| > SnippetChars <==> r == Take(content, SnippetChars) + "..."
    ensures |r| <= SnippetChars + 3
  {
    if |content| > SnippetChars then content[..SnippetChars] + "..." else content
  }

  /** The citation of a chunk: its location and its snippet. */
  function CitationOf(c: Chunk): Citation {
    Citation(c.filePath, c.startLine, c.endLine, Snippet(c.content))
  }

  /** `extract_citations`: one citation per distinct marker number, ascending, for
      the numbers that name a retrieved chunk; other numbers are dropped. */
  method ExtractCitations(answer: string, chunks: seq<Chunk>) returns (citations: seq<Citation>)
    ensures var cited := CitedSources(answer, chunks);
      |citations| == |cited|
      && forall k :: 0 <= k < |citations| ==> citations[k] == CitationOf(chunks[cited[k] - 1])
  {
    var matches := FindMarkers(answer);
    var uniqueSources := SortedUnique(matches);
    citations := [];
    for j := 0 to |uniqueSources|
      invariant CitesInOrder(citations, InRange(uniqueSources, j, |chunks|), chunks)
    {
      var sourceNum := uniqueSources[j];
      if 1 <= sourceNum <= |chunks| {
        var chunk := chunks[sourceNum - 1];
        CitesInOrderAppend(citations, InRange(uniqueSources, j, |chunks|), chunks, sourceNum);
        citations := citations + [CitationOf(chunk)];
      }
    }
  }

  /** Citation `k` copies the chunk numbered `cited[k]`. */
  predicate CitesInOrder(citations: seq<Citation>, cited: seq<nat>, chunks: seq<Chunk>) {
    |citations| == |cited|
    && forall k :: 0 <= k < |cited| ==> 1 <= cited[k] <= |chunks| && citations[k] == CitationOf(chunks[cited[k] - 1])
  }

  lemma CitesInOrderAppend(citations: seq<Citation>, cited: seq<nat>, chunks: seq<Chunk>, n: nat)
    requires CitesInOrder(citations, cited, chunks) && 1 <= n <= |chunks|
    ensures CitesInOrder(citations + [CitationOf(chunks[n - 1])], cited + [n], chunks)
  {
  }

  /** An ascending list of numbers between 1 and `count` has at most `count` entries. */
  lemma {:induction false} AscendingBounded(xs: seq<nat>, count: nat)
    requires Ascending(xs)
    requires forall k :: 0 <= k < |xs| ==> 1 <= xs[k] <= count
    ensures |xs| <= count
    decreases count
  {
    if |xs| > 0 {
      var init := xs[..|xs| - 1];
      assert forall k :: 0 <= k < |init| ==> init[k] < xs[|xs| - 1];
      AscendingBounded(init, xs[|xs| - 1] - 1);
    }
  }

  lemma {:induction false} InRangeSpec(ns: seq<nat>, j: nat, count: nat)
    requires j <= |ns| && Ascending(ns)
    ensures Ascending(InRange(ns, j, count))
    ensures forall n :: n in InRange(ns, j, count) <==> n in ns[..j] && 1 <= n <= count
  {
    if j > 0 {
      InRangeSpec(ns, j - 1, count);
      assert ns[..j] == ns[..j - 1] + [ns[j - 1]];
      var prev := InRange(ns, j - 1, count);
      forall k | 0 <= k < |prev| ensures prev[k] < ns[j - 1] {
        assert prev[k] in ns[..j - 1];
      }
    }
  }

  /** What `extract_citations` promises: the cited numbers are ascending and
      distinct, they are exactly the marker numbers that name a retrieved chunk, and
      there are no more of them than chunks. */
  lemma CitedSourcesSpec(answer: string, chunks: seq<Chunk>)
    ensures var cited := CitedSources(answer, chunks);
      Ascending(cited)
      && (forall n :: n in cited <==> n in FindMarkers(answer) && 1 <= n <= |chunks|)
      && |cited| <= |chunks|
  {
    var sources := SortedUnique(FindMarkers(answer));
    SortedUniqueSpec(FindMarkers(answer));
    InRangeSpec(sources, |sources|, |chunks|);
    assert sources[..|sources|] == sources;
    AscendingBounded(CitedSources(answer, chunks), |chunks|);
  }

  /** A citation of one of `chunks`. */
  predicate CitesChunk(c: Citation, chunks: seq<Chunk>) {
    exists k :: 0 <= k < |chunks| && c == CitationOf(chunks[k])
  }

  // ---------------------------------------------------------------- confidence

  const UncertaintyPhrases: seq<string> := [
    "i don't have", "not sure", "unclear", "might", "possibly",
    "i cannot find", "no information", "error generating answer"]

  /** Some uncertainty phrase occurs in the lower-cased answer. */
  predicate Uncertain(answer: string) {
    exists k :: 0 <= k < |UncertaintyPhrases| && Contains(Lower(answer), UncertaintyPhrases[k])
  }

  /** `calculate_confidence`; `chunks` is accepted and not consulted, as in the source.
      The rule flattened: "high" needs two citations, a long enough answer and no
      uncertainty phrase; "medium" needs exactly one citation, a long enough answer,
      and either more than 100 words or no uncertainty phrase; everything else is
      "low" -- in particular no citations or fewer than 50 characters. */
  function CalculateConfidence(answer: string, citations: seq<Citation>, chunks: seq<Chunk>): (r: Confidence)
    ensures r == High <==> |citations| >= 2 && |answer| >= 50 && !Uncertain(answer)
    ensures r == Medium <==> |citations| == 1 && |answer| >= 50 && (|Words(answer)| > 100 || !Uncertain(answer))
    ensures |citations| == 0 || |answer| < 50 ==> r == Low
  {
    if |citations| == 0 then Low
    else if |answer| < 50 then Low
    else if |Words(answer)| > 100 && |citations| < 2 then Medium
    else if Uncertain(answer) then Low
    else if |citations| >= 2 then High
    else if |citations| == 1 then Medium
    else Low
  }

  /** A long answer with a single citation is "medium" whatever phrases it holds: the
      word-count rule is checked before the phrase rule. */
  lemma ConfidenceWordRuleFirst(answer: string, citations: seq<Citation>, chunks: seq<Chunk>)
    requires |citations| == 1 && |answer| >= 50 && |Words(answer)| > 100
    ensures CalculateConfidence(answer, citations, chunks) == Medium
  {
  }

  /** `estimate_tokens`: one token per four characters, rounded down. */
  function EstimateTokens(text: string): (r: nat)
    ensures 4 * r <= |text| < 4 * r + 4
  {
    |text| / 4
  }

  // ---------------------------------------------------------------- prompt sources

  /** The block `format_sources_for_prompt` writes for the `i`-th chunk. */
  function SourceBlock(i: nat, c: Chunk): string {
    Label(i) + SourceBody(c)
  }

  /** The part of a source block after its label. */
  function SourceBody(c: Chunk): string {
    "\n"
    + "File: " + c.filePath + "\n"
    + "Lines: " + IntToString(c.startLine) + "-" + IntToString(c.endLine) + "\n"
    + "Language: " + c.language + "\n"
    + "```" + c.language + "\n" + c.content + "\n```\n"
  }

  /** `format_sources_for_prompt`: one block per chunk, numbered from 1, joined by
      newlines. */
  method FormatSourcesForPrompt(chunks: seq<Chunk>) returns (r: string)
    ensures exists blocks: seq<string> ::
      r == Join(blocks, "\n") && |blocks| == |chunks|
      && forall k :: 0 <= k < |blocks| ==> blocks[k] == SourceBlock(k + 1, chunks[k])
  {
    var sources: seq<string> := [];
    for i := 0 to |chunks|
      invariant |sources| == i
      invariant forall k :: 0 <= k < i ==> sources[k] == SourceBlock(k + 1, chunks[k])
    {
      var source := SourceBlock(i + 1, chunks[i]);
      sources := sources + [source];
    }
    r := Join(sources, "\n");
  }

  lemma AppendAssoc(a: string, b: string, c: string)
    ensures (a + b) + c == a + (b + c)
  {
  }

  lemma Regroup(a: string, b: string, c: string, d: string)
    ensures a + (b + c) + d == a + b + (c + d)
  {
  }

  lemma RegroupExcerpt(h: string, a: string, x: string, l: string, y: string, b: string, f: string)
    ensures h + (a + (x + l + y) + b) + f == (h + a + x) + l + (y + b + f)
  {
  }

  /** A label anywhere inside a text is found. */
  lemma LabelInside(r: string, before: string, block: string, i: nat, body: string, after: string)
    requires block == Label(i) + body
    requires r == before + block + after
    ensures i in FindMarkers(r)
  {
    Regroup(before, Label(i), body, after);
    LabelFound(before, i, body + after);
  }

  /** A marker number that names a retrieved chunk is resolved. */
  lemma MarkerCited(answer: string, chunks: seq<Chunk>, i: nat)
    requires i in FindMarkers(answer) && 1 <= i <= |chunks|
    ensures i in CitedSources(answer, chunks)
  {
    CitedSourcesSpec(answer, chunks);
  }

  /** The label of every block of the prompt's source list is found by the scan. */
  lemma PromptLabelFound(blocks: seq<string>, i: nat, body: string)
    requires 1 <= i <= |blocks|
    requires blocks[i - 1] == Label(i) + body
    ensures i in FindMarkers(Join(blocks, "\n"))
  {
    var before, after := JoinHas(blocks, "\n", i - 1);
    LabelInside(Join(blocks, "\n"), before, blocks[i - 1], i, body, after);
  }

  /** Every chunk shown in the prompt can be cited back: the label of source `i`
      resolves to chunk `i` by the same scan `extract_citations` uses. */
  lemma PromptLabelsResolve(r: string, blocks: seq<string>, chunks: seq<Chunk>, i: nat)
    requires r == Join(blocks, "\n") && |blocks| == |chunks|
    requires forall k :: 0 <= k < |blocks| ==> blocks[k] == SourceBlock(k + 1, chunks[k])
    requires 1 <= i <= |chunks|
    ensures i in CitedSources(r, chunks)
  {
    BlockCited(r, blocks, chunks, i, blocks[i - 1]);
  }

  /** The label of source block `i` of the prompt is cited back. */
  lemma BlockCited(r: string, blocks: seq<string>, chunks: seq<Chunk>, i: nat, block: string)
    requires r == Join(blocks, "\n") && 1 <= i <= |blocks| == |chunks|
    requires block == blocks[i - 1] == SourceBlock(i, chunks[i - 1])
    ensures i in CitedSources(r, chunks)
  {
    PromptLabelFound(blocks, i, SourceBody(chunks[i - 1]));
    MarkerCited(r, chunks, i);
  }

  // ---------------------------------------------------------------- local answer

  const NoResultsText: string :=
    "I couldn't find any relevant code in the repository for your question.\n\n"
    + "*Tip: try asking with a filename, function name, or keyword.*"

  const FallbackHeader: string :=
    "\U{26A0}\U{FE0F} **LLM generation is disabled or unavailable**"
    + " (no valid OpenAI key / OpenAI turned off).\n"
    + "Showing the most relevant retrieved excerpts instead:\n\n"

  const FallbackFooter: string :=
    "*Note: To get richer explanations, provide a valid OpenAI key and set model=openai.*"

  /** The excerpt the local answer shows for the `i`-th chunk. */
  function Excerpt(i: nat, c: Chunk): string {
    ExcerptHead(c) + Label(i) + ExcerptTail(c)
  }

  /** The heading line of an excerpt, up to its label. */
  function ExcerptHead(c: Chunk): string {
    "### `" + c.filePath + "` (lines " + IntToString(c.startLine) + "-" + IntToString(c.endLine) + ") "
  }

  /** The first 500 characters of the chunk, fenced, after the label. */
  function ExcerptTail(c: Chunk): string {
    "\n" + "```" + c.language + "\n" + Take(c.content, ExcerptChars) + "\n```\n\n"
  }

  /** The excerpts of the first `n` chunks. */
  function Excerpts(chunks: seq<Chunk>, n: nat): (r: seq<string>)
    requires n <= |chunks|
    ensures |r| == n
    ensures forall k :: 0 <= k < n ==> r[k] == Excerpt(k + 1, chunks[k])
  {
    seq(n, k requires 0 <= k < n => Excerpt(k + 1, chunks[k]))
  }

  lemma ExcerptsAppend(chunks: seq<Chunk>, n: nat)
    requires n < |chunks|
    ensures Concat(Excerpts(chunks, n + 1)) == Concat(Excerpts(chunks, n)) + Excerpt(n + 1, chunks[n])
  {
    assert Excerpts(chunks, n + 1) == Excerpts(chunks, n) + [Excerpt(n + 1, chunks[n])];
    ConcatAppend(Excerpts(chunks, n), Excerpt(n + 1, chunks[n]));
  }

  /** The answer `build_local_fallback_answer` returns: the no-results text exactly
      when nothing was retrieved, and otherwise a text that opens with the header and
      closes with the footer. */
  function FallbackAnswer(chunks: seq<Chunk>, maxChunks: int): (r: string)
    ensures r == NoResultsText <==> chunks == []
    ensures chunks != [] ==>
      |FallbackHeader| + |FallbackFooter| <= |r| &&
      r[..|FallbackHeader|] == FallbackHeader && r[|r| - |FallbackFooter|..] == FallbackFooter
  {
    if |chunks| == 0 then NoResultsText
    else
      var body := Concat(Excerpts(chunks, SliceEnd(maxChunks, |chunks|)));
      var r := FallbackHeader + body + FallbackFooter;
      assert |NoResultsText| < |FallbackHeader| <= |r|;
      assert r[|FallbackHeader| + |body|..] == FallbackFooter;
      r
  }

  /** `build_local_fallback_answer`: a fixed text when nothing was retrieved;
      otherwise a header, one excerpt per shown chunk labelled `[Source i]`, and a
      footer. */
  method BuildLocalFallbackAnswer(chunks: seq<Chunk>, maxChunks: int) returns (answer: string)
    ensures answer == FallbackAnswer(chunks, maxChunks)
  {
    if |chunks| == 0 {
      return NoResultsText;
    }
    var shown := SliceEnd(maxChunks, |chunks|);
    answer := FallbackHeader;
    ghost var body: string := [];
    for i := 0 to shown
      invariant body == Concat(Excerpts(chunks, i))
      invariant answer == FallbackHeader + body
    {
      var excerpt := Excerpt(i + 1, chunks[i]);
      ExcerptsAppend(chunks, i);
      AppendAssoc(FallbackHeader, body, excerpt);
      body := body + excerpt;
      answer := answer + excerpt;
    }
    FallbackAnswerParts(chunks, maxChunks, body);
    answer := answer + FallbackFooter;
  }

  /** The local answer for retrieved chunks is the header, the excerpts and the footer. */
  lemma FallbackAnswerParts(chunks: seq<Chunk>, maxChunks: int, body: string)
    requires |chunks| > 0 && body == Concat(Excerpts(chunks, SliceEnd(maxChunks, |chunks|)))
    ensures FallbackAnswer(chunks, maxChunks) == FallbackHeader + body + FallbackFooter
  {
  }

  /** The local answer cites every chunk it shows, so `extract_citations` resolves
      each of them. */
  lemma FallbackCitesShown(chunks: seq<Chunk>, maxChunks: int, i: nat)
    requires 1 <= i <= SliceEnd(maxChunks, |chunks|)
    ensures i in CitedSources(FallbackAnswer(chunks, maxChunks), chunks)
  {
    var excerpts := Excerpts(chunks, SliceEnd(maxChunks, |chunks|));
    var before, after := ConcatHas(excerpts, i - 1);
    var head, tail := ExcerptHead(chunks[i - 1]), ExcerptTail(chunks[i - 1]);
    var r := FallbackAnswer(chunks, maxChunks);
    assert excerpts[i - 1] == head + Label(i) + tail;
    assert r == FallbackHeader + (before + excerpts[i - 1] + after) + FallbackFooter;
    RegroupExcerpt(FallbackHeader, before, head, Label(i), tail, after, FallbackFooter);
    LabelFound(FallbackHeader + before + head, i, tail + after + FallbackFooter);
    MarkerCited(r, chunks, i);
  }

  // ---------------------------------------------------------------- generate_answer

  /** What the language model returned: the message text (empty when absent) and the
      total token count it reported, if any. */
  datatype ModelReply = ModelReply(text: string, totalTokens: Option<nat>)

  /** The response of `generate_answer`; the cost estimate is left out. */
  datatype GeneratedAnswer = GeneratedAnswer(
    answer: string, citations: seq<Citation>, confidence: Confidence, tokensEstimate: nat)

  /** The part of `generate_answer` after the model call. `reply` is `None` when the
      model is not used (no key, or another model asked for) or its call raised; the
      local answer over the first three chunks is used instead. Citations are
      resolved against the retrieved chunks whatever produced the answer. */
  method GenerateAnswer(prompt: string, chunks: seq<Chunk>, reply: Option<ModelReply>)
    returns (r: GeneratedAnswer)
    ensures r.answer == if reply.Some? then reply.value.text else FallbackAnswer(chunks, FallbackMaxChunks)
    ensures CitesInOrder(r.citations, CitedSources(r.answer, chunks), chunks)
    ensures forall c :: c in r.citations ==> CitesChunk(c, chunks)
    ensures |r.citations| <= |chunks|
    ensures reply.None? && |chunks| > 0 ==> |r.citations| > 0
    ensures r.confidence == CalculateConfidence(r.answer, r.citations, chunks)
    ensures r.tokensEstimate
        == if reply.Some? && reply.value.totalTokens.Some? then reply.value.totalTokens.value else EstimateTokens(prompt)
  {
    var tokensEstimate := EstimateTokens(prompt);
    var answer: string;
    if reply.Some? {
      answer := reply.value.text;
      if reply.value.totalTokens.Some? {
        tokensEstimate := reply.value.totalTokens.value;
      }
    } else {
      answer := BuildLocalFallbackAnswer(chunks, FallbackMaxChunks);
    }
    var citations := ExtractCitations(answer, chunks);
    CitedSourcesSpec(answer, chunks);
    assert CitesInOrder(citations, CitedSources(answer, chunks), chunks);
    forall c | c in citations ensures CitesChunk(c, chunks) {
      var k :| 0 <= k < |citations| && citations[k] == c;
      assert 1 <= CitedSources(answer, chunks)[k] <= |chunks|;
    }
    if reply.None? && |chunks| > 0 {
      FallbackCitesShown(chunks, FallbackMaxChunks, 1);
    }
    var confidence := CalculateConfidence(answer, citations, chunks);
    r := GeneratedAnswer(answer, citations, confidence, tokensEstimate);
  }
}
