/** File filtering, language detection and the line-window chunker of
    backend/app/ingestion/parser.py, and the per-file loop of `parse_repository`
    over file records that stand for what `rglob`, `stat` and `read_text` returned. */
module Parser {
  import opened Wrappers
  import opened Text
  import opened Models

  /** `CODE_EXTENSIONS`: the suffixes of files worth indexing. */
  const CodeExtensions: set<string> := {
    ".py", ".js", ".ts", ".jsx", ".tsx", ".java", ".go", ".rb", ".rs",
    ".c", ".cpp", ".h", ".hpp", ".cs", ".php", ".swift", ".kt",
    ".scala", ".sh", ".bash", ".yaml", ".yml", ".json", ".xml",
    ".md", ".rst", ".txt", ".toml", ".ini", ".cfg"
  }

  /** `EXCLUDE_DIRS`: path components that exclude a file. */
  const ExcludeDirs: set<string> := {
    "node_modules", "dist", "build", ".git", ".next", "venv", "env",
    "__pycache__", ".pytest_cache", ".mypy_cache", "target", "bin",
    ".idea", ".vscode", "coverage", "htmlcov"
  }

  /** `LANGUAGE_MAP`: suffix to language tag. */
  const LanguageMap: map<string, string> := map[
    ".py" := "python", ".js" := "javascript", ".ts" := "typescript",
    ".jsx" := "javascript", ".tsx" := "typescript", ".java" := "java",
    ".go" := "go", ".rb" := "ruby", ".rs" := "rust", ".c" := "c",
    ".cpp" := "cpp", ".h" := "c", ".hpp" := "cpp", ".cs" := "csharp",
    ".php" := "php", ".swift" := "swift", ".kt" := "kotlin",
    ".scala" := "scala", ".sh" := "bash", ".bash" := "bash",
    ".yaml" := "yaml", ".yml" := "yaml", ".json" := "json", ".xml" := "xml",
    ".md" := "markdown", ".rst" := "restructuredtext"
  ]

  /** The tag used for every suffix the map does not know. */
  const DefaultLanguage := "text"

  /** Files above this many bytes are refused by `should_process_file`. */
  const MaxProcessBytes: nat := 1_000_000
  /** Files above this many bytes are skipped inside `parse_repository`. */
  const MaxParseBytes: nat := 2_000_000

  /** A path given by its components, as pathlib's `parts`. */
  type FilePath = seq<string>

  /** pathlib's `name`: the last component, or "" for the empty path. */
  function Name(path: FilePath): string {
    if |path| == 0 then "" else path[|path| - 1]
  }

  /** `name.rfind('.')`. */
  function LastDot(name: string): (i: int)
    ensures -1 <= i < |name|
    ensures 0 <= i ==> name[i] == '.'
    ensures forall j :: i < j < |name| ==> name[j] != '.'
    decreases |name|
  {
    if |name| == 0 then -1
    else if name[|name| - 1] == '.' then |name| - 1
    else LastDot(name[..|name| - 1])
  }

  /** pathlib's `suffix`: from the last dot of the name, unless that dot is the
      first or the last character (so ".bashrc" and "notes." have none). */
  function Suffix(name: string): (r: string)
    ensures r == [] || (2 <= |r| < |name| && r[0] == '.' && r == name[|name| - |r|..])
    ensures forall j :: 0 < j < |r| ==> r[j] != '.'
  {
    var i := LastDot(name);
    if 0 < i < |name| - 1 then name[i..] else ""
  }

  /** `detect_language`: the mapped tag of the suffix, "text" for any other suffix. */
  function DetectLanguage(path: FilePath): (r: string)
    ensures Suffix(Name(path)) in LanguageMap ==> r == LanguageMap[Suffix(Name(path))]
    ensures r == DefaultLanguage <==> Suffix(Name(path)) !in LanguageMap
  {
    var suffix := Suffix(Name(path));
    if suffix in LanguageMap then LanguageMap[suffix] else DefaultLanguage
  }

  /** The last dot is found wherever it is. */
  lemma {:induction false} LastDotAt(name: string, i: nat)
    requires i < |name| && name[i] == '.'
    requires forall j :: i < j < |name| ==> name[j] != '.'
    ensures LastDot(name) == i
    decreases |name|
  {
    if i < |name| - 1 {
      LastDotAt(name[..|name| - 1], i);
    }
  }

  /** A name made of a stem and a one-dot extension has that extension as suffix. */
  lemma SuffixOf(stem: string, ext: string)
    requires |stem| > 0 && |ext| >= 2 && ext[0] == '.'
    requires forall j :: 0 < j < |ext| ==> ext[j] != '.'
    ensures Suffix(stem + ext) == ext
  {
    var name := stem + ext;
    LastDotAt(name, |stem|);
    assert name[|stem|..] == ext;
  }

  /** A file named by a stem and a one-dot extension is tagged by that extension. */
  lemma DetectLanguageOf(stem: string, ext: string)
    requires |stem| > 0 && |ext| >= 2 && ext[0] == '.'
    requires forall j :: 0 < j < |ext| ==> ext[j] != '.'
    ensures DetectLanguage([stem + ext]) == if ext in LanguageMap then LanguageMap[ext] else DefaultLanguage
  {
    SuffixOf(stem, ext);
  }

  /** A case of the language-detection test: a mapped suffix. */
  lemma DetectJava()
    ensures DetectLanguage(["test.java"]) == "java"
  {
    DetectLanguageOf("test", ".java");
    assert "test" + ".java" == "test.java";
  }

  /** A case of the language-detection test: a suffix the map does not know. */
  lemma DetectUnknown()
    ensures DetectLanguage(["test.unknown"]) == DefaultLanguage
  {
    var name := "test.unknown";
    LastDotAt(name, 4);
    assert Suffix(name) == name[4..] == ".unknown";
    UnknownUnmapped();
  }

  /** ".unknown" is longer than every suffix of the language map. */
  lemma UnknownUnmapped()
    ensures ".unknown" !in LanguageMap
  {
    assert |".unknown"| == 8;
  }

  /** Names whose only dot is first or last have no suffix, hence no language. */
  lemma NoSuffixExamples()
    ensures Suffix(".bashrc") == "" && Suffix("notes.") == ""
  {
    LastDotAt(".bashrc", 0);
    LastDotAt("notes.", 5);
  }

  /** The `for part in file_path.parts` loop, which returns as soon as a component is
      an excluded directory name: it rejects the path exactly when some component is
      one. */
  predicate InExcludedDir(path: FilePath): (r: bool)
    ensures r <==> exists k :: 0 <= k < |path| && path[k] in ExcludeDirs
    decreases |path|
  {
    if |path| == 0 then false
    else
      assert forall k :: 1 <= k < |path| ==> path[k] == path[1..][k - 1];
      path[0] in ExcludeDirs || InExcludedDir(path[1..])
  }

  /** `should_process_file`; `size` is what `stat()` reports, `None` when it raises. */
  function ShouldProcessFile(path: FilePath, size: Option<nat>): (r: bool)
    ensures r <==> Suffix(Name(path)) in CodeExtensions
                   && (forall k :: 0 <= k < |path| ==> path[k] !in ExcludeDirs)
                   && size.Some? && size.value <= MaxProcessBytes
  {
    if Suffix(Name(path)) !in CodeExtensions then false
    else if InExcludedDir(path) then false
    else
      match size
      case None => false
      case Some(n) => n <= MaxProcessBytes
  }

  // ---------------------------------------------------------------- chunking

  /** Lines per window, lines shared by consecutive windows, and the advance between them. */
  const ChunkSizeLines: nat := 50
  const OverlapLines: nat := 5
  const Step: nat := 45
  /** Windows whose stripped text is shorter than this are dropped. */
  const MinChunkChars: nat := 10

  /** `min(i + chunk_size_lines, len(lines))`: the exclusive end of the window at `i`. */
  function WindowEnd(i: nat, n: nat): nat {
    if i + ChunkSizeLines < n then i + ChunkSizeLines else n
  }

  /** The window's lines joined by newlines. */
  function WindowText(lines: seq<string>, i: nat): string
    requires i < |lines|
  {
    Join(lines[i..WindowEnd(i, |lines|)], "\n")
  }

  /** A window is kept unless its stripped text is shorter than `MinChunkChars`. */
  predicate KeptWindow(lines: seq<string>, i: nat)
    requires i < |lines|
  {
    |Strip(WindowText(lines, i))| >= MinChunkChars
  }

  /** The chunk record built for the window starting at 0-based line `i`. */
  function WindowChunk(lines: seq<string>, i: nat, filePath: string, language: string, id: ChunkId): Chunk
    requires i < |lines|
  {
    Chunk(id, filePath, language, i + 1, WindowEnd(i, |lines|), WindowText(lines, i), None)
  }

  /** The chunks `chunk_content` emits from window `i` on, ids drawn from `id` on. */
  function ChunksFrom(lines: seq<string>, i: nat, filePath: string, language: string, id: ChunkId): seq<Chunk>
    decreases |lines| - i
  {
    if i >= |lines| then []
    else if KeptWindow(lines, i) then
      [WindowChunk(lines, i, filePath, language, id)] + ChunksFrom(lines, i + Step, filePath, language, id + 1)
    else ChunksFrom(lines, i + Step, filePath, language, id)
  }

  /** A chunk that is exactly a kept window of `lines`. */
  predicate IsWindowChunk(c: Chunk, lines: seq<string>, filePath: string, language: string) {
    1 <= c.startLine <= |lines|
    && c == WindowChunk(lines, c.startLine - 1, filePath, language, c.chunkId)
    && KeptWindow(lines, c.startLine - 1)
  }

  /** What a window chunk says about its line range and its text. */
  lemma WindowChunkRange(c: Chunk, lines: seq<string>, filePath: string, language: string)
    requires IsWindowChunk(c, lines, filePath, language)
    ensures 1 <= c.startLine <= c.endLine <= |lines|
    ensures c.endLine - c.startLine + 1 <= ChunkSizeLines
    ensures c.content == Join(lines[c.startLine - 1..c.endLine], "\n")
    ensures |Strip(c.content)| >= MinChunkChars
  {
  }

  /** The 0-based starts the chunking loop visits from `i`: `i`, `i + 45`, ... below `n`. */
  function WindowStarts(i: nat, n: nat): (r: seq<nat>)
    ensures forall s :: s in r ==> i <= s < n
    decreases n - i
  {
    if i >= n then [] else [i] + WindowStarts(i + Step, n)
  }

  /** The visited starts are exactly the positions `i + 45m` below `n`. */
  lemma {:induction false} WindowStartsMember(i: nat, n: nat, s: nat)
    ensures s in WindowStarts(i, n) <==> i <= s < n && (s - i) % Step == 0
    decreases n - i
  {
    if i < n {
      WindowStartsMember(i + Step, n, s);
      assert WindowStarts(i, n) == [i] + WindowStarts(i + Step, n);
      if i < s && (s - i) % Step == 0 {
        assert i + Step <= s && (s - (i + Step)) % Step == 0;
      }
    }
  }

  /** Line `j` lies in the window of one of `starts`. */
  predicate Covered(starts: seq<nat>, j: nat, n: nat) {
    exists k :: 0 <= k < |starts| && starts[k] <= j < WindowEnd(starts[k], n)
  }

  /** The loop visits ceil((n - i) / 45) windows. */
  lemma {:induction false} WindowStartsCount(i: nat, n: nat)
    ensures |WindowStarts(i, n)| == if i >= n then 0 else (n - i + Step - 1) / Step
    decreases n - i
  {
    if i < n {
      WindowStartsCount(i + Step, n);
    }
  }

  /** Together the visited windows cover every line from `i` to `n`. */
  lemma {:induction false} WindowStartsCovers(i: nat, n: nat, j: nat)
    requires i <= j < n
    ensures Covered(WindowStarts(i, n), j, n)
    decreases n - i
  {
    var w := WindowStarts(i, n);
    assert w == [i] + WindowStarts(i + Step, n);
    if j < i + Step {
      assert w[0] <= j < WindowEnd(w[0], n);
    } else {
      var rest := WindowStarts(i + Step, n);
      WindowStartsCovers(i + Step, n, j);
      var k :| 0 <= k < |rest| && rest[k] <= j < WindowEnd(rest[k], n);
      assert w[k + 1] == rest[k];
    }
  }

  /** Consecutive windows start 45 lines apart and overlap, by exactly five lines
      when the first is full. */
  lemma {:induction false} WindowStartsOverlap(i: nat, n: nat, k: nat)
    requires k + 1 < |WindowStarts(i, n)|
    ensures var w := WindowStarts(i, n);
      w[k + 1] == w[k] + Step && w[k + 1] < WindowEnd(w[k], n)
      && (w[k] + ChunkSizeLines <= n ==> WindowEnd(w[k], n) - w[k + 1] == OverlapLines)
    decreases n - i
  {
    var w := WindowStarts(i, n);
    var rest := WindowStarts(i + Step, n);
    assert w == [i] + rest;
    if k == 0 {
      assert w[1] == rest[0];
    } else {
      WindowStartsOverlap(i + Step, n, k - 1);
      assert w[k] == rest[k - 1] && w[k + 1] == rest[k];
    }
  }

  /** Every chunk of `r` is a kept window visited from `i` on. */
  predicate WindowChunks(r: seq<Chunk>, lines: seq<string>, i: nat, filePath: string, language: string) {
    forall k :: 0 <= k < |r| ==>
      IsWindowChunk(r[k], lines, filePath, language) && r[k].startLine - 1 in WindowStarts(i, |lines|)
  }

  /** The k-th chunk from window `i` on is a kept window visited by the loop. */
  lemma {:induction false} ChunksFromWindow(lines: seq<string>, i: nat, filePath: string, language: string, id: ChunkId, k: nat)
    requires k < |ChunksFrom(lines, i, filePath, language, id)|
    ensures var c := ChunksFrom(lines, i, filePath, language, id)[k];
      IsWindowChunk(c, lines, filePath, language) && c.startLine - 1 in WindowStarts(i, |lines|)
    decreases |lines| - i
  {
    var kept := KeptWindow(lines, i);
    var nextId := if kept then id + 1 else id;
    var r := ChunksFrom(lines, i, filePath, language, id);
    var rest := ChunksFrom(lines, i + Step, filePath, language, nextId);
    var later := WindowStarts(i + Step, |lines|);
    assert WindowStarts(i, |lines|) == [i] + later;
    if kept && k == 0 {
      assert r[0] == WindowChunk(lines, i, filePath, language, id);
      assert r[0].startLine - 1 == i;
    } else {
      var j := if kept then k - 1 else k;
      if kept {
        assert r == [WindowChunk(lines, i, filePath, language, id)] + rest;
      } else {
        assert r == rest;
      }
      assert r[k] == rest[j];
      ChunksFromWindow(lines, i + Step, filePath, language, nextId, j);
      assert r[k].startLine - 1 in later;
    }
  }

  /** Every chunk from window `i` on is a kept window visited by the loop. */
  lemma ChunksFromWindows(lines: seq<string>, i: nat, filePath: string, language: string, id: ChunkId)
    ensures WindowChunks(ChunksFrom(lines, i, filePath, language, id), lines, i, filePath, language)
  {
    var r := ChunksFrom(lines, i, filePath, language, id);
    forall k | 0 <= k < |r|
      ensures IsWindowChunk(r[k], lines, filePath, language) && r[k].startLine - 1 in WindowStarts(i, |lines|)
    {
      ChunksFromWindow(lines, i, filePath, language, id, k);
    }
  }

  /** The k-th chunk of `r` carries id `id + k`. */
  predicate ConsecutiveIds(r: seq<Chunk>, id: ChunkId) {
    forall k :: 0 <= k < |r| ==> r[k].chunkId == id + k
  }

  lemma ConsecutiveIdsAppend(a: seq<Chunk>, b: seq<Chunk>, id: ChunkId)
    requires ConsecutiveIds(a, id) && ConsecutiveIds(b, id + |a|)
    ensures ConsecutiveIds(a + b, id)
  {
    forall k | 0 <= k < |a + b| ensures (a + b)[k].chunkId == id + k {
      if k >= |a| {
        assert (a + b)[k] == b[k - |a|];
      }
    }
  }

  /** Chunks from window `i` on take ids `id`, `id + 1`, ... in turn. */
  lemma {:induction false} ChunksFromIds(lines: seq<string>, i: nat, filePath: string, language: string, id: ChunkId)
    ensures ConsecutiveIds(ChunksFrom(lines, i, filePath, language, id), id)
    decreases |lines| - i
  {
    if i < |lines| {
      if KeptWindow(lines, i) {
        ChunksFromIds(lines, i + Step, filePath, language, id + 1);
        ConsecutiveIdsAppend([WindowChunk(lines, i, filePath, language, id)], ChunksFrom(lines, i + Step, filePath, language, id + 1), id);
      } else {
        ChunksFromIds(lines, i + Step, filePath, language, id);
      }
    }
  }

  /** Chunk start lines strictly increase, all beyond `i`. */
  predicate OrderedFrom(r: seq<Chunk>, i: nat) {
    (forall k :: 0 <= k < |r| ==> i < r[k].startLine)
    && (forall a, b :: 0 <= a < b < |r| ==> r[a].startLine < r[b].startLine)
  }

  lemma {:induction false} ChunksFromOrdered(lines: seq<string>, i: nat, filePath: string, language: string, id: ChunkId)
    ensures OrderedFrom(ChunksFrom(lines, i, filePath, language, id), i)
    decreases |lines| - i
  {
    if i < |lines| {
      var kept := KeptWindow(lines, i);
      var nextId := if kept then id + 1 else id;
      ChunksFromOrdered(lines, i + Step, filePath, language, nextId);
      var r := ChunksFrom(lines, i, filePath, language, id);
      var rest := ChunksFrom(lines, i + Step, filePath, language, nextId);
      if kept {
        var c := WindowChunk(lines, i, filePath, language, id);
        assert r == [c] + rest;
        forall k | 0 <= k < |r| ensures i < r[k].startLine {
          if k > 0 {
            assert r[k] == rest[k - 1];
          }
        }
        forall a, b | 0 <= a < b < |r| ensures r[a].startLine < r[b].startLine {
          assert r[b] == rest[b - 1];
          if a > 0 {
            assert r[a] == rest[a - 1];
          }
        }
      } else {
        assert r == rest;
      }
    }
  }

  /** Some chunk of `r` starts at 0-based line `s`. */
  predicate HasChunkAt(r: seq<Chunk>, s: nat) {
    exists k :: 0 <= k < |r| && r[k].startLine == s + 1
  }

  /** Every kept window the loop visits yields a chunk: only windows whose stripped
      text is too short are dropped. */
  lemma {:induction false} ChunksFromComplete(lines: seq<string>, i: nat, filePath: string, language: string, id: ChunkId, s: nat)
    requires s in WindowStarts(i, |lines|) && KeptWindow(lines, s)
    ensures HasChunkAt(ChunksFrom(lines, i, filePath, language, id), s)
    decreases |lines| - i
  {
    var kept := KeptWindow(lines, i);
    var nextId := if kept then id + 1 else id;
    var r := ChunksFrom(lines, i, filePath, language, id);
    var rest := ChunksFrom(lines, i + Step, filePath, language, nextId);
    assert WindowStarts(i, |lines|) == [i] + WindowStarts(i + Step, |lines|);
    if kept {
      assert r == [WindowChunk(lines, i, filePath, language, id)] + rest;
    } else {
      assert r == rest;
    }
    if s == i {
      assert r[0] == WindowChunk(lines, i, filePath, language, id);
      assert r[0].startLine == s + 1;
      assert HasChunkAt(r, s);
    } else {
      assert s in WindowStarts(i + Step, |lines|);
      ChunksFromComplete(lines, i + Step, filePath, language, nextId, s);
      var k :| 0 <= k < |rest| && rest[k].startLine == s + 1;
      if kept {
        assert r[k + 1] == rest[k];
        assert HasChunkAt(r, s);
      } else {
        assert r[k] == rest[k];
      }
    }
  }

  /** At most one chunk per visited window. */
  lemma {:induction false} ChunksFromCount(lines: seq<string>, i: nat, filePath: string, language: string, id: ChunkId)
    ensures |ChunksFrom(lines, i, filePath, language, id)| <= |WindowStarts(i, |lines|)|
    decreases |lines| - i
  {
    if i < |lines| {
      ChunksFromCount(lines, i + Step, filePath, language, if KeptWindow(lines, i) then id + 1 else id);
    }
  }

  /** What `chunk_content` promises about the chunks of a whole file: no text gives no
      chunks; each chunk is a kept window of at most 50 lines whose text is exactly its
      lines joined by newlines; start lines are 1, 46, 91, ...; ids are consecutive
      from `id`; there are at most ceil(lines / 45) chunks. */
  lemma ChunksOfFile(content: string, filePath: string, language: string, id: ChunkId)
    ensures var lines := SplitLines(content);
      var r := ChunksFrom(lines, 0, filePath, language, id);
      (content == [] ==> r == [])
      && (forall k :: 0 <= k < |r| ==>
            IsWindowChunk(r[k], lines, filePath, language) && r[k].chunkId == id + k
            && (r[k].startLine - 1) % Step == 0)
      && |r| <= (|lines| + Step - 1) / Step
  {
    var lines := SplitLines(content);
    var r := ChunksFrom(lines, 0, filePath, language, id);
    SplitLinesSpec(content);
    ChunksFromIds(lines, 0, filePath, language, id);
    assert ConsecutiveIds(r, id);
    ChunksFromCount(lines, 0, filePath, language, id);
    WindowStartsCount(0, |lines|);
    forall k | 0 <= k < |r|
      ensures IsWindowChunk(r[k], lines, filePath, language) && (r[k].startLine - 1) % Step == 0
    {
      ChunksFromWindow(lines, 0, filePath, language, id, k);
      WindowStartsMember(0, |lines|, r[k].startLine - 1);
    }
  }

  /** The chunks of a whole file come in file order, and a visited window is dropped
      only when its stripped text is too short. */
  lemma ChunksOfFileOrder(content: string, filePath: string, language: string, id: ChunkId)
    ensures var lines := SplitLines(content);
      var r := ChunksFrom(lines, 0, filePath, language, id);
      (forall a, b :: 0 <= a < b < |r| ==> r[a].startLine < r[b].startLine)
      && (forall s :: 0 <= s < |lines| && s % Step == 0 && KeptWindow(lines, s) ==> HasChunkAt(r, s))
  {
    var lines := SplitLines(content);
    var r := ChunksFrom(lines, 0, filePath, language, id);
    ChunksFromOrdered(lines, 0, filePath, language, id);
    assert OrderedFrom(r, 0);
    forall s | 0 <= s < |lines| && s % Step == 0 && KeptWindow(lines, s)
      ensures HasChunkAt(r, s)
    {
      WindowStartsMember(0, |lines|, s);
      ChunksFromComplete(lines, 0, filePath, language, id, s);
    }
  }

  /** One turn of the chunking loop: the window at `i` is emitted when kept, and the
      loop goes on at `i + 45` either way. */
  lemma ChunksFromStep(lines: seq<string>, i: nat, filePath: string, language: string, chunks: seq<Chunk>, id: ChunkId, total: seq<Chunk>)
    requires i < |lines|
    requires total == chunks + ChunksFrom(lines, i, filePath, language, id)
    ensures KeptWindow(lines, i) ==>
      total == (chunks + [WindowChunk(lines, i, filePath, language, id)]) + ChunksFrom(lines, i + Step, filePath, language, id + 1)
    ensures !KeptWindow(lines, i) ==> total == chunks + ChunksFrom(lines, i + Step, filePath, language, id)
  {
    if KeptWindow(lines, i) {
      var c := WindowChunk(lines, i, filePath, language, id);
      var rest := ChunksFrom(lines, i + Step, filePath, language, id + 1);
      assert ChunksFrom(lines, i, filePath, language, id) == [c] + rest;
      assert chunks + ([c] + rest) == (chunks + [c]) + rest;
    }
  }

  /** `chunk_content`: 50-line windows advancing by 45 lines; windows whose stripped
      text has fewer than 10 characters are skipped; ids are drawn from `firstId`. */
  method ChunkContent(content: string, filePath: string, language: string, firstId: ChunkId)
    returns (chunks: seq<Chunk>)
    ensures chunks == ChunksFrom(SplitLines(content), 0, filePath, language, firstId)
  {
    var lines := SplitLines(content);
    if |lines| == 0 {
      return [];
    }
    ghost var total := ChunksFrom(lines, 0, filePath, language, firstId);
    chunks := [];
    var i: nat := 0;
    while i < |lines|
      invariant total == chunks + ChunksFrom(lines, i, filePath, language, firstId + |chunks|)
      decreases |lines| - i
    {
      var end := if i + ChunkSizeLines < |lines| then i + ChunkSizeLines else |lines|;
      var chunkLines := lines[i..end];
      var text := Join(chunkLines, "\n");
      assert text == WindowText(lines, i);
      ChunksFromStep(lines, i, filePath, language, chunks, firstId + |chunks|, total);
      if |Strip(text)| < MinChunkChars {
        i := i + Step;
        continue;
      }
      var chunk := Chunk(firstId + |chunks|, filePath, language, i + 1, end, text, None);
      assert chunk == WindowChunk(lines, i, filePath, language, firstId + |chunks|);
      chunks := chunks + [chunk];
      i := i + Step;
    }
    assert chunks + [] == chunks;
  }

  // ---------------------------------------------------------------- parse_repository

  /** One file found under the repository: its path relative to the root, what
      `stat()` reports (`None` when it raises) and what `read_text` returns
      (`None` when it raises). */
  datatype FileRecord = FileRecord(rel: FilePath, size: Option<nat>, content: Option<string>)

  /** The counters `parse_repository` keeps. */
  datatype ParseStats = ParseStats(fileCount: nat, skippedCount: nat, errorCount: nat)

  /** What the loop body does with one file. */
  datatype FileOutcome = StatFailed | TooLarge | ReadFailed | Blank | Parsed

  /** The counter of `parse_repository` that an outcome increments. */
  datatype Counter = Processed | Skipped | Errors

  function CounterOf(o: FileOutcome): Counter {
    match o
    case Parsed => Processed
    case TooLarge | Blank => Skipped
    case StatFailed | ReadFailed => Errors
  }

  function Outcome(f: FileRecord): FileOutcome {
    match f.size
    case None => StatFailed
    case Some(n) =>
      if n > MaxParseBytes then TooLarge
      else
        match f.content
        case None => ReadFailed
        case Some(text) => if Strip(text) == [] then Blank else Parsed
  }

  /** The list comprehension that keeps the files `should_process_file` accepts. */
  function FilesToProcess(root: FilePath, files: seq<FileRecord>): (r: seq<FileRecord>)
    ensures |r| <= |files|
    decreases |files|
  {
    if |files| == 0 then []
    else
      var rest := FilesToProcess(root, files[1..]);
      if ShouldProcessFile(root + files[0].rel, files[0].size) then [files[0]] + rest else rest
  }

  /** The files kept are exactly those `should_process_file` accepts. */
  lemma {:induction false} FilesToProcessMeans(root: FilePath, files: seq<FileRecord>)
    ensures forall f :: f in FilesToProcess(root, files) <==> f in files && ShouldProcessFile(root + f.rel, f.size)
    decreases |files|
  {
    if |files| > 0 {
      FilesToProcessMeans(root, files[1..]);
      assert forall f :: f in files <==> f == files[0] || f in files[1..];
    }
  }

  /** The 2 MB check inside the loop never fires: every file that reaches it passed
      the 1,000,000-byte check of `should_process_file`. */
  lemma NoFileTooLarge(root: FilePath, files: seq<FileRecord>)
    ensures forall f :: f in FilesToProcess(root, files) ==> Outcome(f) != TooLarge
  {
    FilesToProcessMeans(root, files);
  }

  /** A file that reached `chunk_content`: its relative path joined with "/", its
      language tag and its lines. */
  datatype Source = Source(path: string, language: string, lines: seq<string>)

  function SourceOf(root: FilePath, f: FileRecord): Source
    requires Outcome(f) == Parsed
  {
    Source(Join(f.rel, "/"), DetectLanguage(root + f.rel), SplitLines(f.content.value))
  }

  /** The first `n` files that are chunked, in order. */
  function ParsedSources(root: FilePath, files: seq<FileRecord>, n: nat): (r: seq<Source>)
    requires n <= |files|
    ensures |r| <= n
  {
    if n == 0 then []
    else
      var f := files[n - 1];
      if Outcome(f) == Parsed then ParsedSources(root, files, n - 1) + [SourceOf(root, f)]
      else ParsedSources(root, files, n - 1)
  }

  /** The chunks of `srcs` in order, ids drawn from `id` on. */
  function SourceChunks(srcs: seq<Source>, id: ChunkId): seq<Chunk>
    decreases |srcs|
  {
    if |srcs| == 0 then []
    else
      var prev := SourceChunks(srcs[..|srcs| - 1], id);
      var src := srcs[|srcs| - 1];
      prev + ChunksFrom(src.lines, 0, src.path, src.language, id + |prev|)
  }

  /** `all_chunks` after the loop has handled all of `files`, ids drawn from `id` on. */
  function ParsedChunks(root: FilePath, files: seq<FileRecord>, id: ChunkId): seq<Chunk> {
    SourceChunks(ParsedSources(root, files, |files|), id)
  }

  /** How many of the first `n` files increment `counter`. */
  function CountOutcomes(files: seq<FileRecord>, n: nat, counter: Counter): (r: nat)
    requires n <= |files|
    ensures r <= n
  {
    if n == 0 then 0
    else CountOutcomes(files, n - 1, counter) + (if CounterOf(Outcome(files[n - 1])) == counter then 1 else 0)
  }

  /** Handling file `n` increments exactly the counter of its outcome. */
  lemma CountStep(files: seq<FileRecord>, n: nat, outcome: FileOutcome)
    requires n < |files| && outcome == Outcome(files[n])
    ensures CountOutcomes(files, n + 1, Processed) == CountOutcomes(files, n, Processed) + (if outcome == Parsed then 1 else 0)
    ensures CountOutcomes(files, n + 1, Skipped)
            == CountOutcomes(files, n, Skipped) + (if outcome == TooLarge || outcome == Blank then 1 else 0)
    ensures CountOutcomes(files, n + 1, Errors)
            == CountOutcomes(files, n, Errors) + (if outcome == StatFailed || outcome == ReadFailed then 1 else 0)
  {
  }

  /** Each file has exactly one outcome, so the three counters add up to the number
      of files handled, and one file is chunked per parsed outcome. */
  lemma {:induction false} CountOutcomesPartition(root: FilePath, files: seq<FileRecord>, n: nat)
    requires n <= |files|
    ensures CountOutcomes(files, n, Processed) + CountOutcomes(files, n, Skipped)
            + CountOutcomes(files, n, Errors) == n
    ensures |ParsedSources(root, files, n)| == CountOutcomes(files, n, Processed)
  {
    if n > 0 {
      CountOutcomesPartition(root, files, n - 1);
    }
  }

  /** One more source appends its chunks, ids continuing where the others stopped. */
  lemma SourceChunksAppend(srcs: seq<Source>, src: Source, id: ChunkId, sofar: seq<Chunk>, chunks: seq<Chunk>)
    requires sofar == SourceChunks(srcs, id)
    requires chunks == ChunksFrom(src.lines, 0, src.path, src.language, id + |sofar|)
    ensures SourceChunks(srcs + [src], id) == sofar + chunks
  {
    assert (srcs + [src])[..|srcs|] == srcs;
  }

  /** The chunks file `f` contributes, ids drawn from `id` on: none unless it is parsed. */
  function FileChunks(root: FilePath, f: FileRecord, id: ChunkId): seq<Chunk> {
    if Outcome(f) == Parsed then
      var src := SourceOf(root, f);
      ChunksFrom(src.lines, 0, src.path, src.language, id)
    else []
  }

  /** Handling one more file appends its chunks to those gathered so far. */
  lemma ParsedStep(root: FilePath, files: seq<FileRecord>, idx: nat, firstId: ChunkId, sofar: seq<Chunk>, chunks: seq<Chunk>)
    requires idx < |files|
    requires sofar == SourceChunks(ParsedSources(root, files, idx), firstId)
    requires chunks == FileChunks(root, files[idx], firstId + |sofar|)
    ensures sofar + chunks == SourceChunks(ParsedSources(root, files, idx + 1), firstId)
  {
    if Outcome(files[idx]) == Parsed {
      SourceChunksAppend(ParsedSources(root, files, idx), SourceOf(root, files[idx]), firstId, sofar, chunks);
    } else {
      assert sofar + chunks == sofar;
    }
  }

  /** Chunks of a sequence of sources carry consecutive ids from `id`. */
  lemma {:induction false} SourceChunksIds(srcs: seq<Source>, id: ChunkId)
    ensures ConsecutiveIds(SourceChunks(srcs, id), id)
    decreases |srcs|
  {
    if |srcs| > 0 {
      var prev := SourceChunks(srcs[..|srcs| - 1], id);
      var src := srcs[|srcs| - 1];
      SourceChunksIds(srcs[..|srcs| - 1], id);
      ChunksFromIds(src.lines, 0, src.path, src.language, id + |prev|);
      ConsecutiveIdsAppend(prev, ChunksFrom(src.lines, 0, src.path, src.language, id + |prev|), id);
    }
  }

  /** A chunk cut from one of `srcs`: a kept window of its lines, labelled with its
      path and language. */
  predicate FromSomeSource(c: Chunk, srcs: seq<Source>) {
    exists src :: src in srcs && IsWindowChunk(c, src.lines, src.path, src.language)
  }

  lemma {:induction false} SourceChunksProvenance(srcs: seq<Source>, id: ChunkId)
    ensures forall c :: c in SourceChunks(srcs, id) ==> FromSomeSource(c, srcs)
    decreases |srcs|
  {
    if |srcs| > 0 {
      var init := srcs[..|srcs| - 1];
      var prev := SourceChunks(init, id);
      var src := srcs[|srcs| - 1];
      SourceChunksProvenance(init, id);
      ChunksFromWindows(src.lines, 0, src.path, src.language, id + |prev|);
      var mine := ChunksFrom(src.lines, 0, src.path, src.language, id + |prev|);
      assert WindowChunks(mine, src.lines, 0, src.path, src.language);
      forall c | c in prev + mine ensures FromSomeSource(c, srcs) {
        if c in prev {
          assert FromSomeSource(c, init);
          var s0 :| s0 in init && IsWindowChunk(c, s0.lines, s0.path, s0.language);
          assert s0 in srcs;
        } else {
          var k :| 0 <= k < |mine| && mine[k] == c;
          assert IsWindowChunk(c, src.lines, src.path, src.language);
        }
      }
    }
  }

  /** Some file among the first `n` with a parsed outcome is read as `src`. */
  predicate SourceFromFiles(src: Source, root: FilePath, files: seq<FileRecord>, n: nat)
    requires n <= |files|
  {
    exists k :: 0 <= k < n && Outcome(files[k]) == Parsed && src == SourceOf(root, files[k])
  }

  /** Only files with a parsed outcome are chunked: oversized, blank and unreadable
      files contribute nothing. */
  lemma {:induction false} ParsedSourcesFrom(root: FilePath, files: seq<FileRecord>, n: nat)
    requires n <= |files|
    ensures forall src :: src in ParsedSources(root, files, n) ==> SourceFromFiles(src, root, files, n)
  {
    if n > 0 {
      ParsedSourcesFrom(root, files, n - 1);
      forall src | src in ParsedSources(root, files, n) ensures SourceFromFiles(src, root, files, n) {
        if src in ParsedSources(root, files, n - 1) {
          assert SourceFromFiles(src, root, files, n - 1);
          var k :| 0 <= k < n - 1 && Outcome(files[k]) == Parsed && src == SourceOf(root, files[k]);
        } else {
          assert Outcome(files[n - 1]) == Parsed && src == SourceOf(root, files[n - 1]);
        }
      }
    }
  }

  /** `parse_repository`: the files under `root` that `should_process_file` accepts
      are handled in order by `ParseFiles`. */
  method ParseRepository(root: FilePath, files: seq<FileRecord>, firstId: ChunkId)
    returns (allChunks: seq<Chunk>, stats: ParseStats)
    ensures var toProcess := FilesToProcess(root, files);
      allChunks == ParsedChunks(root, toProcess, firstId)
      && stats.fileCount == CountOutcomes(toProcess, |toProcess|, Processed)
      && stats.skippedCount == CountOutcomes(toProcess, |toProcess|, Skipped)
      && stats.errorCount == CountOutcomes(toProcess, |toProcess|, Errors)
  {
    var toProcess := FilesToProcess(root, files);
    allChunks, stats := ParseFiles(root, toProcess, firstId);
  }

  /** The loop of `parse_repository`: oversized and whitespace-only files are
      skipped, files whose `stat` or read raises are counted as errors, and every
      other file contributes its chunks in order. */
  method ParseFiles(root: FilePath, toProcess: seq<FileRecord>, firstId: ChunkId)
    returns (allChunks: seq<Chunk>, stats: ParseStats)
    ensures allChunks == ParsedChunks(root, toProcess, firstId)
    ensures stats.fileCount == CountOutcomes(toProcess, |toProcess|, Processed)
    ensures stats.skippedCount == CountOutcomes(toProcess, |toProcess|, Skipped)
    ensures stats.errorCount == CountOutcomes(toProcess, |toProcess|, Errors)
  {
    allChunks := [];
    var fileCount, skippedCount, errorCount := 0, 0, 0;
    for idx := 0 to |toProcess|
      invariant allChunks == SourceChunks(ParsedSources(root, toProcess, idx), firstId)
      invariant fileCount == CountOutcomes(toProcess, idx, Processed)
      invariant skippedCount == CountOutcomes(toProcess, idx, Skipped)
      invariant errorCount == CountOutcomes(toProcess, idx, Errors)
    {
      var outcome, chunks := ParseFile(root, toProcess[idx], firstId + |allChunks|);
      ParsedStep(root, toProcess, idx, firstId, allChunks, chunks);
      CountStep(toProcess, idx, outcome);
      allChunks := allChunks + chunks;
      match outcome
      case Parsed => fileCount := fileCount + 1;
      case TooLarge | Blank => skippedCount := skippedCount + 1;
      case StatFailed | ReadFailed => errorCount := errorCount + 1;
    }
    stats := ParseStats(fileCount, skippedCount, errorCount);
  }

  /** The body of the loop of `parse_repository` for one file: a file whose `stat`
      raises is an error, one over the 2,000,000-byte limit is skipped, one whose read
      raises is an error, a whitespace-only one is skipped, and any other file is
      chunked under its relative path and detected language. */
  method ParseFile(root: FilePath, f: FileRecord, id: ChunkId) returns (outcome: FileOutcome, chunks: seq<Chunk>)
    ensures outcome == Outcome(f)
    ensures chunks == FileChunks(root, f, id)
  {
    if f.size.None? {
      return StatFailed, [];
    }
    if f.size.value > MaxParseBytes {
      return TooLarge, [];
    }
    if f.content.None? {
      return ReadFailed, [];
    }
    var content := f.content.value;
    if Strip(content) == [] {
      return Blank, [];
    }
    var relPath := Join(f.rel, "/");
    var language := DetectLanguage(root + f.rel);
    chunks := ChunkContent(content, relPath, language, id);
    outcome := Parsed;
  }

  /** A chunk cut from file `f`: a kept window of its lines, labelled with its
      relative path and language. */
  predicate ChunkOfFile(c: Chunk, root: FilePath, f: FileRecord) {
    Outcome(f) == Parsed
    && IsWindowChunk(c, SplitLines(f.content.value), Join(f.rel, "/"), DetectLanguage(root + f.rel))
  }

  /** Some file of `files` that `should_process_file` accepts yields chunk `c`. */
  predicate ChunkFromFiles(c: Chunk, root: FilePath, files: seq<FileRecord>) {
    exists f :: f in files && ShouldProcessFile(root + f.rel, f.size) && ChunkOfFile(c, root, f)
  }

  /** What `parse_repository` returns: chunk ids are consecutive from `firstId`, and
      every chunk is a kept window of a file that passed `should_process_file`, was
      read and was not blank, labelled with that file's relative path and language. */
  lemma ParseRepositoryChunks(root: FilePath, files: seq<FileRecord>, firstId: ChunkId)
    ensures ConsecutiveIds(ParsedChunks(root, FilesToProcess(root, files), firstId), firstId)
    ensures forall c :: c in ParsedChunks(root, FilesToProcess(root, files), firstId) ==> ChunkFromFiles(c, root, files)
  {
    var toProcess := FilesToProcess(root, files);
    var srcs := ParsedSources(root, toProcess, |toProcess|);
    SourceChunksIds(srcs, firstId);
    SourceChunksProvenance(srcs, firstId);
    forall c | c in SourceChunks(srcs, firstId) ensures ChunkFromFiles(c, root, files) {
      SourceToFile(root, files, c);
    }
  }

  /** A chunk of a parsed source traces back to the file it was read from. */
  lemma SourceToFile(root: FilePath, files: seq<FileRecord>, c: Chunk)
    requires var toProcess := FilesToProcess(root, files);
      FromSomeSource(c, ParsedSources(root, toProcess, |toProcess|))
    ensures ChunkFromFiles(c, root, files)
  {
    var toProcess := FilesToProcess(root, files);
    var srcs := ParsedSources(root, toProcess, |toProcess|);
    var src :| src in srcs && IsWindowChunk(c, src.lines, src.path, src.language);
    ParsedSourcesFrom(root, toProcess, |toProcess|);
    assert SourceFromFiles(src, root, toProcess, |toProcess|);
    var k :| 0 <= k < |toProcess| && Outcome(toProcess[k]) == Parsed && src == SourceOf(root, toProcess[k]);
    var f := toProcess[k];
    FilesToProcessMeans(root, files);
    assert f in toProcess;
    assert ChunkOfFile(c, root, f);
  }
}
