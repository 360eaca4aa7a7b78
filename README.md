# Codebase Copilot: a Dafny model of the retrieval-augmented code assistant

Codebase Copilot indexes a Git repository and answers questions about it with
citations. It works in stages:

- cloned files are filtered and cut into overlapping 50-line windows ("chunks");
- the chunks are embedded in batches of 32 and added to a FAISS index, with a
  position-to-chunk-id mapping, and their metadata is stored in SQLite tables;
- to answer a question, the nearest chunks are fetched and re-ranked by keyword
  overlap;
- an answer is produced (by a language model or a local fallback listing excerpts)
  and its `[Source N]` markers are resolved back to the retrieved chunks, then
  graded "low", "medium" or "high";
- an evaluation runner scores retrieval precision, citation precision and a
  word-overlap faithfulness heuristic.

Around the pipeline sit a per-client sliding-window rate limiter and the parser of
the `cors_origins` setting.

The project models the deterministic core of each of these stages. The embedding
provider, FAISS search, the language model, the file system, the clock and JSON
decoding are parameters. `Repos.IndexRepositoryTask` takes the result of the clone
and the repository parser as parameters, so the task is proved for any parse result.
The `search` parameter of `Retriever.RetrieveRelevantChunks` and the `retrieve` and
`generate` parameters of `Eval.RunEvaluation` cannot fail. In the source these are
`search_index`, which raises "Index not found for repository …" when the files are
missing (`backend/app/indexing/indexer.py:72-73`), and the steps that call it; that
failure is modelled in `Indexer.IndexStore.SearchIndex` only. Python floats are
exact reals: the keyword score, the three evaluation ratios and their averages.
SQLite tables and the FAISS index directory are maps held by classes whose methods
update them.

| file | module | models |
|---|---|---|
| `wrappers.dfy` | `Wrappers` | `Option`, and `Result` for operations that raise |
| `text.dfy` | `Text` | the Python string primitives used: `strip`, `lower`, `split`, `join`, `splitlines`, `\w+` runs, integer formatting |
| `models.dfy` | `Models` | the `RepoStatus` enum and the chunk record shared by all stages |
| `parser.dfy` | `Parser` | `backend/app/ingestion/parser.py` |
| `generator.dfy` | `Generator` | `backend/app/rag/generator.py` |
| `retriever.dfy` | `Retriever` | `backend/app/rag/retriever.py` |
| `embedder.dfy` | `Embedder` | `backend/app/indexing/embedder.py` |
| `indexer.dfy` | `Indexer` | `backend/app/indexing/indexer.py` |
| `db.dfy` | `Db` | `backend/app/storage/db.py` |
| `repos.dfy` | `Repos` | `backend/app/api/repos.py` |
| `eval.dfy` | `Eval` | `backend/eval/run.py` |
| `ratelimit.dfy` | `RateLimit` | `rate_limit_middleware` of `backend/app/main.py` |
| `config.dfy` | `Config` | `Settings.parse_cors_origins` of `backend/app/config.py` |

Loops in the source are modelled as methods with `while`/`for` loops and
invariants. Each method is proved equal to a specification function, and the
properties are proved about that function:

- `chunk_content` and the file loop of `parse_repository`;
- `extract_citations`, `format_sources_for_prompt` and `build_local_fallback_answer`;
- `rerank_chunks` and `retrieve_relevant_chunks`;
- the batch loop of `create_embeddings`;
- the insert loop of `save_chunks` and `get_chunks`;
- `evaluate_citation_precision` and `run_evaluation`.

`create_embeddings` writes the vectors into the chunk array in place.

## Model

| member | source | states |
|---|---|---|
| Parser.LastDot | backend/app/ingestion/parser.py:59-61 | the position of the last '.' of a name, or -1, with no dot after it |
| Parser.Suffix | backend/app/ingestion/parser.py:59-61 | pathlib's suffix is empty or a tail of the name that starts with its only dot, after a non-empty stem |
| Parser.DetectLanguage | backend/app/ingestion/parser.py:59-61 | a mapped suffix gives its tag; the result is "text" exactly when the suffix is unmapped; never fails |
| Parser.LastDotAt | backend/app/ingestion/parser.py:59-61 | the last dot is found at any position where it stands |
| Parser.SuffixOf | backend/app/ingestion/parser.py:59-61 | stem plus one-dot extension has that extension as suffix |
| Parser.DetectLanguageOf | backend/app/ingestion/parser.py:59-61 | a stem plus an extension is tagged by the language map, or "text" |
| Parser.DetectJava | backend/tests/test_parser.py:13-19 | "test.java" is tagged "java" |
| Parser.DetectUnknown | backend/tests/test_parser.py:13-19 | "test.unknown" is tagged "text" |
| Parser.UnknownUnmapped | backend/app/ingestion/parser.py:29-56 | ".unknown" is not a key of the language map |
| Parser.NoSuffixExamples | backend/app/ingestion/parser.py:59-61 | a leading-dot name and a trailing-dot name have no suffix |
| Parser.InExcludedDir | backend/app/ingestion/parser.py:71-73 | the parts loop rejects a path iff some component is an excluded directory |
| Parser.ShouldProcessFile | backend/app/ingestion/parser.py:64-82 | accepted iff the suffix is a code extension, no component is excluded, and the size is known and at most 1,000,000 bytes |
| Parser.WindowChunkRange | backend/app/ingestion/parser.py:100-116 | a chunk has 1 <= start_line <= end_line <= number of lines, spans at most 50 lines, holds exactly those lines joined by "\n", and its stripped text has at least 10 characters |
| Parser.WindowStarts | backend/app/ingestion/parser.py:99-122 | the visited window starts lie in [i, n) |
| Parser.WindowStartsMember | backend/app/ingestion/parser.py:99-122 | the visited starts are exactly i + 45m below n |
| Parser.WindowStartsCount | backend/app/ingestion/parser.py:99-122 | the loop runs ceil((n - i) / 45) times |
| Parser.WindowStartsCovers | backend/app/ingestion/parser.py:99-122 | the visited windows cover every line |
| Parser.WindowStartsOverlap | backend/app/ingestion/parser.py:96-122 | consecutive windows start 45 apart and overlap |
| Parser.ChunksFromWindow | backend/app/ingestion/parser.py:99-124 | the k-th chunk is a kept window the loop visited |
| Parser.ChunksFromWindows | backend/app/ingestion/parser.py:99-124 | every emitted chunk is a kept, visited window |
| Parser.ConsecutiveIdsAppend | backend/app/ingestion/parser.py:111 | consecutive ids are preserved by concatenation |
| Parser.ChunksFromIds | backend/app/ingestion/parser.py:110-119 | chunks take fresh ids in emission order |
| Parser.ChunksFromOrdered | backend/app/ingestion/parser.py:99-122 | start lines strictly increase |
| Parser.ChunksFromComplete | backend/app/ingestion/parser.py:105-108 | every visited window whose stripped text has at least 10 characters yields a chunk |
| Parser.ChunksFromCount | backend/app/ingestion/parser.py:99-122 | at most one chunk per visited window |
| Parser.ChunksOfFile | backend/app/ingestion/parser.py:90-124 | empty text gives no chunks; every chunk is a kept window whose start line is 1 (mod 45), ids are consecutive, and there are at most ceil(lines / 45) chunks |
| Parser.ChunksOfFileOrder | backend/app/ingestion/parser.py:99-124 | chunks of a file are in line order, and a window is dropped only when its stripped text is too short |
| Parser.ChunksFromStep | backend/app/ingestion/parser.py:100-122 | one loop turn appends the window's chunk iff it is kept |
| Parser.ChunkContent | backend/app/ingestion/parser.py:85-124 | the while loop returns exactly the specification's chunk list |
| Parser.FilesToProcess | backend/app/ingestion/parser.py:145-148 | the comprehension keeps at most the listed files |
| Parser.FilesToProcessMeans | backend/app/ingestion/parser.py:145-148 | a file is kept iff `should_process_file` accepts it |
| Parser.NoFileTooLarge | backend/app/ingestion/parser.py:156-159 | no file that passed the filter is ever skipped as larger than 2 MB |
| Parser.ParsedSources | backend/app/ingestion/parser.py:153-176 | at most one source per file handled |
| Parser.CountOutcomes | backend/app/ingestion/parser.py:138-140 | a counter never exceeds the number of files handled |
| Parser.CountStep | backend/app/ingestion/parser.py:153-195 | each file increments exactly the counter of its outcome |
| Parser.CountOutcomesPartition | backend/app/ingestion/parser.py:153-195 | processed + skipped + errors = files handled; processed = number of chunked files |
| Parser.SourceChunksAppend | backend/app/ingestion/parser.py:175-176 | `extend` appends the new file's chunks after the earlier ones |
| Parser.ParsedStep | backend/app/ingestion/parser.py:153-176 | handling one more file appends exactly its chunks |
| Parser.SourceChunksIds | backend/app/ingestion/parser.py:175-176 | ids run on consecutively across files |
| Parser.SourceChunksProvenance | backend/app/ingestion/parser.py:175-176 | every chunk is a kept window of one of the parsed files |
| Parser.ParsedSourcesFrom | backend/app/ingestion/parser.py:153-176 | only files with the "parsed" outcome are chunked (oversized, blank and unreadable ones contribute nothing) |
| Parser.ParseRepository | backend/app/ingestion/parser.py:127-205 | the result is the in-order concatenation of `chunk_content` over the accepted files |
| Parser.ParseFiles | backend/app/ingestion/parser.py:137-195 | the loop returns all chunks and the three counters as their specifications say |
| Parser.ParseFile | backend/app/ingestion/parser.py:154-195 | the loop body for one file: its outcome and its chunks |
| Parser.ParseRepositoryChunks | backend/app/ingestion/parser.py:127-205 | result ids are consecutive, and every chunk comes from a file the filter accepts |
| Parser.SourceToFile | backend/app/ingestion/parser.py:153-176 | a chunk of a parsed source traces back to its file |
| Generator.DigitRun | backend/app/rag/generator.py:64 | the greedy `\d+` run: all digits, followed by a non-digit or the end |
| Generator.MarkerAt | backend/app/rag/generator.py:64 | a match at the start of a text is "[Source " followed by a run of digits and "]"; its number is the decimal value of those digits and its length covers exactly that text, with no '[' after the opening one |
| Generator.MarkerShape | backend/app/rag/generator.py:64 | "[Source ", a digit run and "]" in a row form a marker text with no '[' after its start |
| Generator.FindMarkers | backend/app/rag/generator.py:64 | `re.findall` yields no more numbers than the text has characters |
| Generator.FindMarkersOccur | backend/app/rag/generator.py:64 | every number found is the number of a marker match at some position of the text |
| Generator.FindMarkersSpec | backend/app/rag/generator.py:64 | every number found has an occurrence of "[Source " + digits + "]" in the text whose digits read as that number |
| Generator.LabelMatch | backend/app/rag/generator.py:64-65 | "[Source i]" followed by anything matches as exactly i |
| Generator.LabelFound | backend/app/rag/generator.py:64-65 | a label anywhere in a text is found by the scan |
| Generator.InsertMembers | backend/app/rag/generator.py:66-68 | insertion adds exactly the new number and keeps the others |
| Generator.InsertSpec | backend/app/rag/generator.py:66-68 | insertion keeps a list ascending and adds exactly one element |
| Generator.SortedUniqueSpec | backend/app/rag/generator.py:66-68 | `sorted(set(ms))` is ascending, without repeats, with the same elements |
| Generator.InRange | backend/app/rag/generator.py:68-69 | kept numbers lie in 1..len(chunks) |
| Generator.CitedSources | backend/app/rag/generator.py:64-69 | every resolved number names a retrieved chunk |
| Generator.Snippet | backend/app/rag/generator.py:71-73 | the snippet starts with the first 200 characters of the content, "..." is appended iff the content is longer than 200, and it has at most 203 characters |
| Generator.ExtractCitations | backend/app/rag/generator.py:60-83 | one citation per resolved number, in order, copying file, lines and snippet from chunk n-1 |
| Generator.AscendingBounded | backend/app/rag/generator.py:68-69 | an ascending list within 1..count has at most count entries |
| Generator.InRangeSpec | backend/app/rag/generator.py:68-69 | the filter keeps exactly the in-range numbers, ascending |
| Generator.CitesInOrderAppend | backend/app/rag/generator.py:66-83 | appending the citation of chunk n keeps the citation list aligned with the cited numbers |
| Generator.CitedSourcesSpec | backend/app/rag/generator.py:64-69 | cited numbers are ascending, distinct, exactly the in-range marker numbers, and no more than the chunks |
| Generator.CalculateConfidence | backend/app/rag/generator.py:86-117 | "high" iff two or more citations, at least 50 characters and no uncertainty phrase; "medium" iff one citation, at least 50 characters, and more than 100 words or no uncertainty phrase; "low" when no citations or under 50 characters |
| Generator.ConfidenceWordRuleFirst | backend/app/rag/generator.py:94-97 | the word-count rule precedes the phrase check |
| Generator.EstimateTokens | backend/app/rag/generator.py:120-122 | the estimate is len(text) div 4 |
| Generator.FormatSourcesForPrompt | backend/app/rag/generator.py:12-22 | block i is labelled "[Source i]" for chunk i, blocks joined by "\n" |
| Generator.LabelInside | backend/app/rag/generator.py:64-65 | a label inside a larger text is found |
| Generator.MarkerCited | backend/app/rag/generator.py:68-69 | an in-range marker is resolved |
| Generator.PromptLabelFound | backend/app/rag/generator.py:12-22 | each block label of the joined prompt sources is found |
| Generator.PromptLabelsResolve | backend/app/rag/generator.py:60-83 | every chunk numbered in the prompt can be cited back |
| Generator.Excerpts | backend/app/rag/generator.py:142-146 | excerpt k shows chunk k under label k+1 |
| Generator.ExcerptsAppend | backend/app/rag/generator.py:142-146 | each loop turn appends the next excerpt |
| Generator.FallbackAnswer | backend/app/rag/generator.py:125-149 | the fixed no-results text iff there are no chunks; otherwise the text starts with the warning header and ends with the closing note |
| Generator.BuildLocalFallbackAnswer | backend/app/rag/generator.py:125-149 | the loop builds the fixed no-results text for no chunks, otherwise the header, excerpts for min(max_chunks, len) chunks and the note |
| Generator.FallbackCitesShown | backend/app/rag/generator.py:125-149 | every shown excerpt's label resolves to a citation |
| Generator.GenerateAnswer | backend/app/rag/generator.py:152-208 | the answer is the model's text or the fallback; the citations are exactly those `extract_citations` resolves from that answer, in order; no more citations than chunks; a fallback over chunks has citations; confidence and token estimate as the source computes them |
| Retriever.Ratio | backend/app/rag/retriever.py:40-41 | a count over a larger total lies in [0,1], 0 only for a zero count, 1 only for the total |
| Retriever.SubsetCard | backend/app/rag/retriever.py:40-41 | a subset is no larger, and equally large only when equal |
| Retriever.KeywordScore | backend/app/rag/retriever.py:32-41 | the score lies in [0,1] |
| Retriever.KeywordScoreSpec | backend/app/rag/retriever.py:32-41 | score in [0,1]; 0 iff no shared word; 1 iff the query has words and all occur in the chunk |
| Retriever.KeywordScoreIgnoresCase | backend/app/rag/retriever.py:34-35 | lower-casing either input does not change the score |
| Retriever.InsertByScore | backend/app/rag/retriever.py:55 | insertion adds one element |
| Retriever.SortByScore | backend/app/rag/retriever.py:55 | the sort keeps the length |
| Retriever.InsertByScorePerm | backend/app/rag/retriever.py:55 | insertion is a permutation with the new element |
| Retriever.InsertByScoreFrom | backend/app/rag/retriever.py:55 | insertion introduces no other element |
| Retriever.InsertByScoreSorted | backend/app/rag/retriever.py:55 | insertion keeps scores non-increasing |
| Retriever.InsertByScoreStable | backend/app/rag/retriever.py:55 | insertion keeps equal scores in incoming order |
| Retriever.SortByScorePerm | backend/app/rag/retriever.py:55 | the sort rearranges its input: same elements, same multiplicities |
| Retriever.SortByScoreSpec | backend/app/rag/retriever.py:55 | `sorted(..., reverse=True)` is a permutation, non-increasing, stable |
| Retriever.SortByScoreBelow | backend/app/rag/retriever.py:55 | sorted positions index the input |
| Retriever.ScoreAll | backend/app/rag/retriever.py:50-52 | every chunk is scored, in order |
| Retriever.Ranking | backend/app/rag/retriever.py:44-61 | the ranking lists positions of the input |
| Retriever.RankingEntry | backend/app/rag/retriever.py:50-55 | each sorted entry carries its chunk's own score |
| Retriever.RankingCovers | backend/app/rag/retriever.py:44-61 | every input position appears |
| Retriever.RankingOrdered | backend/app/rag/retriever.py:55 | scores never increase along the ranking; equal scores keep their incoming order |
| Retriever.RankingSpec | backend/app/rag/retriever.py:44-61 | re-ranking is a permutation, in non-increasing, stable score order |
| Retriever.RerankChunks | backend/app/rag/retriever.py:44-61 | the result is the input rearranged by the ranking, with no score field left |
| Retriever.DropScores | backend/app/rag/retriever.py:57-59 | popping the scores leaves exactly the sorted chunks |
| Retriever.Fetched | backend/app/rag/retriever.py:89-93 | at most one chunk per id |
| Retriever.FetchedFrom | backend/app/rag/retriever.py:89-93 | every fetched chunk is the store's answer for one of the ids |
| Retriever.Reranked | backend/app/rag/retriever.py:96-97 | re-ranking keeps the count |
| Retriever.Retrieved | backend/app/rag/retriever.py:85-98 | no more results than ids returned by the index, and at most top_k when re-ranking |
| Retriever.RetrieveRelevantChunks | backend/app/rag/retriever.py:64-101 | the loop fetches with 2·top_k ids when re-ranking (top_k otherwise) and returns the specification's list |
| Retriever.RetrievedSpec | backend/app/rag/retriever.py:85-98 | every result was fetched for an index id; without re-ranking or with at most top_k fetched the list is unchanged; at most top_k results when re-ranking or when the index returned at most top_k |
| Embedder.Texts | backend/app/indexing/embedder.py:57 | the texts are the chunk contents, in order |
| Embedder.BatchAt | backend/app/indexing/embedder.py:66-67 | a batch holds 1 to 32 texts, and only the last one is short |
| Embedder.Zeros | backend/app/indexing/embedder.py:96 | one zero vector per text of a failed batch |
| Embedder.EmbedTexts | backend/app/indexing/embedder.py:62-96 | the batch loop yields exactly the specified vectors and failed batch starts |
| Embedder.EmbedFromStep | backend/app/indexing/embedder.py:66-96 | one loop turn appends the batch's vectors, or zeros of the sentinel dimension when its call failed |
| Embedder.FailedFromStep | backend/app/indexing/embedder.py:90-93 | one loop turn records the batch start exactly when its call failed |
| Embedder.EmbedFrom | backend/app/indexing/embedder.py:66-96 | the batch loop only appends to the vectors gathered so far |
| Embedder.EmbedFromLength | backend/app/indexing/embedder.py:85-96 | with a provider that answers one vector per text, one vector per text overall |
| Embedder.EmbedFromHere | backend/app/indexing/embedder.py:76-96 | a text of the current batch gets its provider vector, or a zero vector of the sentinel dimension |
| Embedder.EmbedFromEntry | backend/app/indexing/embedder.py:66-96 | every later text gets its vector or its zero sentinel |
| Embedder.EmbeddingsAligned | backend/app/indexing/embedder.py:66-96 | with such a provider, vector k belongs to text k: the provider's k-th answer for its batch, or zeros of the first vector's dimension (1536 when there is none) |
| Embedder.FailedFromSpec | backend/app/indexing/embedder.py:90-93 | failed starts are increasing multiples of 32 below the number of texts, at which the provider failed |
| Embedder.BatchesCover | backend/app/indexing/embedder.py:66-67 | the batches are contiguous and together are the texts |
| Embedder.WithEmbeddings | backend/app/indexing/embedder.py:102-103 | the chunk list keeps its length |
| Embedder.WithEmbeddingsSpec | backend/app/indexing/embedder.py:42-106 | every chunk receives the vector of its own text and nothing else changes; no chunks give none |
| Embedder.CreateEmbeddings | backend/app/indexing/embedder.py:42-106 | the chunk array is updated in place to the specified list |
| Indexer.IndexPath | backend/app/indexing/indexer.py:15-17 | the index path ends with ".faiss" |
| Indexer.MappingPath | backend/app/indexing/indexer.py:20-22 | the mapping path ends with "_mapping.pkl" |
| Indexer.PathsDistinct | backend/app/indexing/indexer.py:15-22 | no index path equals any mapping path |
| Indexer.PathsInjective | backend/app/indexing/indexer.py:15-22 | different repositories get different paths |
| Indexer.Vectors | backend/app/indexing/indexer.py:36 | the vectors added are the chunk embeddings, in order |
| Indexer.ChunkIds | backend/app/indexing/indexer.py:50 | mapping position k names chunk k |
| Indexer.BuildError | backend/app/indexing/indexer.py:32-37 | no error iff there are chunks and their embeddings are all present and of one length; KeyError "'embedding'" iff some chunk lacks one; the ragged-array error iff all are present but of different lengths |
| Indexer.NegativePositionAsWritten | backend/app/indexing/indexer.py:87 | with two chunks and `top_k` 3 the search pads with -1; as written the last chunk id comes back twice, where the in-range filter returns each id once |
| Indexer.ResultIds | backend/app/indexing/indexer.py:84-87 | at most one id per returned position |
| Indexer.ResultIdsAsWritten | backend/app/indexing/indexer.py:87 | the filter as written: an IndexError iff some position is below -len(chunk_ids); otherwise at most one id per position, every id in the mapping, and -1 yields the last id |
| Indexer.AsWrittenWraps | backend/app/indexing/indexer.py:87 | as written, the filter is the in-range filter applied after Python's negative indexing wraps each position |
| Indexer.ResultIdsSpec | backend/app/indexing/indexer.py:84-87 | the result is the mapping's ids at exactly the in-range positions, in search order |
| Indexer.ResultIdsInMapping | backend/app/indexing/indexer.py:87 | every returned id is in the mapping |
| Indexer.FiltersAgree | backend/app/indexing/indexer.py:87 | with no negative positions the written and corrected filters agree |
| Indexer.IndexStore.constructor | backend/app/indexing/indexer.py:15-22 | an empty index directory |
| Indexer.IndexStore.BuildFaissIndex | backend/app/indexing/indexer.py:25-55 | no chunks raise "No chunks to index"; a chunk without an embedding raises KeyError "'embedding'"; ragged embeddings raise the array error; in each case no file is written; otherwise both files are written and reload as the vectors and ids in chunk order |
| Indexer.IndexStore.SearchIndex | backend/app/indexing/indexer.py:58-91 | a missing file raises; otherwise the result is the as-written filter over the search positions, so every id is in the mapping and a -1 position yields the last id |
| Db.Stored | backend/app/storage/db.py:160-179 | the stored row has no embedding and is otherwise the chunk |
| Db.Others | backend/app/storage/db.py:154 | the DELETE keeps exactly the other repositories' rows |
| Db.IdsSnoc | backend/app/storage/db.py:157-179 | the ids of a list grow by its last element |
| Db.InsertRows | backend/app/storage/db.py:157-179 | inserting adds exactly the list's ids |
| Db.InsertRowsStep | backend/app/storage/db.py:157-179 | one more chunk writes exactly its own row over the earlier inserts |
| Db.InsertRowsKeeps | backend/app/storage/db.py:157-179 | rows with other ids are untouched |
| Db.InsertRowsAdds | backend/app/storage/db.py:157-179 | each chunk gets its row |
| Db.SavedRows | backend/app/storage/db.py:148-179 | after saving, the repository's rows are exactly the given chunks and other repositories' rows are unchanged |
| Db.SavedFiles | backend/app/storage/db.py:182-187 | the file count is the number of distinct file paths of the chunks |
| Db.TextLeTotal | backend/app/storage/db.py:198 | text order is total |
| Db.LocationLeTotal | backend/app/storage/db.py:198 | (file_path, start_line) order is total |
| Db.InsertByLocation | backend/app/storage/db.py:198 | insertion adds exactly the element |
| Db.InsertByLocationOrdered | backend/app/storage/db.py:198 | insertion keeps the ORDER BY order |
| Db.MetadataStore.constructor | backend/app/storage/db.py:39-85 | empty tables |
| Db.MetadataStore.CreateRepo | backend/app/storage/db.py:88-101 | a new "queued" record with no error, no index time and zero counts under the fresh id; a taken id is an error |
| Db.MetadataStore.GetRepo | backend/app/storage/db.py:104-113 | the record, or None exactly for an unknown id |
| Db.MetadataStore.UpdateRepoStatus | backend/app/storage/db.py:125-145 | status and error message are overwritten; indexed_at is set only for "ready"; an unknown id changes nothing |
| Db.MetadataStore.SaveChunks | backend/app/storage/db.py:148-191 | Ok iff the ids are insertable; on success the repo's rows are replaced, chunk_count = len(chunks) and file_count the distinct paths; on failure nothing changes |
| Db.MetadataStore.InsertBatches | backend/app/storage/db.py:157-179 | slices of 100 insert every chunk exactly once, in order |
| Db.MetadataStore.GetChunks | backend/app/storage/db.py:194-207 | the repository's stored chunks, each once, ordered by file path then start line |
| Db.MetadataStore.GetChunkById | backend/app/storage/db.py:210-221 | the stored chunk, or None exactly for an unknown id |
| Db.RepoChunksAdd | backend/app/storage/db.py:198 | a new row adds its chunk once to the repository's chunks |
| Repos.DisplayName | backend/app/api/repos.py:127 | the display name is the given one when non-empty; the default contains no "/" |
| Repos.DisplayNameSpec | backend/app/api/repos.py:127 | the default display name is the text after the last "/" of the URL |
| Repos.CreateRepository | backend/app/api/repos.py:121-147 | creates the record with the display name (or its default) and reports it "queued" |
| Repos.Prepared | backend/app/api/repos.py:86-101 | chunks reach the index only after a clone, a successful non-empty parse and embedding |
| Repos.Outcome | backend/app/api/repos.py:80-117 | success iff the prepared chunks are non-empty, of one embedding length and insertable; a chunk without an embedding fails with KeyError "'embedding'" |
| Repos.ShortEmbeddingsFail | backend/app/api/repos.py:86-101 | when the provider answers fewer vectors than texts, the last chunk gets no embedding and the task fails with KeyError "'embedding'" |
| Repos.OutcomeSpec | backend/app/api/repos.py:80-117 | the task succeeds iff every step succeeds; an empty parse is an error |
| Repos.TaskRecords | backend/app/api/repos.py:80-117 | the "indexing" write, the saved counts and the final status write together update only the task's own record |
| Repos.RunSteps | backend/app/api/repos.py:86-109 | the steps run in order and stop at the first that raises; the result is that step's message; only a successful save changes the tables, and only a build that ran writes the index files |
| Repos.IndexRepositoryTask | backend/app/api/repos.py:73-117 | the status goes to "indexing", then "ready" iff every step succeeded, else "error" with the failing step's message; on success indexed_at is set and chunk_count and file_count are those of the saved chunks; the record's other fields and every other record are unchanged; chunks are saved only on success; the index files are written exactly when the build ran, so a failed save leaves them behind |
| Eval.CountFound | backend/eval/run.py:38 | the count is at most the expected entries |
| Eval.CountFoundAll | backend/eval/run.py:38 | the count is full iff all were retrieved and 0 iff none were |
| Eval.RetrievalPrecision | backend/eval/run.py:26-40 | retrieval precision lies in [0,1] |
| Eval.RetrievalPrecisionSpec | backend/eval/run.py:26-40 | in [0,1]; 0 without expected files or retrieved chunks; 1 iff every expected file was retrieved |
| Eval.ValidCount | backend/eval/run.py:54-61 | each citation counts at most once |
| Eval.CitationPrecision | backend/eval/run.py:43-63 | the nested loop with `break` computes the share of valid citations |
| Eval.Precision | backend/eval/run.py:43-63 | citation precision lies in [0,1] |
| Eval.PrecisionBounds | backend/eval/run.py:51-63 | citation precision lies in [0,1] and is 0 without citations |
| Eval.CopiedCitationsValid | backend/eval/run.py:55-61 | citations copied from the chunks are all valid |
| Eval.GeneratedCitationsPrecise | backend/eval/run.py:55-63 | a non-empty citation list from `extract_citations` has precision 1 |
| Eval.Faithfulness | backend/eval/run.py:117-129 | the heuristic faithfulness lies in [0,1] |
| Eval.FaithfulnessSpec | backend/eval/run.py:117-129 | in [0,1]; 0 without chunks or without answer words; otherwise exactly the overlap share, so the cap never applies; 1 iff there are answer words and every one occurs in the sources |
| Eval.SumBounds | backend/eval/run.py:188-191 | a sum of values in [lo,hi] lies in [n·lo, n·hi] |
| Eval.MeanBounds | backend/eval/run.py:188-191 | an average lies within the values' bounds |
| Eval.RunEvaluation | backend/eval/run.py:169-207 | one result per question in dataset order, then the four averages; an empty dataset raises a division by zero |
| Eval.ReportBounds | backend/eval/run.py:188-190 | every averaged ratio lies in [0,1] |
| RateLimit.Recent | backend/app/main.py:92-95 | pruning keeps only times later than a minute ago |
| RateLimit.RecentSpec | backend/app/main.py:92-95 | pruning keeps exactly those times, no new ones |
| RateLimit.RecentAll | backend/app/main.py:92-95 | times all within the minute are all kept |
| RateLimit.RateLimiter.constructor | backend/app/main.py:80 | no client has a list yet |
| RateLimit.RateLimiter.RateLimitMiddleware | backend/app/main.py:84-104 | only the requesting client's list (key "unknown" without an address) changes, to the limiter's decision; a list within the limit stays within it |
| RateLimit.Decide | backend/app/main.py:92-104 | an accepted request ends the list with now and leaves at most `limit` entries; a refused one leaves at least `limit`; every kept time is within the last minute, except the appended now |
| RateLimit.DecideSpec | backend/app/main.py:92-104 | refused iff the pruned count reaches the limit; a refused request is not recorded, an accepted one appends exactly now; a list within the limit stays within it |
| RateLimit.NonPositiveLimitRefusesAll | backend/app/main.py:98-102 | a limit of 0 or less refuses every request |
| RateLimit.FullWindowRefuses | backend/app/main.py:92-102 | a client with `limit` requests in the last minute is refused |
| Config.ParseCorsOrigins | backend/app/config.py:28-35 | only the JSON branch can fail, and it is taken only for a string whose stripped form starts with "[" |
| Config.CommaList | backend/app/config.py:34 | one stripped entry per comma-separated piece |
| Config.CommaListClean | backend/app/config.py:34 | every entry is stripped and holds no comma |
| Config.ParseCorsOriginsSpec | backend/app/config.py:28-35 | a list is returned unchanged; the JSON branch is taken iff the stripped string starts with "["; otherwise the entries number commas + 1, each stripped and comma-free |
| Config.CommaRoundTrip | backend/app/config.py:28-35 | stripped, comma-free, non-empty origins joined with "," parse back to themselves |

## Left out

- I/O is not modelled: the file system walk, `stat` and `read_text`, git cloning, SQLite connections, pragmas and schema, FAISS file writing, and pickling. The tables and the index directory are maps; a file's size, text and readability are fields of its record.
- FAISS search itself (L2 distances over float32) is a parameter returning positions. Float32 conversion of vectors is not modelled.
- The embedding providers (OpenAI and SentenceTransformer) and the model cache are left out. The provider is a parameter that returns vectors or fails.
- Embedder.CreateEmbeddings: `get_embedding_model()` is called outside the per-batch `try` (`backend/app/indexing/embedder.py:54`) and raises a RuntimeError when sentence-transformers is not installed (lines 34-37). The model has no such failure; only batch failures are modelled.
- Indexer.IndexStore.BuildFaissIndex: for ragged embeddings numpy's ValueError text goes on after "setting an array element with a sequence" with details of the shapes. `Indexer.RaggedMessage` holds only that opening.
- Parser.ChunksFrom carries no contract of its own; its properties are stated by `Parser.ChunksFromCount`, `Parser.ChunksFromWindows`, `Parser.ChunksFromOrdered` and the lemmas beside them.
- `build_rag_prompt`, the language model call and the cost estimate are not modelled. The model's reply, including its total token count, is a parameter of `Generator.GenerateAnswer`, which reports that count as the source does.
- The LLM-judge branch of `evaluate_faithfulness` is not modelled (a network call parsing a float); only the heuristic branch is.
- `list_repos`, `list_files`, `get_file_content` and the chat and health endpoints are not modelled (plain selects and HTTP plumbing).
- `load_eval_dataset`, `print_report` and the command line of the evaluation runner are I/O and are not modelled. The clock is a parameter: latencies are given per question.
- Random and hashed values are drawn by the caller. uuid4 chunk and repository ids are fresh values passed in, and `content_hash` and the `metadata` column are not modelled.
- Db.MetadataStore.SaveChunks: a primary-key violation is modelled as a check before any insert, with the transaction rolled back. All rows share one `now`, whereas the source calls `utcnow()` per row.
- Db.MetadataStore.GetChunks: the order on `file_path` is SQLite's BINARY collation on characters. Chunks with equal file path and start line may come in any order.
- Text: `lower`, `\w`, `\d` and `split()` treat only ASCII letters and digits (and Python's whitespace set) specially; Unicode case mapping is not modelled.
- Config.ParseCorsOrigins: `json.loads` and the list-of-strings validation are a parameter that may fail.
- Repos.CreateRepository: scheduling the background indexing task is not modelled; `Repos.IndexRepositoryTask` models the task itself, run sequentially.
- Async scheduling and concurrent requests are not modelled; every operation runs to completion on its own.
- Logging, progress messages and the counters of `parse_repository` are only logged in the source; the model returns the counters.
- The 2 MB check of `parse_repository` is kept as written; `Parser.NoFileTooLarge` shows it cannot fire after the 1,000,000-byte filter of `should_process_file`, given that `stat` reports the same size both times.
- RateLimit.RateLimiter.RateLimitMiddleware: `datetime` times are integers in microseconds from a clock parameter, and the rest of the middleware chain and the 429 response body are not modelled. The dictionary is a field of the class rather than a module global.

## Findings

| source | as written | input that shows it | evidently intended | confidence | as-written member | corrected member |
|---|---|---|---|---|---|---|
| backend/app/indexing/indexer.py:87 | the result filter only checks that a position is below the mapping's length, so FAISS's "no result" position -1 passes and Python's negative indexing turns it into the last id | an index of two chunks with ids [7, 9] searched with `top_k` 3: FAISS returns positions [0, 1, -1], padding with -1, and the result is [7, 9, 9] instead of [7, 9]. The last chunk comes back once for each missing neighbour. `retrieve_relevant_chunks` asks for 16 ids when re-ranking, so this happens for every repository with fewer than 16 chunks | keep only positions with 0 <= idx < len(chunk_ids) | high (not executed) | Indexer.NegativePositionAsWritten | Indexer.ResultIdsSpec |

`Indexer.IndexStore.SearchIndex` keeps the filter as written (`Indexer.ResultIdsAsWritten`). `Indexer.ResultIds` is the corrected filter, and `Indexer.FiltersAgree` shows that the two agree whenever the search returns no negative position.
