/** Repository registration and the background indexing task
    (backend/app/api/repos.py). The task moves the repository's status from
    "indexing" to "ready", or to "error" with the failing step's message, over the
    steps clone, parse, embed, build index and save chunks. Cloning, parsing and the
    embedding provider are parameters: what the clone and the parse produced (or the
    error they raised) and the provider's answers. */
module Repos {
  import opened Wrappers
  import opened Models
  import Text
  import Embedder
  import Indexer
  import Db

  // ---------------------------------------------------------------- create_repository

  /** `request.display_name or request.repo_url.split("/")[-1]`: a missing or empty
      display name falls back to the last segment of the URL. */
  function DisplayName(displayName: Option<string>, repoUrl: string): (r: string)
    ensures displayName.None? || displayName.value == "" ==> '/' !in r
  {
    if displayName.Some? && displayName.value != "" then displayName.value
    else
      var pieces := Text.SplitOn(repoUrl, '/');
      Text.SplitOnPieces(repoUrl, '/');
      pieces[|pieces| - 1]
  }

  /** The default display name is the text after the last "/" of the URL (the whole
      URL when it has none). */
  lemma DisplayNameSpec(displayName: Option<string>, repoUrl: string) returns (i: nat)
    requires displayName.None? || displayName.value == ""
    ensures i <= |repoUrl| && DisplayName(displayName, repoUrl) == repoUrl[i..]
    ensures i > 0 ==> repoUrl[i - 1] == '/'
    ensures forall j :: i <= j < |repoUrl| ==> repoUrl[j] != '/'
  {
    var pieces := Text.SplitOn(repoUrl, '/');
    assert DisplayName(displayName, repoUrl) == pieces[|pieces| - 1];
    i := Text.SplitOnLast(repoUrl, '/');
  }

  /** The answer to `POST /repos`. */
  datatype RepoResponse = RepoResponse(repoId: string, status: string, message: string)

  /** `create_repository`: a record is created under the fresh id with the display
      name (or its default) and the response reports it as queued; a failure becomes
      an HTTP 500 carrying its text. Scheduling the indexing task is not modelled. */
  method CreateRepository(db: Db.MetadataStore, repoUrl: string, branch: string, displayName: Option<string>,
                          freshId: string, now: string)
    returns (r: Result<RepoResponse>)
    modifies db
    ensures freshId in old(db.repositories) ==> r.Err? && db.repositories == old(db.repositories)
    ensures freshId !in old(db.repositories) ==>
      r == Ok(RepoResponse(freshId, Queued.Value(), "Repository queued for indexing")) &&
      db.repositories == old(db.repositories)[freshId := Db.RepoRecord(repoUrl, branch, DisplayName(displayName, repoUrl),
                                                                       Queued, None, now, None, 0, 0)]
    ensures db.chunks == old(db.chunks)
  {
    var name := DisplayName(displayName, repoUrl);
    var created := db.CreateRepo(repoUrl, branch, name, freshId, now);
    if created.Err? {
      return Err(created.message);
    }
    return Ok(RepoResponse(created.value, "queued", "Repository queued for indexing"));
  }

  // ---------------------------------------------------------------- index_repository_task

  const NoChunksMessage := "No code chunks extracted from repository"

  /** The chunks handed to the index and the store: clone, parse, reject an empty
      parse, then embed; or the message of the first step that raised. */
  function Prepared(cloned: Result<string>, parse: string -> Result<seq<Chunk>>, provider: Embedder.Provider)
    : (r: Result<seq<Chunk>>)
    ensures r.Ok? ==> cloned.Ok? && parse(cloned.value).Ok? && parse(cloned.value).value != [] &&
                      r.value == Embedder.WithEmbeddings(parse(cloned.value).value, provider)
  {
    if cloned.Err? then Err(cloned.message)
    else
      var parsed := parse(cloned.value);
      if parsed.Err? then Err(parsed.message)
      else if parsed.value == [] then Err(NoChunksMessage)
      else Ok(Embedder.WithEmbeddings(parsed.value, provider))
  }

  /** The outcome of the task's steps: the message of the first step that raised, in
      the order clone, parse, empty check, embed, build index, save chunks. */
  function Outcome(rows: map<ChunkId, Db.ChunkRow>, repoId: string, prepared: Result<seq<Chunk>>): (r: Result<()>)
    ensures r.Ok? <==> prepared.Ok? && prepared.value != [] && Indexer.Rectangular(prepared.value) &&
                       Db.Insertable(rows, repoId, prepared.value)
    ensures prepared.Ok? && prepared.value != [] && !Indexer.AllEmbedded(prepared.value) ==>
      r == Err(Indexer.MissingEmbeddingMessage)
  {
    if prepared.Err? then Err(prepared.message)
    else if Indexer.BuildError(prepared.value).Some? then Err(Indexer.BuildError(prepared.value).value)
    else if !Db.Insertable(rows, repoId, prepared.value) then Err(Db.DuplicateIdMessage)
    else Ok(())
  }

  /** The task ends "ready" only when every step succeeded, and then the index and
      the store hold the parsed chunks; an empty parse always ends in "error". */
  lemma OutcomeSpec(rows: map<ChunkId, Db.ChunkRow>, repoId: string, cloned: Result<string>,
                    parse: string -> Result<seq<Chunk>>, provider: Embedder.Provider)
    ensures var o := Outcome(rows, repoId, Prepared(cloned, parse, provider));
      o.Ok? <==> cloned.Ok? && parse(cloned.value).Ok? && parse(cloned.value).value != [] &&
                 var chunks := Embedder.WithEmbeddings(parse(cloned.value).value, provider);
                 Indexer.Rectangular(chunks) && Db.Insertable(rows, repoId, chunks)
    ensures cloned.Ok? && parse(cloned.value) == Ok([]) ==>
      Outcome(rows, repoId, Prepared(cloned, parse, provider)) == Err(NoChunksMessage)
  {
  }

  /** When the provider hands back fewer vectors than there are chunks, `zip` leaves
      the last chunk without an embedding and the task fails with the `KeyError` of
      the index build. */
  lemma ShortEmbeddingsFail(rows: map<ChunkId, Db.ChunkRow>, repoId: string, cloned: Result<string>,
                            parse: string -> Result<seq<Chunk>>, provider: Embedder.Provider)
    requires cloned.Ok? && parse(cloned.value).Ok?
    requires var chunks := parse(cloned.value).value;
      chunks != [] && chunks[|chunks| - 1].embedding.None? &&
      |Embedder.Embeddings(Embedder.Texts(chunks), provider)| < |chunks|
    ensures Outcome(rows, repoId, Prepared(cloned, parse, provider)) == Err(Indexer.MissingEmbeddingMessage)
  {
    var chunks := parse(cloned.value).value;
    var r := Embedder.WithEmbeddings(chunks, provider);
    assert r[|r| - 1].embedding.None?;
  }

  /** Writing a key twice keeps only the second value. */
  lemma OverwriteTwice<K, V>(m: map<K, V>, k: K, a: V, b: V)
    ensures m[k := a][k := b] == m[k := b]
  {
  }

  /** The writes `index_repository_task` makes to the repositories table: "indexing"
      with no error, then the saved counts when the steps succeeded, then the final
      status. Together they are one update of the task's own record; every other
      record is left as it was. */
  lemma TaskRecords(before: map<string, Db.RepoRecord>, started: map<string, Db.RepoRecord>,
                    saved: map<string, Db.RepoRecord>, final: map<string, Db.RepoRecord>,
                    repoId: string, outcome: Result<()>, chunkCount: nat, fileCount: nat, now: string)
    requires repoId in before ==>
      started == before[repoId := before[repoId].(status := Indexing, errorMessage := None)]
    requires repoId !in before ==> started == before
    requires outcome.Err? || repoId !in started ==> saved == started
    requires outcome.Ok? && repoId in started ==>
      saved == started[repoId := started[repoId].(chunkCount := chunkCount, fileCount := fileCount)]
    requires repoId in saved ==>
      final == saved[repoId := saved[repoId].(
        status := if outcome.Ok? then Ready else Error,
        errorMessage := if outcome.Ok? then None else Some(outcome.message),
        indexedAt := if outcome.Ok? then Some(now) else saved[repoId].indexedAt)]
    requires repoId !in saved ==> final == saved
    ensures repoId in before ==>
      var rec := before[repoId];
      final == before[repoId := rec.(
        status := if outcome.Ok? then Ready else Error,
        errorMessage := if outcome.Ok? then None else Some(outcome.message),
        indexedAt := if outcome.Ok? then Some(now) else rec.indexedAt,
        chunkCount := if outcome.Ok? then chunkCount else rec.chunkCount,
        fileCount := if outcome.Ok? then fileCount else rec.fileCount)]
    ensures repoId !in before ==> final == before
  {
    if repoId in before {
      OverwriteTwice(before, repoId, started[repoId], saved[repoId]);
      OverwriteTwice(before, repoId, saved[repoId], final[repoId]);
    }
  }

  /** The steps of `index_repository_task` between its status writes: clone, parse,
      embed, build the index and save the chunks, stopping at the first that raises. Only a successful
      save touches the database, and only a build that ran writes the index files. */
  method RunSteps(db: Db.MetadataStore, index: Indexer.IndexStore, repoId: string,
                  cloned: Result<string>, parse: string -> Result<seq<Chunk>>,
                  provider: Embedder.Provider, now: string)
    returns (outcome: Result<()>)
    requires db.Valid()
    modifies db, index
    ensures db.Valid()
    ensures var prepared := Prepared(cloned, parse, provider);
      outcome == Outcome(old(db.chunks), repoId, prepared) &&
      (outcome.Err? ==> db.repositories == old(db.repositories) && db.chunks == old(db.chunks)) &&
      (outcome.Ok? ==>
        db.chunks == Db.InsertRows(Db.Others(old(db.chunks), repoId), repoId, prepared.value, now) &&
        (repoId in old(db.repositories) ==>
          db.repositories == old(db.repositories)[repoId := old(db.repositories)[repoId].(
            chunkCount := |prepared.value|, fileCount := |Db.FilePaths(prepared.value)|)]) &&
        (repoId !in old(db.repositories) ==> db.repositories == old(db.repositories))) &&
      (prepared.Ok? && Indexer.Rectangular(prepared.value) ==>
        prepared.value != [] &&
        index.files == old(index.files)
          [Indexer.IndexPath(index.dir, repoId) :=
             Indexer.IndexFile(|prepared.value[0].embedding.value|, Indexer.Vectors(prepared.value))]
          [Indexer.MappingPath(index.dir, repoId) := Indexer.MappingFile(Indexer.ChunkIds(prepared.value))] &&
        index.Loaded(repoId) == Some((Indexer.Vectors(prepared.value), Indexer.ChunkIds(prepared.value)))) &&
      (!(prepared.Ok? && Indexer.Rectangular(prepared.value)) ==> index.files == old(index.files))
  {
    if cloned.Err? {
      return Err(cloned.message);
    }
    var repoPath := cloned.value;
    var parsed := parse(repoPath);
    if parsed.Err? {
      return Err(parsed.message);
    }
    if parsed.value == [] {
      return Err(NoChunksMessage);
    }
    var chunks := parsed.value;
    var chunksWithEmbeddings := Embedder.WithEmbeddings(chunks, provider);
    var built := index.BuildFaissIndex(repoId, chunksWithEmbeddings);
    if built.Err? {
      return Err(built.message);
    }
    outcome := db.SaveChunks(repoId, chunksWithEmbeddings, now);
  }

  /** `index_repository_task`. The status is set to "indexing" first; then the steps
      run in order, and the index files are written before the chunks are saved; the
      status ends "ready" when all succeeded and "error" with the failing step's text
      otherwise. Only the task's own record changes: on success it also takes the
      saved chunk and file counts. `statuses` lists the statuses written, in order. */
  method IndexRepositoryTask(db: Db.MetadataStore, index: Indexer.IndexStore, repoId: string,
                             cloned: Result<string>, parse: string -> Result<seq<Chunk>>,
                             provider: Embedder.Provider, now: string)
    returns (ghost statuses: seq<RepoStatus>)
    requires db.Valid()
    modifies db, index
    ensures db.Valid()
    ensures var prepared := Prepared(cloned, parse, provider);
      var outcome := Outcome(old(db.chunks), repoId, prepared);
      statuses == [Indexing, if outcome.Ok? then Ready else Error]
    ensures var prepared := Prepared(cloned, parse, provider);
      var outcome := Outcome(old(db.chunks), repoId, prepared);
      repoId in old(db.repositories) ==>
        var rec := old(db.repositories)[repoId];
        db.repositories == old(db.repositories)[repoId := rec.(
          status := if outcome.Ok? then Ready else Error,
          errorMessage := if outcome.Ok? then None else Some(outcome.message),
          indexedAt := if outcome.Ok? then Some(now) else rec.indexedAt,
          chunkCount := if outcome.Ok? then |prepared.value| else rec.chunkCount,
          fileCount := if outcome.Ok? then |Db.FilePaths(prepared.value)| else rec.fileCount)]
    ensures repoId !in old(db.repositories) ==> db.repositories == old(db.repositories)
    ensures var prepared := Prepared(cloned, parse, provider);
      var outcome := Outcome(old(db.chunks), repoId, prepared);
      (outcome.Ok? ==> db.chunks == Db.InsertRows(Db.Others(old(db.chunks), repoId), repoId, prepared.value, now)) &&
      (outcome.Err? ==> db.chunks == old(db.chunks))
    ensures var prepared := Prepared(cloned, parse, provider);
      prepared.Ok? && Indexer.Rectangular(prepared.value) ==>
        prepared.value != [] &&
        index.files == old(index.files)
          [Indexer.IndexPath(index.dir, repoId) :=
             Indexer.IndexFile(|prepared.value[0].embedding.value|, Indexer.Vectors(prepared.value))]
          [Indexer.MappingPath(index.dir, repoId) := Indexer.MappingFile(Indexer.ChunkIds(prepared.value))] &&
        index.Loaded(repoId) == Some((Indexer.Vectors(prepared.value), Indexer.ChunkIds(prepared.value)))
    ensures var prepared := Prepared(cloned, parse, provider);
      !(prepared.Ok? && Indexer.Rectangular(prepared.value)) ==> index.files == old(index.files)
  {
    ghost var before := db.repositories;
    db.UpdateRepoStatus(repoId, Indexing, None, now);
    statuses := [Indexing];
    ghost var started := db.repositories;
    assert db.chunks == old(db.chunks) && index.files == old(index.files);
    var outcome := RunSteps(db, index, repoId, cloned, parse, provider, now);
    ghost var saved := db.repositories;
    if outcome.Ok? {
      db.UpdateRepoStatus(repoId, Ready, None, now);
      statuses := statuses + [Ready];
    } else {
      db.UpdateRepoStatus(repoId, Error, Some(outcome.message), now);
      statuses := statuses + [Error];
    }
    ghost var prepared := Prepared(cloned, parse, provider);
    TaskRecords(before, started, saved, db.repositories, repoId, outcome,
                if outcome.Ok? then |prepared.value| else 0,
                if outcome.Ok? then |Db.FilePaths(prepared.value)| else 0, now);
  }
}
