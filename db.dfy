/** The metadata store (backend/app/storage/db.py): a `repositories` table keyed by
    repository id and a `chunks` table keyed by chunk id. The SQLite tables are
    modelled as maps; the fresh repository id (`uuid4`) and the current time are
    parameters. */
module Db {
  import opened Wrappers
  import opened Models

  /** A row of the `repositories` table. */
  datatype RepoRecord = RepoRecord(
    repoUrl: string,
    branch: string,
    displayName: string,
    status: RepoStatus,
    errorMessage: Option<string>,
    createdAt: string,
    indexedAt: Option<string>,
    fileCount: nat,
    chunkCount: nat)

  /** A row of the `chunks` table: the owning repository, the chunk as stored and the
      insertion time. */
  datatype ChunkRow = ChunkRow(repoId: string, chunk: Chunk, createdAt: string)

  /** The chunk as the `chunks` table holds it: there is no embedding column. */
  function Stored(c: Chunk): (r: Chunk)
    ensures r.embedding == None
    ensures r == c || c.embedding.Some?
  {
    c.(embedding := None)
  }

  // ---------------------------------------------------------------- save_chunks, as values

  /** The table after `DELETE FROM chunks WHERE repo_id = ?`. */
  function Others(rows: map<ChunkId, ChunkRow>, repoId: string): (r: map<ChunkId, ChunkRow>)
    ensures forall id :: id in r <==> id in rows && rows[id].repoId != repoId
    ensures forall id :: id in r ==> r[id] == rows[id]
  {
    map id | id in rows && rows[id].repoId != repoId :: rows[id]
  }

  /** The table after inserting `list`, one row after the other: it gains exactly the
      list's ids. */
  function InsertRows(rows: map<ChunkId, ChunkRow>, repoId: string, list: seq<Chunk>, now: string): (r: map<ChunkId, ChunkRow>)
    ensures r.Keys == rows.Keys + Ids(list)
  {
    if list == [] then rows
    else
      var c := list[|list| - 1];
      IdsSnoc(list);
      InsertRows(rows, repoId, list[..|list| - 1], now)[c.chunkId := ChunkRow(repoId, Stored(c), now)]
  }

  /** Inserting one more chunk of a list sets that chunk's row. */
  lemma InsertRowsStep(rows: map<ChunkId, ChunkRow>, repoId: string, list: seq<Chunk>, j: nat, now: string)
    requires j < |list|
    ensures InsertRows(rows, repoId, list[..j + 1], now)
         == InsertRows(rows, repoId, list[..j], now)[list[j].chunkId := ChunkRow(repoId, Stored(list[j]), now)]
  {
    assert list[..j + 1][..j] == list[..j];
  }

  /** No two chunks of `list` share an id. */
  predicate DistinctIds(list: seq<Chunk>) {
    forall i, j :: 0 <= i < j < |list| ==> list[i].chunkId != list[j].chunkId
  }

  /** The inserts violate no primary key: the chunk ids are distinct and none of them
      belongs to another repository's row. */
  predicate Insertable(rows: map<ChunkId, ChunkRow>, repoId: string, list: seq<Chunk>) {
    DistinctIds(list) &&
    forall k :: 0 <= k < |list| ==> list[k].chunkId !in Others(rows, repoId)
  }

  /** The text of the integrity error SQLite raises on a duplicate chunk id. */
  const DuplicateIdMessage := "UNIQUE constraint failed: chunks.chunk_id"

  /** The file paths of a list of chunks. */
  function FilePaths(list: seq<Chunk>): set<string> {
    set k | 0 <= k < |list| :: list[k].filePath
  }

  /** The rows of one repository, by id. */
  function RepoIds(rows: map<ChunkId, ChunkRow>, repoId: string): set<ChunkId> {
    set id | id in rows && rows[id].repoId == repoId
  }

  /** `SELECT COUNT(DISTINCT file_path) FROM chunks WHERE repo_id = ?`. */
  function DistinctFiles(rows: map<ChunkId, ChunkRow>, repoId: string): set<string> {
    set id | id in rows && rows[id].repoId == repoId :: rows[id].chunk.filePath
  }

  /** The chunk ids of a list of chunks. */
  function Ids(list: seq<Chunk>): set<ChunkId> {
    set k | 0 <= k < |list| :: list[k].chunkId
  }

  lemma IdsSnoc(list: seq<Chunk>)
    requires list != []
    ensures Ids(list) == Ids(list[..|list| - 1]) + {list[|list| - 1].chunkId}
  {
    var init := list[..|list| - 1];
    forall id | id in Ids(list) ensures id in Ids(init) + {list[|list| - 1].chunkId} {
      var k :| 0 <= k < |list| && list[k].chunkId == id;
      if k < |init| {
        assert init[k].chunkId == id;
      }
    }
    forall id | id in Ids(init) ensures id in Ids(list) {
      var k :| 0 <= k < |init| && init[k].chunkId == id;
      assert list[k].chunkId == id;
    }
  }

  /** Rows whose id the list does not use are left alone. */
  lemma {:induction false} InsertRowsKeeps(rows: map<ChunkId, ChunkRow>, repoId: string, list: seq<Chunk>, now: string, id: ChunkId)
    requires id in rows && id !in Ids(list)
    ensures id in InsertRows(rows, repoId, list, now) && InsertRows(rows, repoId, list, now)[id] == rows[id]
  {
    if list != [] {
      IdsSnoc(list);
      InsertRowsKeeps(rows, repoId, list[..|list| - 1], now, id);
    }
  }

  /** With distinct ids, every chunk of the list gets its row. */
  lemma {:induction false} InsertRowsAdds(rows: map<ChunkId, ChunkRow>, repoId: string, list: seq<Chunk>, now: string, k: nat)
    requires DistinctIds(list) && k < |list|
    ensures list[k].chunkId in InsertRows(rows, repoId, list, now)
    ensures InsertRows(rows, repoId, list, now)[list[k].chunkId] == ChunkRow(repoId, Stored(list[k]), now)
  {
    var init := list[..|list| - 1];
    if k < |init| {
      assert DistinctIds(init);
      assert init[k] == list[k];
      InsertRowsAdds(rows, repoId, init, now, k);
    }
  }

  /** After saving, the repository's rows are exactly the given chunks (as stored),
      and the rows of every other repository are as before. */
  lemma SavedRows(rows: map<ChunkId, ChunkRow>, repoId: string, list: seq<Chunk>, now: string)
    requires Insertable(rows, repoId, list)
    ensures var r := InsertRows(Others(rows, repoId), repoId, list, now);
      (forall k :: 0 <= k < |list| ==> list[k].chunkId in r && r[list[k].chunkId] == ChunkRow(repoId, Stored(list[k]), now)) &&
      RepoIds(r, repoId) == Ids(list) &&
      (forall id :: id in rows && rows[id].repoId != repoId ==> id in r && r[id] == rows[id]) &&
      (forall id :: id in r && r[id].repoId != repoId ==> id in rows && r[id] == rows[id])
  {
    var others := Others(rows, repoId);
    var r := InsertRows(others, repoId, list, now);
    forall k | 0 <= k < |list|
      ensures list[k].chunkId in r && r[list[k].chunkId] == ChunkRow(repoId, Stored(list[k]), now)
    {
      InsertRowsAdds(others, repoId, list, now, k);
    }
    forall id | id in others ensures r[id] == others[id] {
      assert id !in Ids(list);
      InsertRowsKeeps(others, repoId, list, now, id);
    }
    forall id | id in Ids(list) ensures id in RepoIds(r, repoId) {
      var k :| 0 <= k < |list| && list[k].chunkId == id;
    }
  }

  /** After saving, the distinct file count is that of the given chunks. */
  lemma SavedFiles(rows: map<ChunkId, ChunkRow>, repoId: string, list: seq<Chunk>, now: string)
    requires Insertable(rows, repoId, list)
    ensures DistinctFiles(InsertRows(Others(rows, repoId), repoId, list, now), repoId) == FilePaths(list)
  {
    var r := InsertRows(Others(rows, repoId), repoId, list, now);
    SavedRows(rows, repoId, list, now);
    forall path | path in DistinctFiles(r, repoId) ensures path in FilePaths(list) {
      var id :| id in r && r[id].repoId == repoId && r[id].chunk.filePath == path;
      assert id in RepoIds(r, repoId);
      var k :| 0 <= k < |list| && list[k].chunkId == id;
      assert list[k].filePath == path;
    }
    forall path | path in FilePaths(list) ensures path in DistinctFiles(r, repoId) {
      var k :| 0 <= k < |list| && list[k].filePath == path;
      assert r[list[k].chunkId].chunk.filePath == path;
    }
  }

  // ---------------------------------------------------------------- get_chunks order

  /** SQLite's BINARY collation on text: lexicographic order of the characters. */
  predicate TextLe(a: string, b: string) {
    if a == [] then true
    else if b == [] then false
    else if a[0] != b[0] then a[0] < b[0]
    else TextLe(a[1..], b[1..])
  }

  /** Any two texts are ordered one way or the other. */
  lemma {:induction false} TextLeTotal(a: string, b: string)
    ensures TextLe(a, b) || TextLe(b, a)
  {
    if a != [] && b != [] && a[0] == b[0] {
      TextLeTotal(a[1..], b[1..]);
    }
  }

  /** `ORDER BY file_path, start_line`. */
  predicate LocationLe(x: Chunk, y: Chunk) {
    if x.filePath == y.filePath then x.startLine <= y.startLine else TextLe(x.filePath, y.filePath)
  }

  lemma LocationLeTotal(x: Chunk, y: Chunk)
    ensures LocationLe(x, y) || LocationLe(y, x)
  {
    TextLeTotal(x.filePath, y.filePath);
  }

  /** Consecutive chunks are in `file_path, start_line` order. */
  predicate InLocationOrder(s: seq<Chunk>) {
    forall i :: 0 <= i < |s| - 1 ==> LocationLe(s[i], s[i + 1])
  }

  /** `s` with `c` inserted before the first chunk that does not precede it. */
  function InsertByLocation(c: Chunk, s: seq<Chunk>): (r: seq<Chunk>)
    ensures multiset(r) == multiset(s) + multiset{c}
    ensures |r| == |s| + 1
  {
    if s == [] || LocationLe(c, s[0]) then [c] + s
    else
      assert s == [s[0]] + s[1..];
      [s[0]] + InsertByLocation(c, s[1..])
  }

  /** Inserting keeps the order. */
  lemma {:induction false} InsertByLocationOrdered(c: Chunk, s: seq<Chunk>)
    requires InLocationOrder(s)
    ensures InLocationOrder(InsertByLocation(c, s))
    ensures s != [] ==> InsertByLocation(c, s)[0] == c || InsertByLocation(c, s)[0] == s[0]
  {
    if s != [] && !LocationLe(c, s[0]) {
      LocationLeTotal(c, s[0]);
      InsertByLocationOrdered(c, s[1..]);
    }
  }

  /** The stored chunks of one repository. */
  function RepoChunks(rows: map<ChunkId, ChunkRow>, repoId: string): set<Chunk> {
    set id | id in rows && rows[id].repoId == repoId :: rows[id].chunk
  }

  // ---------------------------------------------------------------- the store

  /** The two tables. */
  class MetadataStore {
    var repositories: map<string, RepoRecord>
    var chunks: map<ChunkId, ChunkRow>

    /** Each row is stored under its own chunk id. */
    ghost predicate Valid()
      reads this
    {
      forall id :: id in chunks ==> chunks[id].chunk.chunkId == id
    }

    /** `init_db` on an empty database. */
    constructor ()
      ensures Valid() && repositories == map[] && chunks == map[]
    {
      repositories := map[];
      chunks := map[];
    }

    /** `create_repo`: a new "queued" record with no error, no index time and zero
        counts. An id that is already taken violates the primary key. */
    method CreateRepo(repoUrl: string, branch: string, displayName: string, freshId: string, now: string)
      returns (r: Result<string>)
      modifies this
      ensures freshId in old(repositories) ==> r.Err? && repositories == old(repositories)
      ensures freshId !in old(repositories) ==>
        r == Ok(freshId) &&
        repositories == old(repositories)[freshId := RepoRecord(repoUrl, branch, displayName, Queued, None, now, None, 0, 0)]
      ensures chunks == old(chunks)
    {
      if freshId in repositories {
        return Err("UNIQUE constraint failed: repositories.repo_id");
      }
      repositories := repositories[freshId := RepoRecord(repoUrl, branch, displayName, Queued, None, now, None, 0, 0)];
      return Ok(freshId);
    }

    /** `get_repo`: the record, or None for an unknown id. */
    method GetRepo(repoId: string) returns (r: Option<RepoRecord>)
      ensures r.Some? <==> repoId in repositories
      ensures r.Some? ==> r.value == repositories[repoId]
    {
      if repoId in repositories {
        return Some(repositories[repoId]);
      }
      return None;
    }

    /** `update_repo_status`: the status and the error message are overwritten; the
        index time is set to now only for READY. An unknown id changes nothing. */
    method UpdateRepoStatus(repoId: string, status: RepoStatus, errorMessage: Option<string>, now: string)
      modifies this
      ensures repoId !in old(repositories) ==> repositories == old(repositories)
      ensures repoId in old(repositories) ==>
        var rec := old(repositories)[repoId];
        repositories == old(repositories)[repoId := rec.(status := status, errorMessage := errorMessage,
                                                         indexedAt := if status == Ready then Some(now) else rec.indexedAt)]
      ensures chunks == old(chunks)
    {
      if repoId in repositories {
        var rec := repositories[repoId];
        if status == Ready {
          repositories := repositories[repoId := rec.(status := status, errorMessage := errorMessage, indexedAt := Some(now))];
        } else {
          repositories := repositories[repoId := rec.(status := status, errorMessage := errorMessage)];
        }
      }
    }

    /** `save_chunks`: the repository's rows are deleted and the chunks inserted in
        batches of 100, then the counts are updated. A violated primary key aborts the
        transaction, which leaves both tables as they were. */
    method SaveChunks(repoId: string, list: seq<Chunk>, now: string) returns (r: Result<()>)
      requires Valid()
      modifies this
      ensures Valid()
      ensures r == if Insertable(old(chunks), repoId, list) then Ok(()) else Err(DuplicateIdMessage)
      ensures r.Err? ==> chunks == old(chunks) && repositories == old(repositories)
      ensures r.Ok? ==> chunks == InsertRows(Others(old(chunks), repoId), repoId, list, now)
      ensures r.Ok? && repoId !in old(repositories) ==> repositories == old(repositories)
      ensures r.Ok? && repoId in old(repositories) ==>
        repositories == old(repositories)[repoId := old(repositories)[repoId].(chunkCount := |list|, fileCount := |FilePaths(list)|)]
    {
      if !Insertable(chunks, repoId, list) {
        return Err(DuplicateIdMessage);
      }
      ghost var before := chunks;
      chunks := Others(chunks, repoId);
      InsertBatches(repoId, list, now);
      SavedFiles(before, repoId, list, now);
      if repoId in repositories {
        var fileCount := |DistinctFiles(chunks, repoId)|;
        repositories := repositories[repoId := repositories[repoId].(chunkCount := |list|, fileCount := fileCount)];
      }
      return Ok(());
    }

    /** The insert loop of `save_chunks`: the chunks go in by slices of 100, each
        chunk once and in order. */
    method InsertBatches(repoId: string, list: seq<Chunk>, now: string)
      requires Valid()
      modifies this
      ensures Valid()
      ensures chunks == InsertRows(old(chunks), repoId, list, now)
      ensures repositories == old(repositories)
    {
      ghost var base := chunks;
      var batchSize := 100;
      var i := 0;
      while i < |list|
        invariant i <= |list|
        invariant chunks == InsertRows(base, repoId, list[..i], now)
        invariant repositories == old(repositories) && Valid()
        decreases |list| - i
      {
        var batchEnd := if i + batchSize <= |list| then i + batchSize else |list|;
        for j := i to batchEnd
          invariant chunks == InsertRows(base, repoId, list[..j], now)
          invariant repositories == old(repositories) && Valid()
        {
          var c := list[j];
          InsertRowsStep(base, repoId, list, j, now);
          chunks := chunks[c.chunkId := ChunkRow(repoId, Stored(c), now)];
        }
        i := batchEnd;
      }
      assert list[..i] == list;
    }

    /** `get_chunks`: the repository's stored chunks, each once, ordered by file path
        and start line. */
    method GetChunks(repoId: string) returns (r: seq<Chunk>)
      requires Valid()
      ensures InLocationOrder(r)
      ensures multiset(r) == multiset(RepoChunks(chunks, repoId))
    {
      r := [];
      var keys := chunks.Keys;
      while keys != {}
        invariant keys <= chunks.Keys
        invariant InLocationOrder(r)
        invariant multiset(r) == multiset(RepoChunks(map id | id in chunks && id !in keys :: chunks[id], repoId))
        decreases keys
      {
        var id :| id in keys;
        ghost var seen := map k | k in chunks && k !in keys :: chunks[k];
        ghost var seen' := map k | k in chunks && k !in keys - {id} :: chunks[k];
        if chunks[id].repoId == repoId {
          var c := chunks[id].chunk;
          InsertByLocationOrdered(c, r);
          RepoChunksAdd(seen, repoId, id, chunks[id]);
          assert seen' == seen[id := chunks[id]];
          r := InsertByLocation(c, r);
        } else {
          assert RepoChunks(seen', repoId) == RepoChunks(seen, repoId);
        }
        keys := keys - {id};
      }
      assert (map id | id in chunks && id !in keys :: chunks[id]) == chunks;
    }

    /** `get_chunk_by_id`: the stored chunk, or None for an unknown id. */
    method GetChunkById(chunkId: ChunkId) returns (r: Option<Chunk>)
      ensures r.Some? <==> chunkId in chunks
      ensures r.Some? ==> r.value == chunks[chunkId].chunk
    {
      if chunkId in chunks {
        return Some(chunks[chunkId].chunk);
      }
      return None;
    }
  }

  /** Adding a row for a new id adds its chunk to the repository's chunks, once. */
  lemma RepoChunksAdd(rows: map<ChunkId, ChunkRow>, repoId: string, id: ChunkId, row: ChunkRow)
    requires id !in rows && row.repoId == repoId && row.chunk.chunkId == id
    requires forall k :: k in rows ==> rows[k].chunk.chunkId == k
    ensures multiset(RepoChunks(rows[id := row], repoId)) == multiset(RepoChunks(rows, repoId)) + multiset{row.chunk}
  {
    var old_ := RepoChunks(rows, repoId);
    var new_ := RepoChunks(rows[id := row], repoId);
    assert row.chunk !in old_;
    forall c | c in new_ ensures c in old_ + {row.chunk} {
      var k :| k in rows[id := row] && rows[id := row][k].repoId == repoId && rows[id := row][k].chunk == c;
      if k != id {
        assert c in old_;
      }
    }
    forall c | c in old_ + {row.chunk} ensures c in new_ {
      if c != row.chunk {
        var k :| k in rows && rows[k].repoId == repoId && rows[k].chunk == c;
        assert rows[id := row][k] == rows[k];
      } else {
        assert rows[id := row][id] == row;
      }
    }
    assert new_ == old_ + {row.chunk};
  }
}
