/** The vector index around FAISS (backend/app/indexing/indexer.py): each repository
    has an index file and a mapping file in the index directory; the mapping lists
    the chunk id of every vector in the order the vectors were added, and a search
    turns the positions FAISS returns back into chunk ids. The index directory is
    modelled as a map from path to stored file; FAISS's nearest-neighbour search is
    an oracle returning positions. */
module Indexer {
  import opened Wrappers
  import opened Models

  // ---------------------------------------------------------------- paths

  /** `settings.faiss_index_dir / f"{repo_id}.faiss"`. */
  function IndexPath(dir: string, repoId: string): (r: string)
    ensures |r| >= 6 && r[|r| - 6..] == ".faiss"
  {
    dir + "/" + repoId + ".faiss"
  }

  /** `settings.faiss_index_dir / f"{repo_id}_mapping.pkl"`. */
  function MappingPath(dir: string, repoId: string): (r: string)
    ensures |r| >= 12 && r[|r| - 12..] == "_mapping.pkl"
  {
    dir + "/" + repoId + "_mapping.pkl"
  }

  /** An index file never has the name of a mapping file, for any two repositories. */
  lemma PathsDistinct(dir: string, a: string, b: string)
    ensures IndexPath(dir, a) != MappingPath(dir, b)
  {
    var i, m := IndexPath(dir, a), MappingPath(dir, b);
    assert i[|i| - 1] == 's' && m[|m| - 1] == 'l';
  }

  /** `s + t == s + u` implies `t == u`. */
  lemma CancelLeft(s: string, t: string, u: string)
    requires s + t == s + u
    ensures t == u
  {
    assert t == (s + t)[|s|..];
    assert u == (s + u)[|s|..];
  }

  /** `t + s == u + s` implies `t == u`. */
  lemma CancelRight(t: string, u: string, s: string)
    requires t + s == u + s
    ensures t == u
  {
    assert t == (t + s)[..|t|];
    assert u == (u + s)[..|u|];
  }

  /** Different repositories have different index files and different mapping files. */
  lemma PathsInjective(dir: string, a: string, b: string)
    ensures IndexPath(dir, a) == IndexPath(dir, b) ==> a == b
    ensures MappingPath(dir, a) == MappingPath(dir, b) ==> a == b
  {
    if IndexPath(dir, a) == IndexPath(dir, b) {
      CancelRight(dir + "/" + a, dir + "/" + b, ".faiss");
      CancelLeft(dir + "/", a, b);
    }
    if MappingPath(dir, a) == MappingPath(dir, b) {
      CancelRight(dir + "/" + a, dir + "/" + b, "_mapping.pkl");
      CancelLeft(dir + "/", a, b);
    }
  }

  // ---------------------------------------------------------------- building

  /** What a path in the index directory holds: a FAISS flat index (its dimension and
      its vectors, in the order they were added) or a pickled list of chunk ids. */
  datatype StoredFile = IndexFile(dimension: nat, vectors: seq<Vector>) | MappingFile(chunkIds: seq<ChunkId>)

  /** `np.array([chunk["embedding"] for chunk in chunks], dtype=np.float32)` succeeds:
      every chunk has an embedding and all of them have the dimension of the first. */
  predicate Rectangular(chunks: seq<Chunk>) {
    forall k :: 0 <= k < |chunks| ==>
      chunks[k].embedding.Some? && chunks[0].embedding.Some? &&
      |chunks[k].embedding.value| == |chunks[0].embedding.value|
  }

  /** Every chunk has an `"embedding"` key, so the list comprehension that feeds
      `np.array` runs to its end. */
  predicate AllEmbedded(chunks: seq<Chunk>) {
    forall k :: 0 <= k < |chunks| ==> chunks[k].embedding.Some?
  }

  const NoChunksMessage := "No chunks to index"

  /** The text of the `KeyError` raised by `chunk["embedding"]` on a chunk without one. */
  const MissingEmbeddingMessage := "'embedding'"

  /** The text `np.array` starts its error with when the embeddings differ in length. */
  const RaggedMessage := "setting an array element with a sequence"

  /** The error `build_faiss_index` raises before it writes anything, if any: an empty
      list first, then a chunk without an embedding, then embeddings of different
      lengths. */
  function BuildError(chunks: seq<Chunk>): (r: Option<string>)
    ensures r.None? <==> chunks != [] && Rectangular(chunks)
    ensures r == Some(MissingEmbeddingMessage) <==> chunks != [] && !AllEmbedded(chunks)
    ensures r == Some(RaggedMessage) <==> AllEmbedded(chunks) && !Rectangular(chunks)
  {
    if chunks == [] then Some(NoChunksMessage)
    else if !AllEmbedded(chunks) then Some(MissingEmbeddingMessage)
    else if !Rectangular(chunks) then Some(RaggedMessage)
    else None
  }

  /** The vectors added to the index, in chunk order. */
  function Vectors(chunks: seq<Chunk>): (r: seq<Vector>)
    requires forall k :: 0 <= k < |chunks| ==> chunks[k].embedding.Some?
    ensures |r| == |chunks|
    ensures forall k :: 0 <= k < |r| ==> r[k] == chunks[k].embedding.value
  {
    seq(|chunks|, k requires 0 <= k < |chunks| => chunks[k].embedding.value)
  }

  /** `[chunk["chunk_id"] for chunk in chunks]`: position `k` of the index names the
      chunk whose vector was added `k`-th. */
  function ChunkIds(chunks: seq<Chunk>): (r: seq<ChunkId>)
    ensures |r| == |chunks|
    ensures forall k :: 0 <= k < |r| ==> r[k] == chunks[k].chunkId
  {
    seq(|chunks|, k requires 0 <= k < |chunks| => chunks[k].chunkId)
  }

  // ---------------------------------------------------------------- searching

  /** FAISS's `index.search` for one query vector: the positions of the nearest
      vectors, at most `k` of them, padded with -1 when the index holds fewer. */
  type Search = (seq<Vector>, Vector, int) -> seq<int>

  /** The result filter as written: `[chunk_ids[idx] for idx in indices if idx <
      len(chunk_ids)]`. A negative position passes the filter and indexes from the
      end of the list, as Python does; one below `-len(chunk_ids)` raises. */
  function ResultIdsAsWritten(ids: seq<ChunkId>, positions: seq<int>): (r: Result<seq<ChunkId>>)
    ensures r.Err? <==> exists k :: 0 <= k < |positions| && positions[k] < -|ids|
    ensures r.Ok? ==> |r.value| <= |positions| && forall id :: id in r.value ==> id in ids
    ensures r.Ok? && |ids| > 0 && -1 in positions ==> ids[|ids| - 1] in r.value
  {
    if positions == [] then Ok([])
    else
      var p := positions[0];
      if p < -|ids| then Err("list index out of range")
      else
        var later := ResultIdsAsWritten(ids, positions[1..]);
        assert later.Err? <==> exists k :: 1 <= k < |positions| && positions[k] < -|ids| by {
          assert forall k :: 1 <= k < |positions| ==> positions[k] == positions[1..][k - 1];
        }
        match later
        case Err(e) => Err(e)
        case Ok(rest) =>
          assert -1 in positions && p != -1 ==> -1 in positions[1..];
          if p >= |ids| then Ok(rest)
          else if p >= 0 then Ok([ids[p]] + rest)
          else Ok([ids[|ids| + p]] + rest)
  }

  /** A position of a mapping of `n` ids as Python reads it: a negative one counts
      from the end. */
  function Wrapped(positions: seq<int>, n: nat): (r: seq<int>)
    ensures |r| == |positions|
    ensures forall k :: 0 <= k < |r| ==> r[k] == if positions[k] < 0 then n + positions[k] else positions[k]
  {
    seq(|positions|, k requires 0 <= k < |positions| => if positions[k] < 0 then n + positions[k] else positions[k])
  }

  /** When no position lies below `-len(chunk_ids)`, the filter as written is the
      intended filter applied to the positions read from the end, so its ids are
      those of `ResultIdsSpec` for those positions. */
  lemma {:induction false} AsWrittenWraps(ids: seq<ChunkId>, positions: seq<int>)
    requires forall k :: 0 <= k < |positions| ==> positions[k] >= -|ids|
    ensures ResultIdsAsWritten(ids, positions) == Ok(ResultIds(ids, Wrapped(positions, |ids|)))
  {
    if positions != [] {
      AsWrittenWraps(ids, positions[1..]);
      var w := Wrapped(positions, |ids|);
      WrappedTail(positions, |ids|);
      var rest := ResultIds(ids, w[1..]);
      if positions[0] >= |ids| {
        assert ResultIds(ids, w) == [] + rest == rest;
      }
    }
  }

  lemma WrappedTail(positions: seq<int>, n: nat)
    requires positions != []
    ensures Wrapped(positions, n)[1..] == Wrapped(positions[1..], n)
  {
  }

  /** A flat index of two vectors searched with `top_k` 3 returns both positions and
      pads with -1. As written, the pad becomes the last chunk's id, so that chunk
      comes back twice; the in-range filter returns each chunk once. */
  lemma NegativePositionAsWritten()
    ensures ResultIdsAsWritten([7, 9], [0, 1, -1]) == Ok([7, 9, 9])
    ensures ResultIds([7, 9], [0, 1, -1]) == [7, 9]
  {
    assert [0, 1, -1][1..] == [1, -1];
    assert [1, -1][1..] == [-1];
    assert [-1][1..] == [];
    var pad := ResultIdsAsWritten([7, 9], [-1]);
    assert pad.value == [9];
    var tail := ResultIdsAsWritten([7, 9], [1, -1]);
    assert tail.value == [9] + pad.value == [9, 9];
    var r := ResultIdsAsWritten([7, 9], [0, 1, -1]);
    assert r.value == [7] + tail.value == [7, 9, 9];
    assert ResultIds([7, 9], [-1]) == [];
    assert ResultIds([7, 9], [1, -1]) == [9];
  }

  /** The result filter: the ids of the positions that lie inside the mapping, in the
      order the search returned them. */
  function ResultIds(ids: seq<ChunkId>, positions: seq<int>): (r: seq<ChunkId>)
    ensures |r| <= |positions|
  {
    if positions == [] then []
    else
      var p := positions[0];
      (if 0 <= p < |ids| then [ids[p]] else []) + ResultIds(ids, positions[1..])
  }

  /** The positions of `positions` that lie inside a mapping of `n` ids. */
  function InsideAt(positions: seq<int>, n: nat): seq<nat>
  {
    if positions == [] then []
    else
      var p := positions[0];
      (if 0 <= p < n then [p] else []) + InsideAt(positions[1..], n)
  }

  /** Every returned id is the mapping's id at a position the search returned, in
      the search's order; a position outside the mapping (FAISS's -1 in particular)
      contributes nothing, and every position inside it contributes its id. */
  lemma ResultIdsSpec(ids: seq<ChunkId>, positions: seq<int>)
    ensures var inside := InsideAt(positions, |ids|);
      |ResultIds(ids, positions)| == |inside| &&
      (forall k :: 0 <= k < |inside| ==> inside[k] < |ids| && ResultIds(ids, positions)[k] == ids[inside[k]])
    ensures forall p :: p in positions && 0 <= p < |ids| ==> p in InsideAt(positions, |ids|)
    ensures forall p :: p in InsideAt(positions, |ids|) ==> p in positions
  {
    ResultIdsAligned(ids, positions);
    InsideAtMembers(positions, |ids|);
  }

  /** The k-th returned id is the mapping's id at the k-th position inside it. */
  lemma {:induction false} ResultIdsAligned(ids: seq<ChunkId>, positions: seq<int>)
    ensures var inside := InsideAt(positions, |ids|);
      |ResultIds(ids, positions)| == |inside| &&
      (forall k :: 0 <= k < |inside| ==> inside[k] < |ids| && ResultIds(ids, positions)[k] == ids[inside[k]])
  {
    if positions != [] {
      var p, tail := positions[0], positions[1..];
      ResultIdsAligned(ids, tail);
      var rest, restInside := ResultIds(ids, tail), InsideAt(tail, |ids|);
      if 0 <= p < |ids| {
        assert ResultIds(ids, positions) == [ids[p]] + rest;
        assert InsideAt(positions, |ids|) == [p] + restInside;
      } else {
        assert ResultIds(ids, positions) == [] + rest == rest;
        assert InsideAt(positions, |ids|) == [] + restInside == restInside;
      }
    }
  }

  /** The positions kept are exactly those of the search inside the mapping. */
  lemma {:induction false} InsideAtMembers(positions: seq<int>, n: nat)
    ensures forall p :: p in positions && 0 <= p < n ==> p in InsideAt(positions, n)
    ensures forall p :: p in InsideAt(positions, n) ==> p in positions && p < n
  {
    if positions != [] {
      var p, tail := positions[0], positions[1..];
      InsideAtMembers(tail, n);
      assert positions == [p] + tail;
      if 0 <= p < n {
        assert InsideAt(positions, n) == [p] + InsideAt(tail, n);
      } else {
        assert InsideAt(positions, n) == [] + InsideAt(tail, n) == InsideAt(tail, n);
      }
    }
  }

  /** Every id of the result is in the mapping. */
  lemma {:induction false} ResultIdsInMapping(ids: seq<ChunkId>, positions: seq<int>)
    ensures forall id :: id in ResultIds(ids, positions) ==> id in ids
  {
    if positions != [] {
      ResultIdsInMapping(ids, positions[1..]);
    }
  }

  /** Both filters agree when the search returned no negative position. */
  lemma {:induction false} FiltersAgree(ids: seq<ChunkId>, positions: seq<int>)
    requires forall k :: 0 <= k < |positions| ==> positions[k] >= 0
    ensures ResultIdsAsWritten(ids, positions) == Ok(ResultIds(ids, positions))
  {
    if positions != [] {
      FiltersAgree(ids, positions[1..]);
      var rest := ResultIds(ids, positions[1..]);
      if positions[0] >= |ids| {
        assert ResultIds(ids, positions) == [] + rest == rest;
      }
    }
  }

  // ---------------------------------------------------------------- the index directory

  /** The FAISS index directory. */
  class IndexStore {
    /** `settings.faiss_index_dir`. */
    const dir: string
    /** The files of the directory, by path. */
    var files: map<string, StoredFile>

    constructor (dir: string)
      ensures this.dir == dir && files == map[]
    {
      this.dir := dir;
      files := map[];
    }

    /** `build_faiss_index`: no chunks, a chunk without an embedding and embeddings
        of different lengths are errors that leave the directory alone; otherwise the
        index of their vectors and the list of their ids are written, overwriting
        earlier files of the repository and leaving every other file alone. */
    method BuildFaissIndex(repoId: string, chunks: seq<Chunk>) returns (r: Result<()>)
      modifies this
      ensures chunks == [] ==> r == Err(NoChunksMessage) && files == old(files)
      ensures chunks != [] && !AllEmbedded(chunks) ==> r == Err(MissingEmbeddingMessage) && files == old(files)
      ensures AllEmbedded(chunks) && !Rectangular(chunks) ==> r == Err(RaggedMessage) && files == old(files)
      ensures chunks != [] && Rectangular(chunks) ==>
        r == Ok(()) &&
        files == old(files)[IndexPath(dir, repoId) := IndexFile(|chunks[0].embedding.value|, Vectors(chunks))]
                           [MappingPath(dir, repoId) := MappingFile(ChunkIds(chunks))]
      ensures r.Ok? ==> Loaded(repoId) == Some((Vectors(chunks), ChunkIds(chunks)))
    {
      if chunks == [] {
        return Err(NoChunksMessage);
      }
      if !AllEmbedded(chunks) {
        return Err(MissingEmbeddingMessage);
      }
      if !Rectangular(chunks) {
        return Err(RaggedMessage);
      }
      var embeddings := Vectors(chunks);
      var dimension := |chunks[0].embedding.value|;
      files := files[IndexPath(dir, repoId) := IndexFile(dimension, embeddings)];
      var chunkIds := ChunkIds(chunks);
      files := files[MappingPath(dir, repoId) := MappingFile(chunkIds)];
      PathsDistinct(dir, repoId, repoId);
      return Ok(());
    }

    /** The mapping stored for a repository, when both of its files are present. */
    function Loaded(repoId: string): Option<(seq<Vector>, seq<ChunkId>)>
      reads this
    {
      var ip := IndexPath(dir, repoId);
      var mp := MappingPath(dir, repoId);
      if ip in files && mp in files && files[ip].IndexFile? && files[mp].MappingFile?
      then Some((files[ip].vectors, files[mp].chunkIds))
      else None
    }

    /** `search_index`: a missing index or mapping file is an error; otherwise the
        search's positions go through the result filter as written, so a position
        below the mapping's length, FAISS's -1 included, picks an id. */
    method SearchIndex(repoId: string, query: Vector, topK: int, search: Search) returns (r: Result<seq<ChunkId>>)
      ensures (IndexPath(dir, repoId) !in files || MappingPath(dir, repoId) !in files) ==> r.Err?
      ensures Loaded(repoId).Some? ==>
        var (vectors, ids) := Loaded(repoId).value;
        r == ResultIdsAsWritten(ids, search(vectors, query, topK))
      ensures r.Ok? ==> Loaded(repoId).Some? && forall id :: id in r.value ==> id in Loaded(repoId).value.1
    {
      var indexPath := IndexPath(dir, repoId);
      var mappingPath := MappingPath(dir, repoId);
      if indexPath !in files || mappingPath !in files {
        return Err("Index not found for repository " + repoId);
      }
      if !files[indexPath].IndexFile? || !files[mappingPath].MappingFile? {
        return Err("could not load the index or its mapping");
      }
      var vectors := files[indexPath].vectors;
      var chunkIds := files[mappingPath].chunkIds;
      var indices := search(vectors, query, topK);
      return ResultIdsAsWritten(chunkIds, indices);
    }
  }
}
