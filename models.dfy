/** The records that flow through the pipeline: the repository status enum of
    backend/app/storage/models.py and the chunk dictionary built by the chunker,
    extended by the embedder and stored by the metadata store. */
module Models {
  import opened Wrappers

  /** `RepoStatus`: the four states a repository record can be in. */
  datatype RepoStatus = Queued | Indexing | Ready | Error {
    /** The string stored in the `status` column. */
    function Value(): string {
      match this
      case Queued => "queued"
      case Indexing => "indexing"
      case Ready => "ready"
      case Error => "error"
    }
  }

  /** A chunk id (`str(uuid.uuid4())` in the source) is modelled as the serial number
      of the draw: distinct draws give distinct ids. */
  type ChunkId = nat

  /** An embedding vector. */
  type Vector = seq<real>

  /** A chunk dictionary: the keys written by `chunk_content`, plus the `embedding`
      key that `create_embeddings` adds (absent until then). */
  datatype Chunk = Chunk(
    chunkId: ChunkId,
    filePath: string,
    language: string,
    startLine: int,
    endLine: int,
    content: string,
    embedding: Option<Vector>)
}
