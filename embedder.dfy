/** Batched embedding (backend/app/indexing/embedder.py): chunk texts are sent to the
    embedding provider in consecutive batches of 32; a batch whose call raises is
    replaced by zero vectors, one per text, so that the loop carries on; finally the
    vectors are written into the chunks, pairing them up in order. The provider
    (a remote API or a local model) is a function that returns the vectors for a
    batch or fails. */
module Embedder {
  import opened Wrappers
  import opened Models

  const BatchSize := 32
  /** The dimension of a zero vector when no vector has been produced yet. */
  const DefaultDim := 1536

  /** The embedding provider: the vectors for a batch of texts, or `None` when the
      call raises. */
  type Provider = seq<string> -> Option<seq<Vector>>

  /** A provider that returns one vector per text whenever it succeeds. */
  ghost predicate Honest(provider: Provider) {
    forall b :: provider(b).Some? ==> |provider(b).value| == |b|
  }

  /** `[chunk["content"] for chunk in chunks]`. */
  function Texts(chunks: seq<Chunk>): (r: seq<string>)
    ensures |r| == |chunks|
    ensures forall k :: 0 <= k < |r| ==> r[k] == chunks[k].content
  {
    seq(|chunks|, k requires 0 <= k < |chunks| => chunks[k].content)
  }

  /** `texts[i:i + 32]`. */
  function BatchAt(texts: seq<string>, i: nat): (r: seq<string>)
    requires i < |texts|
    ensures 1 <= |r| <= BatchSize
    ensures i + |r| == |texts| || |r| == BatchSize
  {
    if i + BatchSize <= |texts| then texts[i..i + BatchSize] else texts[i..]
  }

  /** `[[0.0] * dim for _ in batch]`. */
  function Zeros(count: nat, dim: nat): (r: seq<Vector>)
    ensures |r| == count
  {
    seq(count, _ => seq(dim, _ => 0.0))
  }

  /** The dimension of the zero vectors for a failed batch: that of the first vector
      gathered so far, or 1536 when there is none. */
  function SentinelDim(acc: seq<Vector>): nat {
    if |acc| > 0 then |acc[0]| else DefaultDim
  }

  /** The vectors gathered after `acc` by the batches from `i` on: the batches only
      append to what was gathered before. */
  function EmbedFrom(texts: seq<string>, i: nat, provider: Provider, acc: seq<Vector>): (r: seq<Vector>)
    ensures |acc| <= |r| && r[..|acc|] == acc
    decreases |texts| - i
  {
    if i >= |texts| then acc
    else
      var batch := BatchAt(texts, i);
      var next := if provider(batch).Some? then acc + provider(batch).value else acc + Zeros(|batch|, SentinelDim(acc));
      assert next[..|acc|] == acc;
      EmbedFrom(texts, i + BatchSize, provider, next)
  }

  /** The starts of the batches from `i` on whose call failed. */
  function FailedFrom(texts: seq<string>, i: nat, provider: Provider): seq<nat>
    decreases |texts| - i
  {
    if i >= |texts| then []
    else
      (if provider(BatchAt(texts, i)).None? then [i] else []) + FailedFrom(texts, i + BatchSize, provider)
  }

  /** `all_embeddings` after the batch loop. */
  function Embeddings(texts: seq<string>, provider: Provider): seq<Vector> {
    EmbedFrom(texts, 0, provider, [])
  }

  /** One batch: the vectors it contributes are appended before the later batches run. */
  lemma EmbedFromStep(texts: seq<string>, i: nat, provider: Provider, acc: seq<Vector>)
    requires i < |texts|
    ensures var batch := BatchAt(texts, i);
      EmbedFrom(texts, i, provider, acc)
      == EmbedFrom(texts, i + BatchSize, provider,
                   acc + if provider(batch).Some? then provider(batch).value else Zeros(|batch|, SentinelDim(acc)))
  {
  }

  /** One batch: its start is recorded before those of the later batches when it fails. */
  lemma FailedFromStep(texts: seq<string>, i: nat, provider: Provider, done: seq<nat>)
    requires i < |texts|
    ensures provider(BatchAt(texts, i)).None? ==>
      done + FailedFrom(texts, i, provider) == (done + [i]) + FailedFrom(texts, i + BatchSize, provider)
    ensures provider(BatchAt(texts, i)).Some? ==>
      done + FailedFrom(texts, i, provider) == done + FailedFrom(texts, i + BatchSize, provider)
  {
    var rest := FailedFrom(texts, i + BatchSize, provider);
    if provider(BatchAt(texts, i)).None? {
      assert done + ([i] + rest) == (done + [i]) + rest;
    } else {
      assert [] + rest == rest;
    }
  }

  /** The batch loop of `create_embeddings`: `all_embeddings` and `failed_batches`. */
  method EmbedTexts(texts: seq<string>, provider: Provider) returns (allEmbeddings: seq<Vector>, failedBatches: seq<nat>)
    ensures allEmbeddings == Embeddings(texts, provider)
    ensures failedBatches == FailedFrom(texts, 0, provider)
  {
    allEmbeddings := [];
    failedBatches := [];
    var i: nat := 0;
    while i < |texts|
      invariant EmbedFrom(texts, i, provider, allEmbeddings) == Embeddings(texts, provider)
      invariant failedBatches + FailedFrom(texts, i, provider) == FailedFrom(texts, 0, provider)
      decreases |texts| - i
    {
      var batchTexts := BatchAt(texts, i);
      var response := provider(batchTexts);
      EmbedFromStep(texts, i, provider, allEmbeddings);
      FailedFromStep(texts, i, provider, failedBatches);
      if response.Some? {
        allEmbeddings := allEmbeddings + response.value;
      } else {
        var dim := if |allEmbeddings| > 0 then |allEmbeddings[0]| else DefaultDim;
        failedBatches := failedBatches + [i];
        allEmbeddings := allEmbeddings + Zeros(|batchTexts|, dim);
      }
      i := i + BatchSize;
    }
  }

  // ---------------------------------------------------------------- properties

  /** With an honest provider, every text gets exactly one vector. */
  lemma {:induction false} EmbedFromLength(texts: seq<string>, i: nat, provider: Provider, acc: seq<Vector>)
    requires Honest(provider) && i <= |texts|
    ensures |EmbedFrom(texts, i, provider, acc)| == |acc| + |texts| - i
    decreases |texts| - i
  {
    if i < |texts| {
      var batch := BatchAt(texts, i);
      if i + BatchSize < |texts| {
        EmbedFromLength(texts, i + BatchSize, provider, acc + if provider(batch).Some? then provider(batch).value
                                                              else Zeros(|batch|, SentinelDim(acc)));
      }
    }
  }

  /** The vector text `k`, in the batch that starts at `start`, receives: the
      provider's vector at its place in that batch, or, when the batch failed, a zero
      vector as wide as the first vector of the result (1536 wide for the first
      batch). */
  predicate EntryOk(texts: seq<string>, provider: Provider, r: seq<Vector>, start: nat, k: nat)
    requires start <= k < |texts| && k < |r|
  {
    match provider(BatchAt(texts, start))
    case Some(vs) => k - start < |vs| && r[k] == vs[k - start]
    case None => r[k] == seq(if start > 0 then |r[0]| else DefaultDim, _ => 0.0)
  }

  /** The batch that starts at `start` holds text `k`. */
  predicate InBatch(start: nat, k: nat) {
    start % BatchSize == 0 && start <= k < start + BatchSize
  }

  /** Text `k` of the batch at `i` gets its vector. */
  lemma EmbedFromHere(texts: seq<string>, i: nat, provider: Provider, acc: seq<Vector>, k: nat)
    requires Honest(provider) && |acc| == i <= k < |texts| && k < i + BatchSize
    ensures var r := EmbedFrom(texts, i, provider, acc);
      k < |r| && EntryOk(texts, provider, r, i, k)
  {
    var batch := BatchAt(texts, i);
    var seg := if provider(batch).Some? then provider(batch).value else Zeros(|batch|, SentinelDim(acc));
    var next := acc + seg;
    var r := EmbedFrom(texts, i, provider, acc);
    assert r == EmbedFrom(texts, i + BatchSize, provider, next);
    assert k < |next| && r[k] == seg[k - i] && (i > 0 ==> |r[0]| == SentinelDim(acc)) by {
      assert r[..|next|] == next;
      assert next[k] == seg[k - i];
      if i > 0 {
        assert r[0] == next[0] == acc[0];
      }
    }
    match provider(batch)
    case Some(vs) =>
      assert r[k] == vs[k - i];
    case None =>
      assert r[k] == Zeros(|batch|, SentinelDim(acc))[k - i];
  }

  /** Every text from batch `i` on gets its vector, for results built on an `acc`
      that holds one vector per earlier text. */
  lemma {:induction false} EmbedFromEntry(texts: seq<string>, i: nat, provider: Provider, acc: seq<Vector>, start: nat, k: nat)
    requires Honest(provider) && i % BatchSize == 0 && |acc| == i <= start && InBatch(start, k) && k < |texts|
    ensures var r := EmbedFrom(texts, i, provider, acc);
      k < |r| && EntryOk(texts, provider, r, start, k)
    decreases |texts| - i
  {
    if start == i {
      EmbedFromHere(texts, i, provider, acc, k);
    } else {
      var batch := BatchAt(texts, i);
      var seg := if provider(batch).Some? then provider(batch).value else Zeros(|batch|, SentinelDim(acc));
      assert |seg| == BatchSize;
      assert EmbedFrom(texts, i, provider, acc) == EmbedFrom(texts, i + BatchSize, provider, acc + seg);
      EmbedFromEntry(texts, i + BatchSize, provider, acc + seg, start, k);
    }
  }

  /** With an honest provider, `all_embeddings` holds one vector per text, and text
      `k` receives the provider's vector for it, or a zero vector when its batch
      failed. */
  lemma EmbeddingsAligned(texts: seq<string>, provider: Provider)
    requires Honest(provider)
    ensures |Embeddings(texts, provider)| == |texts|
    ensures forall start: nat, k: nat :: InBatch(start, k) && k < |texts| ==>
      EntryOk(texts, provider, Embeddings(texts, provider), start, k)
  {
    EmbedFromLength(texts, 0, provider, []);
    forall start: nat, k: nat | InBatch(start, k) && k < |texts|
      ensures EntryOk(texts, provider, Embeddings(texts, provider), start, k)
    {
      EmbedFromEntry(texts, 0, provider, [], start, k);
    }
  }

  /** The failed batch starts are multiples of 32 below the number of texts, in
      increasing order. */
  lemma {:induction false} FailedFromSpec(texts: seq<string>, i: nat, provider: Provider)
    requires i % BatchSize == 0
    ensures forall k :: 0 <= k < |FailedFrom(texts, i, provider)| ==>
      var s := FailedFrom(texts, i, provider)[k];
      i <= s < |texts| && s % BatchSize == 0 && provider(BatchAt(texts, s)).None?
    ensures forall a, b :: 0 <= a < b < |FailedFrom(texts, i, provider)| ==>
      FailedFrom(texts, i, provider)[a] < FailedFrom(texts, i, provider)[b]
    decreases |texts| - i
  {
    if i < |texts| {
      FailedFromSpec(texts, i + BatchSize, provider);
    }
  }

  /** The batches are consecutive and contiguous: together they are the texts. */
  lemma {:induction false} BatchesCover(texts: seq<string>, i: nat)
    requires i <= |texts|
    ensures BatchesFrom(texts, i) == texts[i..]
    decreases |texts| - i
  {
    if i < |texts| {
      var b := BatchAt(texts, i);
      if i + BatchSize < |texts| {
        BatchesCover(texts, i + BatchSize);
        assert texts[i..] == b + texts[i + BatchSize..];
      }
    }
  }

  /** The batches from `i` on, concatenated. */
  function BatchesFrom(texts: seq<string>, i: nat): seq<string>
    decreases |texts| - i
  {
    if i >= |texts| then [] else BatchAt(texts, i) + BatchesFrom(texts, i + BatchSize)
  }

  // ---------------------------------------------------------------- create_embeddings

  /** The chunks after `create_embeddings`: chunk `k` carries vector `k`, as far as
      both lists go (`zip`), and is otherwise unchanged. */
  function WithEmbeddings(chunks: seq<Chunk>, provider: Provider): (r: seq<Chunk>)
    ensures |r| == |chunks|
  {
    var e := Embeddings(Texts(chunks), provider);
    seq(|chunks|, k requires 0 <= k < |chunks| =>
      if k < |e| then chunks[k].(embedding := Some(e[k])) else chunks[k])
  }

  /** With an honest provider every chunk receives the vector of its own text, and
      keeps its id, place and content. */
  lemma WithEmbeddingsSpec(chunks: seq<Chunk>, provider: Provider)
    requires Honest(provider)
    ensures var r := WithEmbeddings(chunks, provider);
      var e := Embeddings(Texts(chunks), provider);
      |e| == |chunks| &&
      forall k :: 0 <= k < |chunks| ==> r[k] == chunks[k].(embedding := Some(e[k]))
  {
    EmbeddingsAligned(Texts(chunks), provider);
  }

  /** `create_embeddings`: the texts are embedded batch by batch and the vectors are
      written into the chunks in place. No chunks: nothing is done. */
  method CreateEmbeddings(chunks: array<Chunk>, provider: Provider)
    modifies chunks
    ensures chunks[..] == WithEmbeddings(old(chunks[..]), provider)
  {
    if chunks.Length == 0 {
      return;
    }
    var texts := Texts(chunks[..]);
    var allEmbeddings, failedBatches := EmbedTexts(texts, provider);
    for k := 0 to chunks.Length
      invariant forall j :: 0 <= j < chunks.Length ==>
        chunks[j] == if j < k && j < |allEmbeddings| then old(chunks[j]).(embedding := Some(allEmbeddings[j])) else old(chunks[j])
    {
      if k < |allEmbeddings| {
        chunks[k] := chunks[k].(embedding := Some(allEmbeddings[k]));
      }
    }
    assert chunks[..] == WithEmbeddings(old(chunks[..]), provider);
  }
}
