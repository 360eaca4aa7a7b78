/** Retrieval with keyword re-ranking (backend/app/rag/retriever.py): the vector index
    is asked for candidate chunk ids, the chunks are fetched from the metadata store,
    and when there are more candidates than wanted they are re-ordered by how many of
    the query's words they contain and cut to the wanted number. */
module Retriever {
  import opened Wrappers
  import opened Text
  import opened Models

  // ---------------------------------------------------------------- keyword score

  /** `set(re.findall(r'\w+', s.lower()))`. */
  function Tokens(s: string): set<string> {
    set w | w in Runs(Lower(s), IsWordChar)
  }

  /** `calculate_keyword_score`: the share of the query's distinct words that occur
      in the chunk; 0 for a query without words. */
  function KeywordScore(query: string, content: string): (r: real)
    ensures 0.0 <= r <= 1.0
  {
    var q := Tokens(query);
    var c := Tokens(content);
    SubsetCard(q * c, q);
    if |q| == 0 then 0.0 else Ratio(|q * c|, |q|); (|q * c| as real) / (|q| as real)
  }

  /** A subset is no larger than its superset, and equally large only when equal. */
  lemma {:induction false} SubsetCard(a: set<string>, b: set<string>)
    requires a <= b
    ensures |a| <= |b|
    ensures |a| == |b| ==> a == b
    decreases a
  {
    if a != {} {
      var x :| x in a;
      SubsetCard(a - {x}, b - {x});
    } else if b != {} {
      var y :| y in b;
      assert |b| >= 1 by { assert {y} <= b; }
    }
  }

  /** A count out of a larger total is a ratio in [0, 1]: 0 only for a zero count and
      1 only for the total. */
  lemma Ratio(n: nat, d: nat)
    requires 0 < d && n <= d
    ensures 0.0 <= (n as real) / (d as real) <= 1.0
    ensures (n as real) / (d as real) == 0.0 <==> n == 0
    ensures (n as real) / (d as real) == 1.0 <==> n == d
  {
    var q := (n as real) / (d as real);
    assert q * (d as real) == n as real;
    assert (1.0 - q) * (d as real) == (d - n) as real >= 0.0;
    if n == d {
      assert (q - 1.0) * (d as real) == 0.0;
    }
  }

  /** The score lies between 0 and 1; it is 0 exactly when the query has no words or
      shares none with the chunk, and 1 exactly when the query has words and all of
      them occur in the chunk. */
  lemma KeywordScoreSpec(query: string, content: string)
    ensures 0.0 <= KeywordScore(query, content) <= 1.0
    ensures KeywordScore(query, content) == 0.0 <==> Tokens(query) * Tokens(content) == {}
    ensures KeywordScore(query, content) == 1.0
        <==> Tokens(query) != {} && Tokens(query) <= Tokens(content)
  {
    var q, c := Tokens(query), Tokens(content);
    SubsetCard(q * c, q);
    if |q| > 0 {
      Ratio(|q * c|, |q|);
      if |q * c| == |q| {
        assert q * c == q;
      }
      if q <= c {
        assert q * c == q;
      }
    } else {
      assert q == {};
    }
  }

  /** Scoring ignores case: the query and the chunk are lower-cased before they are
      split into words. */
  lemma KeywordScoreIgnoresCase(query: string, content: string)
    ensures KeywordScore(Lower(query), content) == KeywordScore(query, content)
    ensures KeywordScore(query, Lower(content)) == KeywordScore(query, content)
  {
    LowerIdempotent(query);
    LowerIdempotent(content);
  }

  // ---------------------------------------------------------------- stable sort

  /** A chunk's position in the incoming list together with its `_rerank_score`. */
  datatype Scored = Scored(pos: nat, score: real)

  /** Scores never increase along the list. */
  predicate NonIncreasing(xs: seq<Scored>) {
    forall a, b :: 0 <= a < b < |xs| ==> xs[a].score >= xs[b].score
  }

  /** Entries with equal scores keep their incoming order. */
  predicate StableOrder(xs: seq<Scored>) {
    forall a, b :: 0 <= a < b < |xs| && xs[a].score == xs[b].score ==> xs[a].pos < xs[b].pos
  }

  /** Every entry came before position `n`. */
  predicate Below(xs: seq<Scored>, n: nat) {
    forall k :: 0 <= k < |xs| ==> xs[k].pos < n
  }

  /** `x` placed after every entry scoring at least as much as it. */
  function InsertByScore(x: Scored, ys: seq<Scored>): (r: seq<Scored>)
    ensures |r| == |ys| + 1
    decreases |ys|
  {
    if |ys| == 0 then [x]
    else if ys[0].score < x.score then [x] + ys
    else [ys[0]] + InsertByScore(x, ys[1..])
  }

  /** `sorted(xs, key=score, reverse=True)`: Python's sort is stable, also when
      reversed, so entries with equal scores keep their order. */
  function SortByScore(xs: seq<Scored>): (r: seq<Scored>)
    ensures |r| == |xs|
    decreases |xs|
  {
    if |xs| == 0 then [] else InsertByScore(xs[|xs| - 1], SortByScore(xs[..|xs| - 1]))
  }

  lemma {:induction false} InsertByScorePerm(x: Scored, ys: seq<Scored>)
    ensures multiset(InsertByScore(x, ys)) == multiset(ys) + multiset{x}
    decreases |ys|
  {
    if |ys| > 0 && ys[0].score >= x.score {
      InsertByScorePerm(x, ys[1..]);
      assert ys == [ys[0]] + ys[1..];
    }
  }

  /** What `InsertByScore` puts after the head of `ys` comes from the tail or is `x`. */
  lemma InsertByScoreFrom(x: Scored, ys: seq<Scored>, k: nat)
    requires k < |InsertByScore(x, ys)|
    ensures InsertByScore(x, ys)[k] == x || InsertByScore(x, ys)[k] in ys
  {
    InsertByScorePerm(x, ys);
    assert InsertByScore(x, ys)[k] in multiset(ys) + multiset{x};
  }

  lemma {:induction false} InsertByScoreSorted(x: Scored, ys: seq<Scored>)
    requires NonIncreasing(ys)
    ensures NonIncreasing(InsertByScore(x, ys))
    decreases |ys|
  {
    var r := InsertByScore(x, ys);
    if |ys| > 0 && ys[0].score >= x.score {
      var rest := InsertByScore(x, ys[1..]);
      InsertByScoreSorted(x, ys[1..]);
      assert r == [ys[0]] + rest;
      forall b | 0 < b < |r| ensures r[0].score >= r[b].score {
        InsertByScoreFrom(x, ys[1..], b - 1);
      }
    }
  }

  lemma {:induction false} InsertByScoreStable(x: Scored, ys: seq<Scored>)
    requires NonIncreasing(ys) && StableOrder(ys)
    requires forall k :: 0 <= k < |ys| ==> ys[k].pos < x.pos
    ensures StableOrder(InsertByScore(x, ys))
    decreases |ys|
  {
    var r := InsertByScore(x, ys);
    if |ys| > 0 && ys[0].score >= x.score {
      var rest := InsertByScore(x, ys[1..]);
      InsertByScoreStable(x, ys[1..]);
      assert r == [ys[0]] + rest;
      forall b | 0 < b < |r| && r[0].score == r[b].score ensures r[0].pos < r[b].pos {
        InsertByScoreFrom(x, ys[1..], b - 1);
      }
    } else if |ys| > 0 {
      assert r == [x] + ys;
      forall b | 0 < b < |r| ensures r[0].score > r[b].score {
        assert r[b] == ys[b - 1];
      }
    }
  }

  /** The incoming list with its scores: entry `k` is at position `k`. */
  predicate Enumerated(xs: seq<Scored>) {
    forall k :: 0 <= k < |xs| ==> xs[k].pos == k
  }

  /** The sort rearranges its input. */
  lemma {:induction false} SortByScorePerm(xs: seq<Scored>)
    ensures multiset(SortByScore(xs)) == multiset(xs)
    decreases |xs|
  {
    if |xs| > 0 {
      var init := xs[..|xs| - 1];
      SortByScorePerm(init);
      InsertByScorePerm(xs[|xs| - 1], SortByScore(init));
      assert xs == init + [xs[|xs| - 1]];
    }
  }

  /** Sorting an enumerated list yields positions of that list only. */
  lemma SortByScoreBelow(xs: seq<Scored>)
    requires Enumerated(xs)
    ensures Below(SortByScore(xs), |xs|)
  {
    var sorted := SortByScore(xs);
    SortByScorePerm(xs);
    forall k | 0 <= k < |sorted| ensures sorted[k].pos < |xs| {
      assert sorted[k] in multiset(xs);
      var j :| 0 <= j < |xs| && xs[j] == sorted[k];
    }
  }

  /** The sort rearranges its input, in non-increasing score order, keeping the
      incoming order among equal scores. */
  lemma {:induction false} SortByScoreSpec(xs: seq<Scored>)
    requires Enumerated(xs)
    ensures multiset(SortByScore(xs)) == multiset(xs)
    ensures NonIncreasing(SortByScore(xs))
    ensures StableOrder(SortByScore(xs))
    ensures Below(SortByScore(xs), |xs|)
    decreases |xs|
  {
    SortByScorePerm(xs);
    SortByScoreBelow(xs);
    if |xs| > 0 {
      var init := xs[..|xs| - 1];
      var x := xs[|xs| - 1];
      var sorted := SortByScore(init);
      SortByScoreSpec(init);
      InsertByScoreSorted(x, sorted);
      InsertByScoreStable(x, sorted);
    }
  }

  // ---------------------------------------------------------------- rerank_chunks

  /** The incoming chunks with their keyword scores, in incoming order. */
  function ScoreAll(query: string, chunks: seq<Chunk>): (r: seq<Scored>)
    ensures |r| == |chunks| && Enumerated(r)
  {
    seq(|chunks|, k requires 0 <= k < |chunks| => Scored(k, KeywordScore(query, chunks[k].content)))
  }

  /** The incoming positions of the chunks in the order `rerank_chunks` returns them. */
  function Ranking(query: string, chunks: seq<Chunk>): (r: seq<nat>)
    ensures |r| == |chunks|
    ensures forall k :: 0 <= k < |r| ==> r[k] < |chunks|
  {
    var sorted := SortByScore(ScoreAll(query, chunks));
    SortByScoreSpec(ScoreAll(query, chunks));
    seq(|sorted|, k requires 0 <= k < |sorted| => sorted[k].pos)
  }

  /** The keyword score of the chunk at position `p`. */
  function ScoreAt(query: string, chunks: seq<Chunk>, p: nat): real
    requires p < |chunks|
  {
    KeywordScore(query, chunks[p].content)
  }

  /** Each entry of the sorted list is the scored chunk at its own position. */
  lemma RankingEntry(query: string, chunks: seq<Chunk>, k: nat)
    requires k < |chunks|
    ensures var e := SortByScore(ScoreAll(query, chunks))[k];
      e.pos == Ranking(query, chunks)[k] && e.score == ScoreAt(query, chunks, e.pos)
  {
    var xs := ScoreAll(query, chunks);
    var sorted := SortByScore(xs);
    SortByScoreSpec(xs);
    assert sorted[k] in multiset(xs);
    var j :| 0 <= j < |xs| && xs[j] == sorted[k];
  }

  /** Every incoming position appears in the ranking. */
  lemma RankingCovers(query: string, chunks: seq<Chunk>, p: nat)
    requires p < |chunks|
    ensures p in Ranking(query, chunks)
  {
    var xs := ScoreAll(query, chunks);
    var sorted := SortByScore(xs);
    SortByScoreSpec(xs);
    assert xs[p] in multiset(sorted);
    var k :| 0 <= k < |sorted| && sorted[k] == xs[p];
    assert Ranking(query, chunks)[k] == p;
  }

  /** Along the ranking scores never increase, and equal scores keep their incoming
      order -- so no position appears twice. */
  lemma RankingOrdered(query: string, chunks: seq<Chunk>)
    ensures var r := Ranking(query, chunks);
      (forall a, b :: 0 <= a < b < |r| ==> ScoreAt(query, chunks, r[a]) >= ScoreAt(query, chunks, r[b]))
      && (forall a, b :: 0 <= a < b < |r| && ScoreAt(query, chunks, r[a]) == ScoreAt(query, chunks, r[b]) ==> r[a] < r[b])
      && (forall a, b :: 0 <= a < b < |r| ==> r[a] != r[b])
  {
    var xs := ScoreAll(query, chunks);
    var sorted := SortByScore(xs);
    var r := Ranking(query, chunks);
    SortByScoreSpec(xs);
    forall a, b | 0 <= a < b < |r|
      ensures ScoreAt(query, chunks, r[a]) >= ScoreAt(query, chunks, r[b])
      ensures ScoreAt(query, chunks, r[a]) == ScoreAt(query, chunks, r[b]) ==> r[a] < r[b]
    {
      RankingEntry(query, chunks, a);
      RankingEntry(query, chunks, b);
    }
  }

  /** `rerank_chunks` returns a rearrangement of its input: every incoming position
      appears exactly once; keyword scores never increase along the result; chunks
      with equal scores keep their incoming order. */
  lemma RankingSpec(query: string, chunks: seq<Chunk>)
    ensures var r := Ranking(query, chunks);
      (forall p :: 0 <= p < |chunks| ==> p in r)
      && (forall a, b :: 0 <= a < b < |r| ==> r[a] != r[b])
      && (forall a, b :: 0 <= a < b < |r| ==> ScoreAt(query, chunks, r[a]) >= ScoreAt(query, chunks, r[b]))
      && (forall a, b :: 0 <= a < b < |r| && ScoreAt(query, chunks, r[a]) == ScoreAt(query, chunks, r[b]) ==> r[a] < r[b])
  {
    forall p | 0 <= p < |chunks| ensures p in Ranking(query, chunks) {
      RankingCovers(query, chunks, p);
    }
    RankingOrdered(query, chunks);
  }

  /** `rerank_chunks`: score every chunk, sort by score, highest first, keeping the
      incoming order among equal scores; the temporary score is not part of the
      result, so the chunks come back unchanged. Empty input comes back as is. */
  method RerankChunks(query: string, chunks: seq<Chunk>) returns (reranked: seq<Chunk>)
    ensures |reranked| == |chunks|
    ensures forall k :: 0 <= k < |reranked| ==> reranked[k] == chunks[Ranking(query, chunks)[k]]
  {
    if |chunks| == 0 {
      return chunks;
    }
    var scored: seq<Scored> := [];
    for i := 0 to |chunks|
      invariant |scored| == i
      invariant forall k :: 0 <= k < i ==> scored[k] == Scored(k, KeywordScore(query, chunks[k].content))
    {
      var keywordScore := KeywordScore(query, chunks[i].content);
      scored := scored + [Scored(i, keywordScore)];
    }
    assert scored == ScoreAll(query, chunks);
    var sorted := SortByScore(scored);
    SortByScoreBelow(scored);
    reranked := DropScores(chunks, sorted);
  }

  /** The loop that pops `_rerank_score` from every sorted chunk: what is left is
      the chunk itself, in sorted order. */
  method DropScores(chunks: seq<Chunk>, sorted: seq<Scored>) returns (reranked: seq<Chunk>)
    requires Below(sorted, |chunks|)
    ensures |reranked| == |sorted|
    ensures forall k :: 0 <= k < |sorted| ==> reranked[k] == chunks[sorted[k].pos]
  {
    reranked := [];
    for i := 0 to |sorted|
      invariant |reranked| == i
      invariant forall k :: 0 <= k < i ==> reranked[k] == chunks[sorted[k].pos]
    {
      reranked := reranked + [chunks[sorted[i].pos]];
    }
  }

  // ---------------------------------------------------------------- retrieve_relevant_chunks

  /** How many ids the index is asked for: twice `top_k` when re-ranking. */
  function RetrieveK(topK: int, useReranking: bool): int {
    if useReranking then topK * 2 else topK
  }

  /** The chunks the store returns for the first `n` ids, in order; ids the store
      does not know are skipped. */
  function Fetched(ids: seq<ChunkId>, n: nat, lookup: ChunkId -> Option<Chunk>): (r: seq<Chunk>)
    requires n <= |ids|
    ensures |r| <= n
  {
    if n == 0 then []
    else
      var found := lookup(ids[n - 1]);
      if found.Some? then Fetched(ids, n - 1, lookup) + [found.value] else Fetched(ids, n - 1, lookup)
  }

  /** Every fetched chunk is what the store returned for one of the ids. */
  lemma {:induction false} FetchedFrom(ids: seq<ChunkId>, n: nat, lookup: ChunkId -> Option<Chunk>, c: Chunk)
    requires n <= |ids| && c in Fetched(ids, n, lookup)
    ensures exists k :: 0 <= k < n && lookup(ids[k]) == Some(c)
  {
    if c !in Fetched(ids, n - 1, lookup) {
      assert lookup(ids[n - 1]) == Some(c);
    } else {
      FetchedFrom(ids, n - 1, lookup, c);
      var k :| 0 <= k < n - 1 && lookup(ids[k]) == Some(c);
    }
  }

  /** The chunks of `fetched` rearranged by keyword score. */
  function Reranked(query: string, fetched: seq<Chunk>): (r: seq<Chunk>)
    ensures |r| == |fetched|
  {
    var order := Ranking(query, fetched);
    seq(|fetched|, k requires 0 <= k < |fetched| => fetched[order[k]])
  }

  /** The list `retrieve_relevant_chunks` returns for the ids the index found. */
  function Retrieved(query: string, topK: int, useReranking: bool, ids: seq<ChunkId>,
                     lookup: ChunkId -> Option<Chunk>): (r: seq<Chunk>)
    ensures |r| <= |ids|
    ensures useReranking && topK >= 0 ==> |r| <= topK
  {
    var fetched := Fetched(ids, |ids|, lookup);
    if useReranking && |fetched| > topK then Reranked(query, fetched)[..SliceEnd(topK, |fetched|)]
    else fetched
  }

  /** `retrieve_relevant_chunks`, with the query embedding and the index search
      folded into `search` (ids for a requested count) and the store's
      `get_chunk_by_id` as `lookup`. */
  method RetrieveRelevantChunks(query: string, topK: int, useReranking: bool,
                                search: int -> seq<ChunkId>, lookup: ChunkId -> Option<Chunk>)
    returns (chunks: seq<Chunk>)
    ensures chunks == Retrieved(query, topK, useReranking, search(RetrieveK(topK, useReranking)), lookup)
  {
    var retrieveK := if useReranking then topK * 2 else topK;
    var chunkIds := search(retrieveK);
    chunks := [];
    for i := 0 to |chunkIds|
      invariant chunks == Fetched(chunkIds, i, lookup)
    {
      var chunk := lookup(chunkIds[i]);
      if chunk.Some? {
        chunks := chunks + [chunk.value];
      }
    }
    if useReranking && |chunks| > topK {
      var reranked := RerankChunks(query, chunks);
      assert reranked == Reranked(query, chunks);
      chunks := reranked[..SliceEnd(topK, |chunks|)];
    }
  }

  /** Every returned chunk is one the store returned for an id the index found;
      without re-ranking, or with no more candidates than wanted, the fetched list
      comes back unchanged; with `top_k >= 0`, re-ranking returns at most `top_k`
      chunks, and so does plain retrieval when the index returns at most `top_k` ids. */
  lemma RetrievedSpec(query: string, topK: int, useReranking: bool, ids: seq<ChunkId>,
                      lookup: ChunkId -> Option<Chunk>)
    ensures var r := Retrieved(query, topK, useReranking, ids, lookup);
      (forall c :: c in r ==> exists k :: 0 <= k < |ids| && lookup(ids[k]) == Some(c))
      && (!useReranking || |Fetched(ids, |ids|, lookup)| <= topK ==> r == Fetched(ids, |ids|, lookup))
      && (topK >= 0 && (useReranking || |ids| <= topK) ==> |r| <= topK)
  {
    var fetched := Fetched(ids, |ids|, lookup);
    var r := Retrieved(query, topK, useReranking, ids, lookup);
    forall c | c in r ensures exists k :: 0 <= k < |ids| && lookup(ids[k]) == Some(c) {
      if useReranking && |fetched| > topK {
        var j :| 0 <= j < |r| && r[j] == c;
        assert c == fetched[Ranking(query, fetched)[j]];
      }
      FetchedFrom(ids, |ids|, lookup, c);
    }
  }
}
