/**
 * The `KnowledgeBase` class (chatbot.py:34-94): the chunk list, the
 * embedding index built from it, and retrieval of the best-scoring chunks.
 *
 * The embedding model and cosine similarity are outside the model: the
 * index is represented by the chunk texts it was computed from (one row per
 * chunk), and retrieval receives the similarity of the query to each row as
 * a function `sim(query, row)`.
 */
module Knowledge {
  import opened Options
  import opened Chunking
  import opened Ranking

  /** `embeddings` is `None` until a build produces at least one chunk. */
  datatype KnowledgeBase = KnowledgeBase(chunks: seq<string>, embeddings: Option<seq<string>>)

  /** The knowledge base as `__init__` leaves it: no chunks and no index,
      so nothing can be retrieved until a build produces a chunk. */
  function Fresh(): (kb: KnowledgeBase)
    ensures kb.chunks == [] && !Searchable(kb)
  {
    KnowledgeBase([], None)
  }

  /** `top_k` as `answer_question_with_rag` passes it. */
  const RetrievalDepth := 5

  /** The guard of `retrieve_relevant_chunks`: an index exists and there are chunks. */
  predicate Searchable(kb: KnowledgeBase) {
    kb.embeddings.Some? && kb.chunks != []
  }

  /** `create_from_scraped_data`: chunks the list-valued sections and, when
      there is at least one chunk, computes one embedding row per chunk.
      With no chunk it returns early and leaves the previous index alone. */
  function Build(kb: KnowledgeBase, content: ScrapedContent): (r: KnowledgeBase)
    ensures r.chunks == Pack(Items(content)).chunks
    ensures r.chunks == [] <==> Items(content) == []
    ensures Searchable(r) <==> Items(content) != []
    ensures r.embeddings.Some? && r.chunks != [] ==> r.embeddings.value == r.chunks
  {
    var chunks := Pack(Items(content)).chunks;
    PackEmpty(Items(content));
    if chunks == [] then KnowledgeBase([], kb.embeddings)
    else KnowledgeBase(chunks, Some(chunks))
  }

  /** The similarity row `cosine_similarity(query_embedding, self.embeddings)[0]`. */
  function Scores(query: string, n: nat, sim: (string, nat) -> real): (s: seq<real>)
    ensures |s| == n
  {
    seq(n, i requires 0 <= i < n => sim(query, i))
  }

  /** The chunk positions `retrieve_relevant_chunks` returns, best first. */
  function RankedPositions(kb: KnowledgeBase, query: string, topK: int, sim: (string, nat) -> real): seq<nat> {
    if !Searchable(kb) then []
    else TopK(ArgSort(Scores(query, |kb.chunks|, sim)), topK)
  }

  /** `retrieve_relevant_chunks(query, top_k)`. */
  function Retrieve(kb: KnowledgeBase, query: string, topK: int, sim: (string, nat) -> real): (r: seq<string>)
    ensures !Searchable(kb) ==> r == []
  {
    var positions := RankedPositions(kb, query, topK, sim);
    RetrievePositionsValid(kb, query, topK, sim);
    seq(|positions|, j requires 0 <= j < |positions| => kb.chunks[positions[j]])
  }

  lemma {:induction false} RetrievePositionsValid(kb: KnowledgeBase, query: string, topK: int, sim: (string, nat) -> real)
    ensures forall j :: 0 <= j < |RankedPositions(kb, query, topK, sim)| ==>
      RankedPositions(kb, query, topK, sim)[j] < |kb.chunks|
  {
    if Searchable(kb) {
      var scores := Scores(query, |kb.chunks|, sim);
      ArgSortIsArgsort(scores);
      TopKSelects(scores, ArgSort(scores), topK);
    }
  }

  /** Retrieval returns nothing when there is no index or no chunk;
      otherwise it returns the chunks at `TopCount` distinct positions, best
      score first, and no chunk left out scores above one returned. */
  lemma {:induction false} RetrieveRanks(kb: KnowledgeBase, query: string, topK: int, sim: (string, nat) -> real)
    ensures var r := Retrieve(kb, query, topK, sim);
      var positions := RankedPositions(kb, query, topK, sim);
      && (!Searchable(kb) ==> r == [])
      && (Searchable(kb) ==>
            && IsTopSelection(Scores(query, |kb.chunks|, sim), positions, TopCount(|kb.chunks|, topK))
            && |r| == |positions|
            && forall j :: 0 <= j < |r| ==> r[j] == kb.chunks[positions[j]])
  {
    if Searchable(kb) {
      var scores := Scores(query, |kb.chunks|, sim);
      ArgSortIsArgsort(scores);
      TopKSelects(scores, ArgSort(scores), topK);
    }
  }

  /** With `top_k = 5` a searchable knowledge base always yields between one
      and five chunks; this is what lets the answer step reach the generator. */
  lemma {:induction false} RetrieveAtDepth(kb: KnowledgeBase, query: string, sim: (string, nat) -> real)
    ensures var r := Retrieve(kb, query, RetrievalDepth, sim);
      Searchable(kb) ==> 0 < |r| <= RetrievalDepth && |r| <= |kb.chunks|
  {
    RetrieveRanks(kb, query, RetrievalDepth, sim);
    TopCountCases(|kb.chunks|, RetrievalDepth);
  }
}
