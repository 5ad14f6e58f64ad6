/** The process-wide state of the pipeline, the module globals `index` and
    `chunks`, with the two operations that use it: `build_faiss_index`,
    which replaces it, and `rag_pipeline`, which answers a question from
    it. The vector index is modelled by whether it exists and how many
    vectors it holds; the embedding service, the search and the answer
    model are inputs. */
module Session {
  import opened Chunking
  import opened Retrieval
  import opened Assembly

  /** The answer `rag_pipeline` gives while no index exists. */
  const NoDocumentAnswer: string := "No document uploaded yet."

  /** What `rag_pipeline` returns, `{"answer": ..., "sources": ...}`, or the
      `IndexError` it raises when the index reports a position past the
      stored chunks. */
  datatype Reply =
    | Answer(answer: string, sources: seq<string>)
    | ChunkIndexError(position: int)

  datatype Option = None | Some(position: int)

  /** `p` is the first reported position that is not a stored chunk: the
      one at which `[chunks[i] for i in indices]` raises. */
  predicate FirstOutOfRange(hits: seq<int>, stored: nat, p: int) {
    exists k :: 0 <= k < |hits| && hits[k] == p && stored <= p
      && forall j :: 0 <= j < k ==> hits[j] < stored
  }

  /** The first reported position that is not a stored chunk, if any. */
  function FirstMissing(hits: seq<int>, stored: nat): (m: Option)
    ensures m.None? <==> forall j :: 0 <= j < |hits| ==> hits[j] < stored
    ensures m.Some? ==> FirstOutOfRange(hits, stored, m.position)
  {
    if hits == [] then None
    else if stored <= hits[0] then Some(hits[0])
    else
      var m := FirstMissing(hits[1..], stored);
      if m.Some? then
        var k :| 0 <= k < |hits[1..]| && hits[1..][k] == m.position && stored <= m.position
                 && forall j :: 0 <= j < k ==> hits[1..][j] < stored;
        assert hits[k + 1] == m.position;
        assert forall j :: 0 <= j < k + 1 ==> hits[j] < stored;
        m
      else m
  }

  class RagSession {
    /** `index is not None`. */
    var ready: bool
    /** The number of vectors in the index (0 while there is none). */
    var indexSize: nat
    /** The global `chunks`. */
    var chunks: seq<Chunk>

    /** The index and the stored chunks describe the same document: one
        vector per stored chunk. */
    predicate Consistent()
      reads this
    {
      ready && indexSize == |chunks|
    }

    /** The state at import: `index = None`, `chunks = []`. */
    constructor ()
      ensures !ready && indexSize == 0 && chunks == []
    {
      ready := false;
      indexSize := 0;
      chunks := [];
    }

    /** `build_faiss_index(new_chunks)`. The global `chunks` is replaced
        before anything is embedded; `embedded` says whether the embedding
        service answered for every chunk. An empty chunk list cannot be
        indexed (its embedding matrix has no second dimension), so the
        build then fails too. A failed build leaves the previous index in
        place beside the new chunks. */
    method BuildIndex(newChunks: seq<Chunk>, embedded: bool) returns (ok: bool)
      modifies this
      ensures chunks == newChunks
      ensures ok <==> embedded && newChunks != []
      ensures ok ==> Consistent() && 0 < indexSize
      ensures !ok ==> ready == old(ready) && indexSize == old(indexSize)
      ensures old(ready) ==> ready
    {
      chunks := newChunks;
      if embedded && |newChunks| > 0 {
        indexSize := |newChunks|;
        ready := true;
        ok := true;
      } else {
        ok := false;
      }
    }

    /** `rag_pipeline(question)`. `hits` is what the vector search reports
        for the embedded question (a stored position, or -1 where it has
        no further neighbour) and `generate` is the answer model, applied
        to the context and the question. */
    method RagPipeline(question: string, hits: seq<int>, generate: (string, string) -> string)
      returns (reply: Reply)
      requires ready ==> SearchPositions(hits, indexSize)
      ensures !ready ==> reply == Answer(NoDocumentAnswer, [])
      ensures ready && SearchPositions(hits, |chunks|) ==>
                reply == Answer(generate(ContextOf(RetrieveHits(chunks, hits)), question),
                                SourcesOf(RetrieveHits(chunks, hits)))
      ensures ready && !SearchPositions(hits, |chunks|) ==>
                reply.ChunkIndexError? && FirstOutOfRange(hits, |chunks|, reply.position)
      ensures Consistent() ==> reply.Answer?
    {
      if !ready {
        return Answer(NoDocumentAnswer, []);
      }
      var missing := FirstMissing(hits, |chunks|);
      if missing.Some? {
        return ChunkIndexError(missing.position);
      }
      var retrieved := RetrieveHits(chunks, hits);
      var context, sources := AssembleContext(retrieved);
      var answer := generate(context, question);
      reply := Answer(answer, sources);
    }
  }

  /** Whatever the search and the answer model would say, a session
      without an index answers with the fixed message and no sources. */
  method AskWithoutDocument(question: string, hits: seq<int>, generate: (string, string) -> string)
    returns (reply: Reply)
    ensures reply == Answer(NoDocumentAnswer, [])
  {
    var session := new RagSession();
    reply := session.RagPipeline(question, hits, generate);
  }

  /** What a search for the `top_k = 3` nearest chunks reports over `n`
      stored chunks when it ranks them in document order: the first
      min(3, n) positions, padded with -1. */
  function TopThreeInOrder(n: nat): (hits: seq<int>)
    ensures |hits| == 3 && SearchPositions(hits, n)
  {
    seq(3, j => if j < n then j else -1)
  }

  /** The characters Python's `str.strip()` removes (`str.isspace`). */
  predicate IsSpace(c: char) {
    c == ' ' || '\t' <= c <= '\r' || '\U{1c}' <= c <= '\U{1f}' || c == '\U{85}' || c == '\U{a0}'
    || c == '\U{1680}' || '\U{2000}' <= c <= '\U{200a}' || c == '\U{2028}' || c == '\U{2029}'
    || c == '\U{202f}' || c == '\U{205f}' || c == '\U{3000}'
  }

  /** `question.strip() == ""`. */
  predicate IsBlank(question: string) {
    forall k :: 0 <= k < |question| ==> IsSpace(question[k])
  }

  /** How one run of the page ends after a document is uploaded. */
  datatype PageRun =
    | IndexFailed             // `build_faiss_index` raised; the run stops before the question box
    | BlankQuestion           // "Please enter a question." is shown instead of asking
    | Asked(reply: Reply)     // `rag_pipeline(question)` answered

  /** Uploading a document and asking about it, as the page does: the
      document is chunked with the default parameters and indexed; an
      empty document (no chunks, so no second embedding dimension) or an
      embedding service that does not answer makes the build raise, and
      the run stops there. A blank question is not passed on. Otherwise
      the search ranks the chunks in document order, the answer model gets
      the blocks of the first min(3, n) chunks and the sources cite them by
      rank; a document of more than 900 characters gets three sources. For
      a document of one or two chunks the search pads with -1, which this
      model drops where the code reads `chunks[-1]` and cites the last chunk
      again. */
  method UploadThenAsk(text: string, embedded: bool, question: string, generate: (string, string) -> string)
    returns (run: PageRun)
    ensures run.IndexFailed? <==> text == [] || !embedded
    ensures run.BlankQuestion? <==> text != [] && embedded && IsBlank(question)
    ensures run.Asked? ==>
              var cs := Chunked(text, DefaultChunkSize, DefaultOverlap);
              var top := cs[..Min(3, |cs|)];
              run.reply == Answer(generate(ContextOf(top), question), SourcesOf(top))
    ensures run.Asked? && 900 < |text| ==>
              run.reply.sources == [SourceLabel(1, 1), SourceLabel(2, 2), SourceLabel(3, 3)]
  {
    var session := new RagSession();
    var chunks := ChunkText(text, DefaultChunkSize, DefaultOverlap);
    if text == [] {
      ChunkEmptyText(DefaultChunkSize, DefaultOverlap);
    } else {
      ChunkCountSpec(|text|, DefaultChunkSize, DefaultOverlap, 0);
    }
    var built := session.BuildIndex(chunks, embedded);
    if !built {
      return IndexFailed;
    }
    if IsBlank(question) {
      return BlankQuestion;
    }
    var hits := TopThreeInOrder(|chunks|);
    var reply := session.RagPipeline(question, hits, generate);
    TopThreeRetrieved(chunks);
    if 900 < |text| {
      TopThreeSourcesOnLongText(text);
    }
    run := Asked(reply);
  }

  /** The corrected retrieval of the padded top-three result is the first
      min(3, n) stored chunks, in order. */
  lemma TopThreeRetrieved(chunks: seq<Chunk>)
    ensures RetrieveHits(chunks, TopThreeInOrder(|chunks|)) == chunks[..Min(3, |chunks|)]
  {
    HitsOfTopThree(|chunks|);
  }

  /** A text of more than 900 characters has at least three chunks with the
      defaults, and the first three carry the ids 1, 2, 3. */
  lemma TopThreeSourcesOnLongText(text: string)
    requires 900 < |text|
    ensures var cs := Chunked(text, DefaultChunkSize, DefaultOverlap);
            3 <= |cs| && SourcesOf(cs[..3]) == [SourceLabel(1, 1), SourceLabel(2, 2), SourceLabel(3, 3)]
  {
    var cs := Chunked(text, DefaultChunkSize, DefaultOverlap);
    ChunkCountSpec(|text|, DefaultChunkSize, DefaultOverlap, 2);
    ChunkShape(text, DefaultChunkSize, DefaultOverlap, 0);
    ChunkShape(text, DefaultChunkSize, DefaultOverlap, 1);
    ChunkShape(text, DefaultChunkSize, DefaultOverlap, 2);
  }

  /** The padded top-three result names exactly the first min(3, n) positions. */
  lemma HitsOfTopThree(n: nat)
    ensures Hits(TopThreeInOrder(n)) == seq(Min(3, n), j => j)
  {
    var h := TopThreeInOrder(n);
    var h1, h2 := h[1..], h[1..][1..];
    assert h2[1..] == [];
    assert Hits(h2) == (if h2[0] < 0 then [] else [h2[0]]);
    assert Hits(h1) == (if h1[0] < 0 then [] else [h1[0]]) + Hits(h2);
    assert Hits(h) == (if h[0] < 0 then [] else [h[0]]) + Hits(h1);
  }

  /** A rebuild is not atomic: when re-indexing fails (here, on an empty
      document), the global chunks are already replaced while the old index
      stays, so a position that index reports is no longer a stored chunk
      and the pipeline raises `IndexError` on the three-neighbour search
      result [1, 0, -1] of the old two-vector index. */
  method RebuildFailureKeepsStaleIndex(first: seq<Chunk>, question: string, generate: (string, string) -> string)
    returns (reply: Reply)
    requires |first| == 2
    ensures reply == ChunkIndexError(1)
  {
    var session := new RagSession();
    var ok := session.BuildIndex(first, true);
    ok := session.BuildIndex([], true);
    reply := session.RagPipeline(question, [1, 0, -1], generate);
  }

  /** With the code's retrieval, a one-chunk document searched for three
      neighbours (the search reports [0, -1, -1]) cites the same chunk
      three times. */
  lemma PaddedSearchCitesOneChunkThrice(c: Chunk)
    ensures SourcesOf(RetrieveChunks([c], [0, -1, -1]))
         == [SourceLabel(1, c.id), SourceLabel(2, c.id), SourceLabel(3, c.id)]
  {
    PaddedSearchRepeatsLastChunk(c);
  }

  /** With the filler dropped, the same search cites the chunk once. */
  lemma PaddedSearchCitesOnce(c: Chunk)
    ensures SourcesOf(RetrieveHits([c], [0, -1, -1])) == [SourceLabel(1, c.id)]
  {
    PaddedSearchDropped(c);
  }
}
