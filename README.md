# A verified model of the retrieval core of a PDF question-answering assistant

The assistant splits an uploaded document into overlapping chunks, indexes their
embeddings, and answers a question from the chunks nearest to it. This project models
the deterministic part of that pipeline, `rag_core.py`, in Dafny:

- `chunk_text`, the sliding-window chunker (module `Chunking`);
- `retrieve_chunks`, the mapping from reported search positions to stored chunks
  (module `Retrieval`);
- the loop of `rag_pipeline` that builds the grounding context and the source labels
  (module `Assembly`, with module `Decimal` for the rendering of integers in f-strings);
- the module globals `index` and `chunks`, as `build_faiss_index` replaces them and
  `rag_pipeline` reads them (class `Session.RagSession`).

The chunker is a method with a loop. It is proved equal to a closed-form definition,
`Chunked`: the k-th chunk has id k + 1 and covers the text from k·(chunkSize − overlap)
up to that start plus chunkSize, clipped to the text. The lemmas state the rest on that
definition: the chunk count, coverage, reassembly and the documented scenarios.
The session is a class with three fields:

- `ready`: the index exists;
- `indexSize`: the number of vectors in the index;
- `chunks`: the global chunk list.

Three parts of the pipeline are inputs, not models: the embedding service (whether it
answered), the vector search (the positions it reports) and the answer model
(a function of context and question).

The model follows what the code does, including where a more careful design would differ:

- no configuration error is raised for bad chunk parameters; the model uses a precondition;
- the session is not replaced atomically: `chunks` is assigned before embedding;
- the number of neighbours is not clamped to the index size: the search pads with -1.

## Model

| member | source | states |
|---|---|---|
| Chunking.ChunkText | rag_core.py:26-43 | for 0 < chunkSize and overlap < chunkSize the loop terminates and returns exactly `Chunked(text, chunkSize, overlap)`: chunk k (0-based) has id k + 1 and text `text[k*stride .. min(k*stride + chunkSize, |text|)]`, stride = chunkSize − overlap |
| Chunking.ChunkCountSpec | rag_core.py:31-40 | the loop guard `start < len(text)` holds after k iterations exactly when k < ceil(|text| / stride), so the loop produces ceil(|text| / stride) chunks |
| Chunking.ChunkEmptyText | rag_core.py:27-31 | chunking the empty text yields no chunks |
| Chunking.ChunkShape | rag_core.py:29-41 | chunk k has id k + 1 (ids are 1..n in order, without gaps); its text is non-empty, at most chunkSize long, and is the slice of the text at its window start |
| Chunking.ChunkFullWhenWindowFits | rag_core.py:32-33 | a chunk has exactly chunkSize characters if and only if its window fits inside the text |
| Chunking.ChunkAfterEndIsRedundant | rag_core.py:31-40 | a window that already reaches the end of the text can still be followed by another; that next chunk ends at the same position and adds no new character |
| Chunking.ChunksCover | rag_core.py:31-40 | with 0 <= overlap, every position p of the text lies in chunk p / stride, and that chunk holds the text's character p |
| Chunking.ChunksReassemble | rag_core.py:31-40 | with 0 <= overlap, the first chunk followed by every later chunk with its first `overlap` characters removed concatenates back to the text |
| Chunking.ChunkDefaultsOnThousand | rag_core.py:26-43 | a 1000-character text with sizes 500/50 gives exactly the chunks [0,500), [450,950), [900,1000) with ids 1, 2, 3 |
| Chunking.ChunkDefaultsOnNineHundredForty | rag_core.py:26-43 | a 940-character text with sizes 500/50 gives [0,500), [450,940), [900,940) |
| Chunking.LoopStartIsStart | rag_core.py:28-40 | for valid parameters, `start` after k iterations of the loop's own update `start = end - overlap` is the window start k·stride of the closed form |
| Chunking.ChunkDivergesOnBadOverlap | rag_core.py:28-40 | when overlap >= chunkSize, `start` after any number of iterations of the loop's update is at most 0, so on a non-empty text the guard `start < len(text)` always holds and the loop never ends |
| Decimal.DecimalRoundTrip | rag_core.py:135-136 | reading back the decimal rendering of a natural number gives the number |
| Decimal.IntToDecimalInjective | rag_core.py:136 | distinct integers render to distinct strings |
| Retrieval.RetrieveChunks | rag_core.py:90-91 | one chunk per reported position, in order: entry j is `chunks[indices[j]]`, counting from the end for a negative position, as Python indexing does |
| Retrieval.RetrieveChunksAppend | rag_core.py:91 | retrieving a concatenation of position lists is the concatenation of the retrievals |
| Retrieval.RetrieveAllPositions | rag_core.py:91 | retrieving the positions 0..n−1 in order gives back the stored chunks |
| Retrieval.PaddedSearchRepeatsLastChunk | rag_core.py:84-91 | with one stored chunk and the padded search result [0, -1, -1], the code returns that chunk three times |
| Retrieval.RetrieveHits | rag_core.py:84-91 | the corrected retrieval: one chunk per non-negative reported position, in order; entry j is the chunk at the j-th such position |
| Retrieval.RetrieveHitsAgrees | rag_core.py:90-91 | on a search result without -1 filler, the corrected retrieval equals the code's retrieval |
| Retrieval.RetrieveHitsDistinct | rag_core.py:84-91 | if the search reports distinct positions and the chunk ids are distinct, the corrected retrieval never returns one chunk twice |
| Retrieval.PaddedSearchDropped | rag_core.py:84-91 | with one stored chunk and the search result [0, -1, -1], the corrected retrieval returns the chunk once |
| Assembly.AssembleContext | rag_core.py:131-136 | the loop yields `context == ContextOf(retrieved)`, the rank-ordered concatenation of the blocks "[Source j]\n" + text + "\n\n", and `sources == SourcesOf(retrieved)`, whose entry j−1 is "Source j – Chunk id" with an en dash |
| Assembly.ContextPrefix | rag_core.py:134-135 | the context of the first i retrieved chunks is a prefix of the whole context: blocks are only appended |
| Assembly.ContextBlockAt | rag_core.py:134-135 | the block of rank j+1 starts where the context of the chunks ranked before it ends, and the chunk's text follows right after its "[Source j+1]" line |
| Assembly.SourceLabelInjective | rag_core.py:136 | a source label determines both its rank and the chunk id it cites |
| Assembly.SourcesDistinct | rag_core.py:132-136 | the sources list has one entry per retrieved chunk, and no two entries are equal |
| Session.FirstMissing | rag_core.py:91 | finds a reported position at or beyond the stored chunk count exactly when one exists, and then the first one, where the comprehension's `chunks[i]` raises `IndexError` |
| Session.RagSession.constructor | rag_core.py:8-9 | the initial state: no index and no chunks |
| Session.RagSession.BuildIndex | rag_core.py:61-71 | the global chunks always become `new_chunks`. The build succeeds exactly when embedding succeeded and the list is non-empty; success leaves a non-empty index with one vector per chunk. Failure leaves the previous index. Once ready, the session stays ready |
| Session.RagSession.RagPipeline | rag_core.py:119-143 | without an index, the answer is "No document uploaded yet." with no sources. Otherwise the answer is the answer model applied to the context of the retrieved chunks, with their sources. A reported position past the stored chunks gives `IndexError` at the first such position. A consistent session always answers (failures of the embedding and answer services are not modelled) |
| Session.AskWithoutDocument | rag_core.py:120-124 | a fresh session answers the fixed message with empty sources, whatever the search and the answer model would return |
| Session.TopThreeInOrder | rag_core.py:84-86 | the result of the `top_k = 3` search over n stored chunks ranked in document order: three entries, each a stored position or -1 |
| Session.UploadThenAsk | app.py:24-45 | one page run after an upload: the build raises, and the run stops before the question, exactly when the document is empty or the embedding service does not answer; a blank question (`question.strip() == ""`) is answered by the warning and never reaches the pipeline. Otherwise, with the search ranking chunks in document order, the answer model gets the context of the first min(3, n) chunks and the sources cite them by rank; a document over 900 characters gets the three sources "Source j – Chunk j", j = 1..3 |
| Session.TopThreeRetrieved | rag_core.py:84-91 | on the padded top-three search result over n stored chunks in document order, the corrected retrieval returns exactly the first min(3, n) chunks, in order |
| Session.TopThreeSourcesOnLongText | rag_core.py:26-43 | a text of more than 900 characters has at least three chunks with the defaults 500/50, and the first three are cited as "Source j – Chunk j", j = 1..3 |
| Session.RebuildFailureKeepsStaleIndex | rag_core.py:61-71 | after a two-chunk index, a failed rebuild on an empty document leaves the old index beside the new, empty chunks; the three-neighbour search result [1, 0, -1] of the old index then ends in `IndexError` at position 1 |
| Session.PaddedSearchCitesOneChunkThrice | rag_core.py:84-136 | with the code's retrieval, a one-chunk document searched with result [0, -1, -1] yields the sources "Source 1/2/3 – Chunk id", all citing the same chunk |
| Session.PaddedSearchCitesOnce | rag_core.py:84-136 | with the corrected retrieval, the same search yields the single source "Source 1 – Chunk id" |

## Findings

| source | as written | input that shows it | evidently intended | confidence | as-written member | corrected member |
|---|---|---|---|---|---|---|
| rag_core.py:84-91 | `search_faiss` passes the search labels through unchanged, and `retrieve_chunks` indexes `chunks` with them. The flat FAISS index marks a missing neighbour with -1, and Python's `chunks[-1]` is the last chunk | a document of at most 450 characters (one chunk), with top_k = 3: the search reports [0, -1, -1], so the context repeats the chunk three times and the sources cite Chunk 1 as Sources 1, 2 and 3 | only real neighbours are retrieved, so the chunk is cited once | medium, not executed; it rests on the -1 padding of the search library, whose code is not part of this model | Session.PaddedSearchCitesOneChunkThrice | Session.PaddedSearchCitesOnce |

`RagSession.RagPipeline` uses the corrected retrieval `RetrieveHits`.
`Retrieval.RetrieveHitsAgrees` shows that it coincides with the code's retrieval
whenever the search reports no filler.

## Left out

- `load_pdf` (rag_core.py:13-22): PDF text extraction through a foreign library. The document text is an input.
- `embed_texts` and `embed_query` (rag_core.py:47-57, 75-80): remote embedding calls producing float vectors. Embeddings are not modelled. The outcome of embedding a chunk list is the boolean `embedded` of `BuildIndex`, and ragged or failed responses are folded into it.
- `search_faiss` (rag_core.py:84-86): a float L2 nearest-neighbour search inside a foreign library. Its result is the input `hits`: each entry is a stored position or -1. The fixed `top_k = 3` is not imposed; any number of hits is accepted.
- `ask_llama` (rag_core.py:95-115): a prompt template and a remote chat call. It is the input function `generate(context, question)`; the prompt wording is not modelled.
- Session.RagSession.RagPipeline: drops -1 filler positions instead of reading `chunks[-1]` (see Findings); it equals the code whenever the search reports no filler.
- Retrieval.RetrieveChunks: requires every position to lie in -|chunks| .. |chunks|−1. Python raises `IndexError` outside that range, and that exception is not modelled here; the pipeline models the out-of-range case as `ChunkIndexError`.
- Chunking.ChunkText: requires 0 < chunkSize and overlap < chunkSize. For overlap >= chunkSize the code loops forever on a non-empty text, which `ChunkDivergesOnBadOverlap` states. Two other cases are excluded: a chunk size of 0 with a negative overlap, where the loop ends and emits empty chunks; and a negative chunk size, where the slice end counts from the end of the text.
- A configuration error for bad chunk parameters, an atomic replacement of the session and checks on embedding dimensions: the code has none of them, so none is modelled. `BuildIndex` states the non-atomic behaviour the code has.
- Session.UploadThenAsk: for a document of one or two chunks, the search's -1 padding is dropped by the corrected retrieval, where the code reads `chunks[-1]` and cites the last chunk again (see Findings).
- `app.py`: the Streamlit page widgets (spinners, the success message, the text input and button, the rendering of the answer and sources) are not modelled. `Session.UploadThenAsk` follows one run after an upload: the build, the blank-question check and the call to the pipeline. The state Streamlit keeps across reruns is not modelled; each run starts from a fresh session.
- Session.UploadThenAsk: a build that raises is modelled as the outcome `IndexFailed`. The exception itself, and the page's error display, are not modelled.
- Session.RagSession.RagPipeline: the query-side remote calls are not modelled as able to fail. `embed_query` (rag_core.py:75-80) and `ask_llama` (rag_core.py:95-115) raise out of `rag_pipeline` when their service fails. In the model the search result `hits` is always present and `generate` is a total function, so "a consistent session always answers" holds only under that assumption.
