# Page chunking and retrieval core, modelled in Dafny

The backend turns a web page into searchable text units. It answers a query by
nearest-neighbour lookup over their embeddings. This project models the parts of
the backend with real logic:

- **The chunk packer**, `chunk_elements` (module `Extractor`). It packs the page's
  `(text, html)` elements greedily into chunks whose summed token count stays
  within a budget. An element that alone exceeds the budget is cut at word
  boundaries instead, and a piece is emitted each time the re-tokenized prefix
  reaches the budget.
- **The `/search` handler** after the page is fetched and parsed (module
  `Handler`). It packs the elements with a budget of 500 and returns an
  empty result list when there are no chunks. Otherwise it asks a nearest-neighbour index for
  `min(10, n)` neighbours, maps each answered index back to its chunk, sorts the
  results by distance and keeps ten.
- **The persistent Weaviate store** (module `Store`):
  - stable object ids, `uuid5(sha256(f"{url}-{idx}"))`;
  - the object list `upsert_chunks` writes;
  - creating collection `Chunk` only when it is absent;
  - the formatting of `search_query` results;
  - the end state of `close_client`.

Supporting modules:

- `Seqs`: `Option`, `Result` (a value or the exception raised), `Flatten`, Python's `s[:n]`, `min`.
- `Text`: `sep.join`, `str.split()` over the characters Python's `str.isspace`
  accepts, and `str(n)`.

External collaborators become parameters:

- the tokenizer: `count: string -> nat`, with no additivity assumed;
- the embedding model and the flat L2 index: `knn`, which takes the chunk texts
  and `k` and returns the distances `D` and indices `I`. The request's query and
  its embedding (main.py:52) are fixed inside `knn`, so `Handler.Search` takes
  no query argument;
- the embedding function of the store: `embed`;
- SHA-256 and uuid5: `Hashing`;
- the store's own ranking: `ranked`, a sequence of (id, distance) pairs;
- the exception a store call may raise: an `Option<string>`.

The packer is a left fold, `Extractor.Run`. Besides the source's accumulator
state, it records where every emitted chunk came from:

- a `Packed` piece is a flushed accumulator;
- a `Part` piece is a word group cut from an oversized element.

`Extractor.ChunkElements` and `Extractor.SplitOversized` follow the Python loops
statement by statement. Both are proved to produce exactly the rendering of
that fold.

### Behaviour a caller may not expect

The model keeps each of these as the code has it:

- **No flush before splitting.** An oversized element is split without first
  flushing the pending accumulator. Its pieces are therefore emitted ahead of
  earlier, still-pending elements, so chunk order is not document order
  (`Extractor.OversizedOvertakesPending`).
- **Blank elements are kept by the packer.** `chunk_elements` itself does not
  skip an element with empty text: a lone one yields a chunk with empty text
  (`Extractor.BlankElementIsPacked`). This only matters for direct callers of
  `chunk_elements`. On the `/search` path, `parse_elements` already drops
  elements whose stripped text is empty (extractor.py:21-23).
- **Pieces can exceed the budget.** A word group is emitted once its token
  count reaches the budget (`>=` at extractor.py:47), not before the word that
  overflows it. A piece cut from an oversized element can therefore exceed the
  budget even when every word fits alone (`Extractor.SubChunkCanExceedBudget`).
- **The accumulator bound is on summed counts.** For accumulator chunks, the
  budget bounds the sum of the members' token counts (`SumCounts`), not the
  count of the joined text.

## Model

| member | source | states |
|---|---|---|
| Text.Split | backend/app/extractor.py:42 | `str.split()`: maximal runs of non-whitespace; its contract is `Text.SplitYieldsWords`, `Text.SplitCollapses` and `Text.SplitDetermined` |
| Text.IsSpace | backend/app/extractor.py:42 | the characters `str.isspace` accepts, the separators of `str.split()`; its contract is `Text.SplitYieldsWords` |
| Text.SplitCollapses | backend/app/extractor.py:42 | for every text, `" ".join(s.split())` is the text with leading and trailing whitespace removed and every inner whitespace run replaced by one space (`Text.Collapse`), so no other character is lost, added or moved |
| Text.SplitDetermined | backend/app/extractor.py:42 | `s.split()` is the only list of words whose space-join is that collapsed text, so the two lemmas above fix `str.split()` on every input |
| Text.Join | backend/app/extractor.py:48 | `sep.join(parts)`, used at lines 48, 52, 61 and 68; `Text.SplitJoin` is its partner |
| Seqs.Take | backend/app/main.py:66 | `results[:10]` is a prefix of at most `n` items, and all of them when there are fewer |
| Text.SplitYieldsWords | backend/app/extractor.py:42 | every piece of `str.split()` is non-empty and free of whitespace |
| Text.SplitJoin | backend/app/extractor.py:42-52 | splitting the space-join of words gives back those words, so a sub-chunk's text re-splits into the words it was cut from |
| Text.Decimal | backend/app/vector_store_weaviate.py:60 | `str(idx)` is a non-empty digit string with no leading zero |
| Text.DecimalInjective | backend/app/vector_store_weaviate.py:60 | distinct indices give distinct numerals |
| Extractor.ChunkTexts | backend/app/main.py:43 | `[c["text"] for c in chunks]` has one text per chunk, in order |
| Extractor.GroupsIsGreedy | backend/app/extractor.py:42-52 | the word loop's groups and remainder re-assemble the words in order; each emitted group is the shortest prefix of the remaining words that reaches the budget; the remainder never reaches it |
| Extractor.GreedySplitUnique | backend/app/extractor.py:42-52 | at most one split of a word list meets that description, so it fully characterises the word loop's output |
| Extractor.PartsSpec | backend/app/extractor.py:40-53 | an oversized element's pieces lose, duplicate and reorder no word; each piece is non-empty and carries the element's html |
| Extractor.PartsEmpty | backend/app/extractor.py:42-53 | an oversized element yields a piece exactly when its text has a word |
| Extractor.Parts | backend/app/extractor.py:40-53 | the sub-chunks of an oversized element, one per word group of its text; its contract is `Extractor.PartsSpec` and `Extractor.PartsEmpty` |
| Extractor.Groups | backend/app/extractor.py:42-52 | the word loop over the remaining words with `cur` accumulated; its contract is `Extractor.GroupsIsGreedy` and `Extractor.GreedySplitUnique` |
| Extractor.Run | backend/app/extractor.py:37-65 | the element loop over a prefix of the elements, as a left fold of `Step`; its contract is `Extractor.RunKeepsInvariant` and `Extractor.RunKeepsFlushInvariant` |
| Extractor.Step | backend/app/extractor.py:37-65 | one iteration of the element loop; its contract is the three step lemmas below and `Extractor.RunKeepsFlushInvariant` |
| Extractor.Plan | backend/app/extractor.py:31-70 | the pieces of the whole loop plus the final flush of line 67; its contract is `Extractor.PlanSpec`, `Extractor.PlanRunsSpec` and `Extractor.PlanRunsUnique` |
| Extractor.Render | backend/app/extractor.py:48-68 | turns a piece into the chunk dictionary the source appends; its contract is `Extractor.PackSpec` |
| Extractor.OversizedStepKeepsInvariant | backend/app/extractor.py:40-53 | an oversized element appends its pieces and leaves the accumulator untouched, keeping the loop invariant |
| Extractor.AppendStepKeepsInvariant | backend/app/extractor.py:55-58 | adding a fitting element to an accumulator with room keeps the loop invariant |
| Extractor.FlushStepKeepsInvariant | backend/app/extractor.py:59-65 | a flush emits the non-empty accumulator and starts a new one with the current element, keeping the loop invariant |
| Extractor.RunKeepsInvariant | backend/app/extractor.py:37-65 | after any prefix of the elements: every flushed accumulator is non-empty, its members fit, and their summed counts are within budget; the members of flushed and pending accumulators are exactly the fitting elements in input order; the pieces are exactly the oversized elements' pieces in input order |
| Extractor.PlanSpec | backend/app/extractor.py:31-70 | with the final flush, the accumulator chunks hold every fitting element exactly once, in input order, within budget; the remaining chunks are the oversized elements' pieces in input order |
| Extractor.PackSpec | backend/app/extractor.py:31-70 | every accumulator chunk joins the texts of a non-empty run of fitting elements with spaces and their htmls with line breaks, and these runs, in emission order, tile the fitting elements; every other chunk is the space-join of a sub-chunk's words with its element's html, in input order |
| Extractor.RunKeepsFlushInvariant | backend/app/extractor.py:55-65 | throughout the loop: no accumulator is flushed before a fitting element arrives; each flushed one could not absorb the next fitting element (summed count plus its count over budget); the last flushed one could not absorb the first pending element |
| Extractor.PlanRunsSpec | backend/app/extractor.py:31-70 | the accumulator runs of the output tile the fitting elements, are non-empty and within budget, and each was closed only because the next fitting element would overflow it, even with sub-chunks emitted in between |
| Extractor.GreedyRunsUnique | backend/app/extractor.py:55-65 | two groupings of the same elements that are within budget and follow that flush rule are equal |
| Extractor.PlanRunsUnique | backend/app/extractor.py:31-70 | any grouping of the fitting elements that tiles them, stays within budget and follows the flush rule is exactly the packer's accumulator chunks |
| Extractor.OversizedPlacement | backend/app/extractor.py:37-68 | an oversized element's sub-chunks come right after the chunks flushed before it arrived, and the elements still pending when it arrived open the accumulator chunks emitted after them |
| Extractor.Pack | backend/app/extractor.py:31-70 | no elements give no chunks; one chunk per piece of the plan |
| Extractor.PackEmpty | backend/app/extractor.py:31-70 | packing gives no chunk exactly when every element is oversized and has no word |
| Extractor.OversizedOvertakesPending | backend/app/extractor.py:40-58 | a fitting element followed by an oversized one gives the oversized element's pieces first, then the fitting element's chunk |
| Extractor.ThreeElementScenario | backend/app/extractor.py:55-68 | elements of 120, 150 and 200 tokens with budget 250 give three one-element chunks |
| Extractor.BlankElementIsPacked | backend/app/extractor.py:55-68 | a lone element with empty text becomes a chunk with empty text |
| Extractor.SubChunkCanExceedBudget | backend/app/extractor.py:44-50 | two 3-token words joining to 6 tokens, with budget 5, leave as one 6-token chunk |
| Extractor.SplitOversized | backend/app/extractor.py:42-52 | the word loop as written emits exactly the pieces of the greedy split |
| Extractor.ChunkElements | backend/app/extractor.py:31-70 | the loop as written, with its text, html and count accumulators, returns exactly the packed chunks |
| Handler.Search | backend/app/main.py:41-66 | the handler after the page is parsed; no chunks give the empty list, and a success holds at most ten hits; the full contract is `Handler.SearchSpec` |
| Handler.SortByScore | backend/app/main.py:65 | `sorted(results, key=score)` as a stable insertion sort; its contract is `Handler.SortByScoreSpec` |
| Handler.SearchWidth | backend/app/main.py:53 | `k` is at most 10 and at most the number of texts, and equals one of them |
| Handler.PyIndex | backend/app/main.py:59-60 | a list index is valid exactly when `-n <= idx < n`, and a negative one counts from the end |
| Handler.BuildResults | backend/app/main.py:55-62 | the results loop fails exactly when some index of the zipped pairs is out of range; otherwise it gives one hit per pair, carrying that chunk's text and html and the distance |
| Handler.SortByScoreSpec | backend/app/main.py:65 | `sorted(..., key=score)` is ascending, a permutation of its input, and stable: hits of equal score keep their order |
| Handler.SearchWithoutChunks | backend/app/main.py:43-45 | with no chunks the answer is the empty list, whatever the index would answer |
| Handler.SortAndTakeSpec | backend/app/main.py:65-66 | the returned list is a prefix of the sorted results, holds `min(10, n)` of them, is ascending, and is a sub-multiset of the results |
| Handler.ResultsComeFromChunks | backend/app/main.py:55-62 | every returned hit carries the text and html of one chunk |
| Handler.SearchSpec | backend/app/main.py:41-66 | with chunks, the handler fails exactly when the index answers an out-of-range position; otherwise it returns at most ten sorted hits, each from a chunk |
| Handler.TakeSortedKeepsAll | backend/app/main.py:65-66 | with at most ten results, `[:10]` of the sorted list is the whole sorted list, a permutation of the results |
| Handler.TruncationKeepsAll | backend/app/main.py:53-66 | when the index answers at most `k` neighbours, the final slice to ten drops no result |
| Handler.PackEmptyThenNoResults | backend/app/main.py:42-45 | when every element is oversized and wordless, the search answers an empty list |
| Store.IdKey | backend/app/vector_store_weaviate.py:60 | the hashed string `f"{url}-{idx}"`; its contract is `Store.IdKeyInjective` |
| Store.IdKeyInjective | backend/app/vector_store_weaviate.py:60 | the hashed string `f"{url}-{idx}"` determines both the url and the index |
| Store.DeterministicIdInjective | backend/app/vector_store_weaviate.py:57-62 | with collision-free hashes, distinct (url, index) pairs never share an id |
| Store.ChunkProperties | backend/app/vector_store_weaviate.py:78-82 | the properties dict of an upserted object: the chunk's text and html and the url; its contract is `Store.BuildObjects` and `Store.UpsertStoresChunks` |
| Store.BuildObjects | backend/app/vector_store_weaviate.py:72-86 | one object per zipped (chunk, vector) pair, holding the chunk's text and html, the url, the vector and `deterministic_id(url, i)` |
| Store.DeterministicId | backend/app/vector_store_weaviate.py:57-62 | `uuid5(NAMESPACE_DNS, sha256(f"{url}-{idx}"))`, a function of (url, idx) alone; its contract is `Store.DeterministicIdInjective` |
| Store.InsertMany | backend/app/vector_store_weaviate.py:88 | `insert_many`, one object after the other, a later one overwriting an earlier one with the same id; its contract is `Store.InsertManyOverrides`, `Store.BatchKeys` and `Store.BatchHoldsLastObject` |
| Store.InsertManyOverrides | backend/app/vector_store_weaviate.py:88 | inserting a batch equals `objects + Batch(objs)`: the ids the batch carries are overwritten and every other entry kept |
| Store.BatchKeys | backend/app/vector_store_weaviate.py:88 | a batch writes exactly the ids of its objects |
| Store.BatchHoldsLastObject | backend/app/vector_store_weaviate.py:88 | under each id the batch writes the last object carrying that id: an object no later object shares its id with is stored as it is |
| Store.InsertManyIdempotent | backend/app/vector_store_weaviate.py:88 | inserting the same batch twice leaves the store as inserting it once |
| Store.EnsureSchema | backend/app/vector_store_weaviate.py:36-51 | an existing collection `Chunk` is left unchanged; an absent one is created with text, html and url properties and no vectorizer; only a failed creation fails, with message `Failed to ensure schema: ...` |
| Store.EnsureSchemaIdempotent | backend/app/vector_store_weaviate.py:40-49 | a second call after a successful one changes nothing and cannot fail |
| Store.UpsertChunks | backend/app/vector_store_weaviate.py:64-90 | an upsert fails exactly when ensuring the schema fails or a later store or embedding call raises, with message `Failed to upsert chunks: ` followed by that exception's message |
| Store.UpsertIdempotent | backend/app/vector_store_weaviate.py:57-88 | upserting the same page twice leaves the store as upserting it once |
| Store.BuildObjectsIds | backend/app/vector_store_weaviate.py:73-84 | the objects built for a page carry exactly the ids `deterministic_id(url, 0..n-1)` for the `n` zipped pairs |
| Store.UpsertWrites | backend/app/vector_store_weaviate.py:64-90 | a successful upsert inserts the built batch into collection `Chunk` and leaves every other collection unchanged |
| Store.UpsertFrame | backend/app/vector_store_weaviate.py:64-90 | an upsert touches only collection `Chunk`, adds exactly the ids `deterministic_id(url, 0..n-1)`, and leaves every other object unchanged |
| Store.UpsertStoresChunks | backend/app/vector_store_weaviate.py:72-88 | with collision-free hashes, after an upsert the id of chunk `i` holds that chunk's text, html, url and vector |
| Store.Get | backend/app/vector_store_weaviate.py:109-111 | `dict.get` answers the value exactly when the key is present |
| Store.FormatResults | backend/app/vector_store_weaviate.py:104-113 | one formatted entry per returned object, with its uuid, its distance as score, and its text, html and url properties |
| Store.NearVector | backend/app/vector_store_weaviate.py:98-103 | `near_vector` answers the first `min(top_k, ranked)` ranked objects, in rank order, each with its uuid, its distance, and exactly the requested properties it has stored |
| Store.SearchQuery | backend/app/vector_store_weaviate.py:92-115 | a query fails exactly when ensuring the schema fails or a later embedding or store call raises, with message `Failed to search query: ` followed by that exception's message; otherwise it answers `min(top_k, ranked)` entries |
| Store.RequestedChunkProperties | backend/app/vector_store_weaviate.py:102 | requesting text, html and url returns all of a chunk object's stored properties |
| Store.FormatStoredChunk | backend/app/vector_store_weaviate.py:98-113 | a hit on an object stored from a chunk is formatted with that chunk's text and html, the url and the reported distance |
| Store.UpsertThenSearch | backend/app/vector_store_weaviate.py:64-113 | a query hit on the id of chunk `i` after an upsert reads back that chunk's text and html, the url and the reported distance |
| Store.CloseClient | backend/app/vector_store_weaviate.py:20-29 | the global client is `None` afterwards whether or not `close()` raised, and `close()` is called exactly when there was a client |

## Left out

- `fetch_html` and `parse_elements` (HTTP fetch and HTML parsing): outside this core. The handler starts from the element list.
- The tokenizer, the embedding model and the FAISS flat L2 index: replaced by the parameters `count`, `knn` and `embed`. Distances are only compared, never computed, so floating-point arithmetic (and NaN ordering in `sorted`) is not modelled.
- Handler.Search: `count` and `knn` are total functions, so the model cannot fail in the tokenizer, the embedding model or the FAISS index. In the source, an exception there (main.py:42-53) propagates out of `search`; the model's only failure is an out-of-range index.
- Extractor.ChunkElements: `count` cannot fail, so an exception from the tokenizer (extractor.py:38, 46) is not modelled.
- `get_client`, `is_ready` and connection handling: network I/O. The store is a value passed in and returned.
- The FastAPI routing, the request models, the `print` of the request, and the mapping of exceptions to HTTP status codes: framework glue.
- `embed_texts` and `EMBED_DIM`: the embedding model is the parameter `embed`.
- Store.EnsureSchema: an exception raised by `collections.exists` is not modelled; only the creation call may fail.
- Store.UpsertChunks: on failure the model returns only the message, not the store's state. Objects `insert_many` may have written before raising, and per-object errors it reports without raising, are not modelled. The store is assumed to overwrite an object whose id is already present; the module relies on this but does not enforce it.
- Store.SearchQuery: the ranking is taken as the store's answer. The model does not compute it from the query vector.
- Store.DeterministicIdInjective: collision-freedom of SHA-256 and uuid5 is a precondition, not a proven property.
- Extractor.PlanSpec: the budget bounds the sum of the members' token counts, not `count(chunk.text)`, because the source never tokenizes the joined text of an accumulator chunk.
- String encoding (`.encode()` before hashing) is inside the opaque `Hashing` functions.
- `vector_search.py` is not part of this model. The handler's use of it is the parameter `knn`.
- The frontend (`App.jsx`): presentation only.
