/** The persistent store of backend/app/vector_store_weaviate.py: stable object
    ids, the object list `upsert_chunks` sends, lazy schema creation, the
    formatting of `search_query` results and the end state of `close_client`.

    The store is a map from collection name to collection, and a collection's
    objects a map from id to stored object. Inserting an object whose id is
    already present overwrites it: this is what the module relies on
    `insert_many` to do and is an assumption about the store, not something the
    module itself enforces. SHA-256 and uuid5 are opaque functions (`Hashing`);
    the embedding model is the function `embed`; the store's nearest-neighbour
    ranking is the sequence `ranked` of (id, distance) pairs it answers with. */
module Store {
  import opened Seqs
  import opened Text
  import opened Extractor

  type Id = string
  type Vector = seq<real>

  /** `hashlib.sha256(...).hexdigest()` and `uuid.uuid5(uuid.NAMESPACE_DNS, ...)`. */
  datatype Hashing = Hashing(sha256Hex: string -> string, uuid5Dns: string -> Id)

  ghost predicate Injective(f: string -> string)
  {
    forall x, y :: f(x) == f(y) ==> x == y
  }

  ghost predicate HashesInjective(h: Hashing)
  {
    Injective(h.sha256Hex) && Injective(h.uuid5Dns)
  }

  // ---------------------------------------------------------------------------
  // deterministic_id

  /** The string `f"{url}-{idx}"` that is hashed. */
  function IdKey(url: string, idx: nat): string
  {
    url + "-" + Decimal(idx)
  }

  /** If a longer prefix ends before a dash, that dash falls inside the shorter prefix's suffix. */
  lemma DashInSuffix(a: string, d: string, b: string, e: string)
    requires a + "-" + d == b + "-" + e
    requires |a| < |b|
    ensures d[|b| - |a| - 1] == '-'
  {
    var k := a + "-" + d;
    assert k[|b|] == (b + "-" + e)[|b|] == '-';
    assert k[|b|] == d[|b| - |a| - 1];
  }

  /** The hashed string determines the url and the index: the index's numeral
      holds no dash, so the last dash of the key is the one after the url. */
  lemma IdKeyInjective(u1: string, i1: nat, u2: string, i2: nat)
    requires IdKey(u1, i1) == IdKey(u2, i2)
    ensures u1 == u2 && i1 == i2
  {
    var k := IdKey(u1, i1);
    var d1, d2 := Decimal(i1), Decimal(i2);
    assert k == u1 + "-" + d1 == u2 + "-" + d2;
    if |u1| < |u2| {
      DashInSuffix(u1, d1, u2, d2);
      assert false;
    } else if |u2| < |u1| {
      DashInSuffix(u2, d2, u1, d1);
      assert false;
    }
    assert u1 == k[..|u1|] == u2;
    assert d1 == k[|u1| + 1..] == d2;
    DecimalInjective(i1, i2);
  }

  /** `deterministic_id(url, idx)`: a function of `(url, idx)` alone. */
  function DeterministicId(h: Hashing, url: string, idx: nat): Id
  {
    h.uuid5Dns(h.sha256Hex(IdKey(url, idx)))
  }

  /** With injective hashes, different (url, index) pairs never share an id. */
  lemma DeterministicIdInjective(h: Hashing, u1: string, i1: nat, u2: string, i2: nat)
    requires HashesInjective(h)
    requires DeterministicId(h, u1, i1) == DeterministicId(h, u2, i2)
    ensures u1 == u2 && i1 == i2
  {
    IdKeyInjective(u1, i1, u2, i2);
  }

  // ---------------------------------------------------------------------------
  // Objects and the store

  /** `DataObject(properties=..., vector=..., uuid=...)`. */
  datatype DataObject = DataObject(properties: map<string, string>, vector: Vector, uuid: Id)

  datatype Stored = Stored(properties: map<string, string>, vector: Vector)

  /** Every property is declared with data type TEXT. */
  datatype PropertyDef = PropertyDef(name: string)

  /** `ownVectors`: the collection is created with no vectorizer, so the caller supplies vectors. */
  datatype Collection = Collection(properties: seq<PropertyDef>, ownVectors: bool, objects: map<Id, Stored>)

  datatype Db = Db(collections: map<string, Collection>)

  const ClassName: string := "Chunk"

  /** The collection `ensure_schema` creates. */
  const NewChunkCollection: Collection :=
    Collection([PropertyDef("text"), PropertyDef("html"), PropertyDef("url")], true, map[])

  /** The properties stored for a chunk of the page at `url`. */
  function ChunkProperties(c: Chunk, url: string): map<string, string>
  {
    map["text" := c.text, "html" := c.html, "url" := url]
  }

  /** The loop of lines 73-86 from position `start` of `enumerate(zip(chunks, vectors))`. */
  function BuildObjects(chunks: seq<Chunk>, vectors: seq<Vector>, url: string, h: Hashing, start: nat): (objs: seq<DataObject>)
    ensures |objs| == Min(|chunks|, |vectors|)
    ensures forall i :: 0 <= i < |objs| ==>
      objs[i] == DataObject(ChunkProperties(chunks[i], url), vectors[i], DeterministicId(h, url, start + i))
    decreases |chunks|
  {
    if chunks == [] || vectors == [] then []
    else
      [DataObject(ChunkProperties(chunks[0], url), vectors[0], DeterministicId(h, url, start))]
      + BuildObjects(chunks[1..], vectors[1..], url, h, start + 1)
  }

  /** `coll.data.insert_many(objects)`, one object after the other, a later
      object overwriting an earlier one with the same id. */
  function InsertMany(objects: map<Id, Stored>, objs: seq<DataObject>): map<Id, Stored>
    decreases |objs|
  {
    if objs == [] then objects
    else InsertMany(objects[objs[0].uuid := Stored(objs[0].properties, objs[0].vector)], objs[1..])
  }

  /** What a batch writes: each id it carries, with the last object carrying it. */
  function Batch(objs: seq<DataObject>): map<Id, Stored>
  {
    InsertMany(map[], objs)
  }

  /** A batch overwrites exactly the ids it carries and keeps all other entries. */
  lemma {:induction false} InsertManyOverrides(objects: map<Id, Stored>, objs: seq<DataObject>)
    ensures InsertMany(objects, objs) == objects + Batch(objs)
    decreases |objs|
  {
    if objs != [] {
      var o := objs[0];
      var s := Stored(o.properties, o.vector);
      InsertManyOverrides(objects[o.uuid := s], objs[1..]);
      InsertManyOverrides(map[o.uuid := s], objs[1..]);
      assert map[][o.uuid := s] == map[o.uuid := s];
      assert objects[o.uuid := s] == objects + map[o.uuid := s];
      assert objects + (map[o.uuid := s] + Batch(objs[1..])) == (objects + map[o.uuid := s]) + Batch(objs[1..]);
    }
  }

  /** The ids a batch writes are exactly the ids of its objects. */
  lemma {:induction false} BatchKeys(objs: seq<DataObject>)
    ensures Batch(objs).Keys == set i | 0 <= i < |objs| :: objs[i].uuid
    decreases |objs|
  {
    if objs != [] {
      var o := objs[0];
      InsertManyOverrides(map[o.uuid := Stored(o.properties, o.vector)], objs[1..]);
      BatchKeys(objs[1..]);
      assert map[][o.uuid := Stored(o.properties, o.vector)] == map[o.uuid := Stored(o.properties, o.vector)];
      var rest := set i | 0 <= i < |objs[1..]| :: objs[1..][i].uuid;
      var all := set i | 0 <= i < |objs| :: objs[i].uuid;
      assert all == {o.uuid} + rest by {
        forall x | x in all ensures x in {o.uuid} + rest {
          var i :| 0 <= i < |objs| && objs[i].uuid == x;
          if i > 0 {
            assert objs[1..][i - 1].uuid == x;
          }
        }
        forall x | x in rest ensures x in all {
          var i :| 0 <= i < |objs[1..]| && objs[1..][i].uuid == x;
          assert objs[i + 1].uuid == x;
        }
      }
    }
  }

  /** The batch stores under an id the last object carrying it: an object no
      later object of the batch shares its id with is stored as it is. */
  lemma {:induction false} BatchHoldsLastObject(objs: seq<DataObject>, i: nat)
    requires i < |objs|
    requires forall j :: i < j < |objs| ==> objs[j].uuid != objs[i].uuid
    ensures objs[i].uuid in Batch(objs)
    ensures Batch(objs)[objs[i].uuid] == Stored(objs[i].properties, objs[i].vector)
    decreases |objs|
  {
    var o := objs[0];
    InsertManyOverrides(map[o.uuid := Stored(o.properties, o.vector)], objs[1..]);
    assert map[][o.uuid := Stored(o.properties, o.vector)] == map[o.uuid := Stored(o.properties, o.vector)];
    BatchKeys(objs[1..]);
    if i == 0 {
      assert objs[0].uuid !in Batch(objs[1..]);
    } else {
      forall j | i - 1 < j < |objs[1..]|
        ensures objs[1..][j].uuid != objs[1..][i - 1].uuid
      {
        assert objs[1..][j] == objs[j + 1];
      }
      BatchHoldsLastObject(objs[1..], i - 1);
    }
  }

  /** Inserting the same batch twice leaves the objects as inserting it once. */
  lemma InsertManyIdempotent(objects: map<Id, Stored>, objs: seq<DataObject>)
    ensures InsertMany(InsertMany(objects, objs), objs) == InsertMany(objects, objs)
  {
    InsertManyOverrides(objects, objs);
    InsertManyOverrides(objects + Batch(objs), objs);
    assert (objects + Batch(objs)) + Batch(objs) == objects + Batch(objs);
  }

  // ---------------------------------------------------------------------------
  // ensure_schema

  /** `ensure_schema()`: create the collection only when it is absent.
      `createError` is the exception the store raises on creation, if any. */
  function EnsureSchema(db: Db, createError: Option<string>): (r: Result<Db, string>)
    ensures r.Success? ==> ClassName in r.value.collections
    ensures r.Success? && ClassName in db.collections ==> r.value == db
    ensures r.Success? && ClassName !in db.collections ==>
      r.value.collections == db.collections[ClassName := NewChunkCollection]
    ensures r.Failure? <==> ClassName !in db.collections && createError.Some?
    ensures r.Failure? ==> r.error == "Failed to ensure schema: " + createError.value
  {
    if ClassName in db.collections then Success(db)
    else
      match createError
      case Some(e) => Failure("Failed to ensure schema: " + e)
      case None => Success(Db(db.collections[ClassName := NewChunkCollection]))
  }

  /** Calling `ensure_schema` again after it succeeded changes nothing and cannot fail. */
  lemma EnsureSchemaIdempotent(db: Db, first: Option<string>, second: Option<string>)
    requires EnsureSchema(db, first).Success?
    ensures EnsureSchema(EnsureSchema(db, first).value, second) == EnsureSchema(db, first)
  {
  }

  // ---------------------------------------------------------------------------
  // upsert_chunks

  /** The objects of collection `Chunk`, empty when it does not exist yet. */
  function ChunkObjects(db: Db): map<Id, Stored>
  {
    if ClassName in db.collections then db.collections[ClassName].objects else map[]
  }

  /** `upsert_chunks(chunks, url)`. `writeError` is the exception, if any,
      raised after the schema step by `embed_texts`, `get_client`,
      `collections.get` or `insert_many`. */
  function UpsertChunks(db: Db, chunks: seq<Chunk>, url: string, embed: seq<string> -> seq<Vector>,
                        h: Hashing, createError: Option<string>, writeError: Option<string>): (r: Result<Db, string>)
    ensures r.Failure? <==> EnsureSchema(db, createError).Failure? || writeError.Some?
    ensures r.Failure? && EnsureSchema(db, createError).Failure? ==>
      r.error == "Failed to upsert chunks: " + EnsureSchema(db, createError).error
    ensures r.Failure? && EnsureSchema(db, createError).Success? ==>
      r.error == "Failed to upsert chunks: " + writeError.value
  {
    match EnsureSchema(db, createError)
    case Failure(e) => Failure("Failed to upsert chunks: " + e)
    case Success(ready) =>
      match writeError
      case Some(e) => Failure("Failed to upsert chunks: " + e)
      case None =>
        var coll := ready.collections[ClassName];
        var objs := BuildObjects(chunks, embed(ChunkTexts(chunks)), url, h, 0);
        Success(Db(ready.collections[ClassName := coll.(objects := InsertMany(coll.objects, objs))]))
  }

  /** Upserting a page twice leaves the store as upserting it once: the second
      call writes the same objects under the same ids. */
  lemma UpsertIdempotent(db: Db, chunks: seq<Chunk>, url: string, embed: seq<string> -> seq<Vector>,
                         h: Hashing, first: Option<string>, second: Option<string>)
    requires UpsertChunks(db, chunks, url, embed, h, first, None).Success?
    ensures var once := UpsertChunks(db, chunks, url, embed, h, first, None).value;
      UpsertChunks(once, chunks, url, embed, h, second, None) == Success(once)
  {
    var ready := EnsureSchema(db, first).value;
    var objs := BuildObjects(chunks, embed(ChunkTexts(chunks)), url, h, 0);
    var coll := ready.collections[ClassName];
    var once := UpsertChunks(db, chunks, url, embed, h, first, None).value;
    InsertManyIdempotent(coll.objects, objs);
    assert once.collections[ClassName].objects == InsertMany(coll.objects, objs);
    var twice := UpsertChunks(once, chunks, url, embed, h, second, None).value;
    assert twice.collections == once.collections[ClassName := once.collections[ClassName]];
    assert twice.collections == once.collections;
  }

  /** The ids an upsert of `n` chunks of `url` writes. */
  function UpsertIds(h: Hashing, url: string, n: nat): set<Id>
  {
    set i | 0 <= i < n :: DeterministicId(h, url, i)
  }

  /** The ids of the objects built for `url` are `deterministic_id(url, 0..n-1)`. */
  lemma BuildObjectsIds(chunks: seq<Chunk>, vectors: seq<Vector>, url: string, h: Hashing)
    ensures var objs := BuildObjects(chunks, vectors, url, h, 0);
      (set i | 0 <= i < |objs| :: objs[i].uuid) == UpsertIds(h, url, Min(|chunks|, |vectors|))
  {
    var objs := BuildObjects(chunks, vectors, url, h, 0);
    var n := Min(|chunks|, |vectors|);
    forall x | x in UpsertIds(h, url, n)
      ensures x in set i | 0 <= i < |objs| :: objs[i].uuid
    {
      var i :| 0 <= i < n && x == DeterministicId(h, url, i);
      assert objs[i].uuid == x;
    }
  }

  /** A successful upsert stores into collection `Chunk` the batch built from
      the chunks and their vectors, and touches no other collection. */
  lemma UpsertWrites(db: Db, chunks: seq<Chunk>, url: string, embed: seq<string> -> seq<Vector>,
                     h: Hashing, createError: Option<string>, writeError: Option<string>)
    requires UpsertChunks(db, chunks, url, embed, h, createError, writeError).Success?
    ensures var after := UpsertChunks(db, chunks, url, embed, h, createError, writeError).value;
      && after.collections.Keys == db.collections.Keys + {ClassName}
      && (forall name :: name in db.collections && name != ClassName ==> after.collections[name] == db.collections[name])
      && ChunkObjects(after) == InsertMany(ChunkObjects(db), BuildObjects(chunks, embed(ChunkTexts(chunks)), url, h, 0))
  {
    var ready := EnsureSchema(db, createError).value;
    assert ChunkObjects(ready) == ChunkObjects(db);
  }

  /** An upsert touches only collection `Chunk`, writes exactly the ids
      `deterministic_id(url, 0..n-1)` for the `n` chunk/vector pairs, and
      leaves every other object as it was. */
  lemma UpsertFrame(db: Db, chunks: seq<Chunk>, url: string, embed: seq<string> -> seq<Vector>,
                    h: Hashing, createError: Option<string>, writeError: Option<string>)
    requires UpsertChunks(db, chunks, url, embed, h, createError, writeError).Success?
    ensures var after := UpsertChunks(db, chunks, url, embed, h, createError, writeError).value;
      var n := Min(|chunks|, |embed(ChunkTexts(chunks))|);
      && after.collections.Keys == db.collections.Keys + {ClassName}
      && (forall name :: name in db.collections && name != ClassName ==> after.collections[name] == db.collections[name])
      && ChunkObjects(after).Keys == ChunkObjects(db).Keys + UpsertIds(h, url, n)
      && (forall id :: id in ChunkObjects(db) && id !in UpsertIds(h, url, n) ==>
            ChunkObjects(after)[id] == ChunkObjects(db)[id])
  {
    var vectors := embed(ChunkTexts(chunks));
    var objs := BuildObjects(chunks, vectors, url, h, 0);
    UpsertWrites(db, chunks, url, embed, h, createError, writeError);
    InsertManyOverrides(ChunkObjects(db), objs);
    BatchKeys(objs);
    BuildObjectsIds(chunks, vectors, url, h);
  }

  /** With injective hashes, after an upsert the object stored under
      `deterministic_id(url, i)` holds the i-th chunk's text, html, the url
      and the i-th vector. */
  lemma UpsertStoresChunks(db: Db, chunks: seq<Chunk>, url: string, embed: seq<string> -> seq<Vector>,
                           h: Hashing, createError: Option<string>, writeError: Option<string>, i: nat)
    requires HashesInjective(h)
    requires UpsertChunks(db, chunks, url, embed, h, createError, writeError).Success?
    requires i < |chunks| && i < |embed(ChunkTexts(chunks))|
    ensures var after := ChunkObjects(UpsertChunks(db, chunks, url, embed, h, createError, writeError).value);
      && DeterministicId(h, url, i) in after
      && after[DeterministicId(h, url, i)] == Stored(ChunkProperties(chunks[i], url), embed(ChunkTexts(chunks))[i])
  {
    var ready := EnsureSchema(db, createError).value;
    var vectors := embed(ChunkTexts(chunks));
    var objs := BuildObjects(chunks, vectors, url, h, 0);
    forall j | i < j < |objs|
      ensures objs[j].uuid != objs[i].uuid
    {
      if objs[j].uuid == objs[i].uuid {
        DeterministicIdInjective(h, url, j, url, i);
      }
    }
    BatchHoldsLastObject(objs, i);
    InsertManyOverrides(ChunkObjects(ready), objs);
  }

  // ---------------------------------------------------------------------------
  // search_query

  /** An object as `near_vector` returns it: uuid, distance metadata and the
      requested properties. */
  datatype QueryObject = QueryObject(uuid: Id, distance: Option<real>, properties: map<string, string>)

  /** One formatted result; each field is what the source's `.get` or
      attribute access yields, `None` when absent. */
  datatype Formatted = Formatted(id: Id, score: Option<real>, text: Option<string>, html: Option<string>, url: Option<string>)

  /** `dict.get(key)`. */
  function Get(m: map<string, string>, key: string): (r: Option<string>)
    ensures r.Some? <==> key in m
    ensures r.Some? ==> r.value == m[key]
  {
    if key in m then Some(m[key]) else None
  }

  /** The loop of lines 104-113. */
  function FormatResults(objs: seq<QueryObject>): (r: seq<Formatted>)
    ensures |r| == |objs|
    ensures forall j :: 0 <= j < |objs| ==>
      && r[j].id == objs[j].uuid
      && r[j].score == objs[j].distance
      && r[j].text == Get(objs[j].properties, "text")
      && r[j].html == Get(objs[j].properties, "html")
      && r[j].url == Get(objs[j].properties, "url")
  {
    if objs == [] then []
    else
      var o := objs[0];
      [Formatted(o.uuid, o.distance, Get(o.properties, "text"), Get(o.properties, "html"), Get(o.properties, "url"))]
      + FormatResults(objs[1..])
  }

  /** The store's ranking refers to objects of collection `Chunk` (and is empty
      when the collection does not exist yet). */
  predicate RankedFrom(db: Db, ranked: seq<(Id, real)>)
  {
    forall j :: 0 <= j < |ranked| ==> ranked[j].0 in ChunkObjects(db)
  }

  function Restrict(m: map<string, string>, keys: set<string>): map<string, string>
  {
    map k | k in m && k in keys :: m[k]
  }

  /** `near_vector(..., limit=top_k, return_metadata=["distance"],
      return_properties=["text", "html", "url"])` over the store's ranking. */
  function NearVector(db: Db, ranked: seq<(Id, real)>, limit: nat): (objs: seq<QueryObject>)
    requires RankedFrom(db, ranked)
    ensures |objs| == Min(|ranked|, limit)
    ensures forall j :: 0 <= j < |objs| ==>
      && objs[j].uuid == ranked[j].0
      && objs[j].distance == Some(ranked[j].1)
      && var stored := ChunkObjects(db)[ranked[j].0].properties;
         objs[j].properties.Keys == stored.Keys * {"text", "html", "url"}
         && forall key :: key in objs[j].properties ==> objs[j].properties[key] == stored[key]
  {
    var top := Take(ranked, limit);
    seq(|top|, j requires 0 <= j < |top| =>
      QueryObject(top[j].0, Some(top[j].1), Restrict(ChunkObjects(db)[top[j].0].properties, {"text", "html", "url"})))
  }

  /** `search_query(query, top_k)`: ensure the schema, then ask the store.
      `queryError` is the exception, if any, raised after the schema step by
      `embed_texts`, `get_client`, `collections.get` or `near_vector`. */
  function SearchQuery(db: Db, createError: Option<string>, queryError: Option<string>,
                       ranked: seq<(Id, real)>, topK: nat): (r: Result<(Db, seq<Formatted>), string>)
    requires EnsureSchema(db, createError).Success? ==> RankedFrom(EnsureSchema(db, createError).value, ranked)
    ensures r.Failure? <==> EnsureSchema(db, createError).Failure? || queryError.Some?
    ensures r.Failure? && EnsureSchema(db, createError).Failure? ==>
      r.error == "Failed to search query: " + EnsureSchema(db, createError).error
    ensures r.Failure? && EnsureSchema(db, createError).Success? ==>
      r.error == "Failed to search query: " + queryError.value
    ensures r.Success? ==> r.value.0 == EnsureSchema(db, createError).value
    ensures r.Success? ==> |r.value.1| == Min(|ranked|, topK)
  {
    match EnsureSchema(db, createError)
    case Failure(e) => Failure("Failed to search query: " + e)
    case Success(ready) =>
      match queryError
      case Some(e) => Failure("Failed to search query: " + e)
      case None => Success((ready, FormatResults(NearVector(ready, ranked, topK))))
  }

  /** Restricting a chunk's stored properties to the requested ones keeps them all. */
  lemma RequestedChunkProperties(c: Chunk, url: string)
    ensures Restrict(ChunkProperties(c, url), {"text", "html", "url"}) == ChunkProperties(c, url)
  {
  }

  /** A hit on an object stored from chunk `c` of `url` is formatted with that
      chunk's text and html, the url, and the reported distance. */
  lemma FormatStoredChunk(ready: Db, ranked: seq<(Id, real)>, topK: nat, j: nat, c: Chunk, url: string, v: Vector)
    requires RankedFrom(ready, ranked)
    requires j < |ranked| && j < topK
    requires ChunkObjects(ready)[ranked[j].0] == Stored(ChunkProperties(c, url), v)
    ensures j < |FormatResults(NearVector(ready, ranked, topK))|
    ensures FormatResults(NearVector(ready, ranked, topK))[j]
         == Formatted(ranked[j].0, Some(ranked[j].1), Some(c.text), Some(c.html), Some(url))
  {
    var objs := NearVector(ready, ranked, topK);
    assert Take(ranked, topK)[j] == ranked[j];
    RequestedChunkProperties(c, url);
    assert objs[j] == QueryObject(ranked[j].0, Some(ranked[j].1), ChunkProperties(c, url));
  }

  /** Reading back what an upsert wrote: a search hit on the id of chunk `i`
      of `url` is formatted with that chunk's text and html, the url, and the
      distance the store reported. */
  lemma UpsertThenSearch(db: Db, chunks: seq<Chunk>, url: string, embed: seq<string> -> seq<Vector>,
                         h: Hashing, createError: Option<string>, writeError: Option<string>, ranked: seq<(Id, real)>, topK: nat,
                         i: nat, j: nat)
    requires HashesInjective(h)
    requires UpsertChunks(db, chunks, url, embed, h, createError, writeError).Success?
    requires i < |chunks| && i < |embed(ChunkTexts(chunks))|
    requires RankedFrom(UpsertChunks(db, chunks, url, embed, h, createError, writeError).value, ranked)
    requires j < |ranked| && j < topK && ranked[j].0 == DeterministicId(h, url, i)
    ensures var after := UpsertChunks(db, chunks, url, embed, h, createError, writeError).value;
      var r := SearchQuery(after, None, None, ranked, topK);
      && r.Success? && r.value.0 == after
      && j < |r.value.1|
      && r.value.1[j] == Formatted(ranked[j].0, Some(ranked[j].1), Some(chunks[i].text), Some(chunks[i].html), Some(url))
  {
    var after := UpsertChunks(db, chunks, url, embed, h, createError, writeError).value;
    UpsertStoresChunks(db, chunks, url, embed, h, createError, writeError, i);
    FormatStoredChunk(after, ranked, topK, j, chunks[i], url, embed(ChunkTexts(chunks))[i]);
  }

  // ---------------------------------------------------------------------------
  // close_client

  datatype Client = Client(handle: nat)

  /** What `client.close()` does: return normally or raise. */
  datatype CloseOutcome = CloseReturned | CloseRaised(message: string)

  /** The global client afterwards, and whether `close()` was called. */
  datatype Closed = Closed(client: Option<Client>, closeCalled: bool)

  /** `close_client()`: an exception from `close()` is swallowed and the global
      is reset in the `finally` clause. */
  function CloseClient(client: Option<Client>, outcome: CloseOutcome): (r: Closed)
    ensures r.client == None
    ensures r.closeCalled <==> client.Some?
  {
    match client
    case None => Closed(None, false)
    case Some(_) =>
      match outcome
      case CloseReturned => Closed(None, true)
      case CloseRaised(_) => Closed(None, true)
  }
}
