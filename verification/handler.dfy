/** The post-fetch body of the `/search` request handler in backend/app/main.py:
    pack the page's elements, ask the nearest-neighbour index for the closest
    chunks, map its answer back to chunks, sort by score and keep ten.

    Embedding the chunks, building the flat L2 index, embedding the query and
    searching it are one external collaborator, the parameter `knn`: given the
    chunk texts and a width `k` it returns the distances `D` and the indices `I`
    the index answers with. Scores are only compared, never computed. */
module Handler {
  import opened Seqs
  import opened Text
  import opened Extractor

  /** One entry of the response's `results` list. */
  datatype Hit = Hit(text: string, html: string, score: real)

  /** `texts[idx]` raised an IndexError (the handler answers with a server error). */
  datatype SearchError = IndexOutOfRange(index: int)

  type Knn = (seq<string>, nat) -> (seq<real>, seq<int>)

  /** The budget the handler packs with (line 42). */
  const MaxTokens: int := 500

  /** At most this many results are searched for and returned (lines 53 and 66). */
  const TopK: nat := 10

  /** `min(10, len(texts))`. */
  function SearchWidth(n: nat): (k: nat)
    ensures k <= TopK && k <= n
    ensures k == TopK || k == n
  {
    Min(TopK, n)
  }

  /** Python's list indexing: a negative index counts from the end. */
  function PyIndex(n: nat, idx: int): (r: Option<nat>)
    ensures r.Some? <==> -(n as int) <= idx < n
    ensures r.Some? ==> r.value < n && (r.value == idx || r.value == idx + n)
  {
    if 0 <= idx < n then Some(idx) else if -(n as int) <= idx < 0 then Some(idx + n) else None
  }

  /** The loop of lines 55-62 over `zip(D, I)`. */
  function BuildResults(chunks: seq<Chunk>, d: seq<real>, ix: seq<int>): (r: Result<seq<Hit>, SearchError>)
    ensures r.Success? <==> forall j :: 0 <= j < |d| && j < |ix| ==> PyIndex(|chunks|, ix[j]).Some?
    ensures r.Success? ==> |r.value| == Min(|d|, |ix|)
    ensures r.Success? ==> forall j :: 0 <= j < |r.value| ==>
      var c := chunks[PyIndex(|chunks|, ix[j]).value];
      r.value[j] == Hit(c.text, c.html, d[j])
    decreases |d|
  {
    if d == [] || ix == [] then Success([])
    else
      match PyIndex(|chunks|, ix[0])
      case None => Failure(IndexOutOfRange(ix[0]))
      case Some(i) =>
        match BuildResults(chunks, d[1..], ix[1..])
        case Failure(err) => Failure(err)
        case Success(rest) => Success([Hit(ChunkTexts(chunks)[i], chunks[i].html, d[0])] + rest)
  }

  // ---------------------------------------------------------------------------
  // `sorted(results, key=lambda r: r["score"])`

  predicate SortedByScore(hs: seq<Hit>)
  {
    forall i, j :: 0 <= i < j < |hs| ==> hs[i].score <= hs[j].score
  }

  /** Places `h` before the first hit that does not score lower. */
  function Insert(h: Hit, hs: seq<Hit>): seq<Hit>
  {
    if hs == [] || h.score <= hs[0].score then [h] + hs
    else [hs[0]] + Insert(h, hs[1..])
  }

  /** Insertion sort; stable, like Python's `sorted`. */
  function SortByScore(hs: seq<Hit>): seq<Hit>
  {
    if hs == [] then [] else Insert(hs[0], SortByScore(hs[1..]))
  }

  /** The hits with score `c`, in order. */
  function WithScore(hs: seq<Hit>, c: real): seq<Hit>
  {
    if hs == [] then [] else (if hs[0].score == c then [hs[0]] else []) + WithScore(hs[1..], c)
  }

  lemma {:induction false} InsertMultiset(h: Hit, hs: seq<Hit>)
    ensures multiset(Insert(h, hs)) == multiset(hs) + multiset{h}
    decreases |hs|
  {
    if hs != [] && h.score > hs[0].score {
      InsertMultiset(h, hs[1..]);
      assert hs == [hs[0]] + hs[1..];
    }
  }

  /** Every hit of `hs` scores at least `b`. */
  predicate AtLeast(b: real, hs: seq<Hit>)
  {
    forall k :: 0 <= k < |hs| ==> b <= hs[k].score
  }

  lemma SortedCons(x: Hit, t: seq<Hit>)
    requires SortedByScore(t) && AtLeast(x.score, t)
    ensures SortedByScore([x] + t)
  {
    var r := [x] + t;
    forall i, j | 0 <= i < j < |r|
      ensures r[i].score <= r[j].score
    {
      assert r[j] == t[j - 1];
      if i > 0 {
        assert r[i] == t[i - 1];
      }
    }
  }

  lemma {:induction false} InsertAtLeast(h: Hit, hs: seq<Hit>, b: real)
    requires AtLeast(b, hs) && b <= h.score
    ensures AtLeast(b, Insert(h, hs))
    decreases |hs|
  {
    if hs != [] && h.score > hs[0].score {
      InsertAtLeast(h, hs[1..], b);
      var r := [hs[0]] + Insert(h, hs[1..]);
      forall k | 0 < k < |r|
        ensures b <= r[k].score
      {
        assert r[k] == Insert(h, hs[1..])[k - 1];
      }
    }
  }

  lemma {:induction false} InsertSorted(h: Hit, hs: seq<Hit>)
    requires SortedByScore(hs)
    ensures SortedByScore(Insert(h, hs))
    decreases |hs|
  {
    if hs == [] || h.score <= hs[0].score {
      SortedCons(h, hs);
    } else {
      var tail := hs[1..];
      assert SortedByScore(tail) by {
        forall i, j | 0 <= i < j < |tail|
          ensures tail[i].score <= tail[j].score
        {
          assert tail[i] == hs[i + 1] && tail[j] == hs[j + 1];
        }
      }
      assert AtLeast(hs[0].score, tail) by {
        forall k | 0 <= k < |tail|
          ensures hs[0].score <= tail[k].score
        {
          assert tail[k] == hs[k + 1];
        }
      }
      InsertSorted(h, tail);
      InsertAtLeast(h, tail, hs[0].score);
      SortedCons(hs[0], Insert(h, tail));
    }
  }

  lemma WithScoreCons(x: Hit, t: seq<Hit>, c: real)
    ensures WithScore([x] + t, c) == (if x.score == c then [x] else []) + WithScore(t, c)
  {
    assert ([x] + t)[1..] == t;
  }

  /** Inserting `h` puts it ahead of every hit of its own score. */
  lemma {:induction false} InsertWithScore(h: Hit, hs: seq<Hit>, c: real)
    ensures WithScore(Insert(h, hs), c) == (if h.score == c then [h] else []) + WithScore(hs, c)
    decreases |hs|
  {
    if hs == [] || h.score <= hs[0].score {
      WithScoreCons(h, hs, c);
    } else {
      InsertWithScore(h, hs[1..], c);
      WithScoreCons(hs[0], Insert(h, hs[1..]), c);
      WithScoreCons(hs[0], hs[1..], c);
      assert hs == [hs[0]] + hs[1..];
    }
  }

  lemma {:induction false} SortByScoreSorted(hs: seq<Hit>)
    ensures SortedByScore(SortByScore(hs))
    decreases |hs|
  {
    if hs != [] {
      SortByScoreSorted(hs[1..]);
      InsertSorted(hs[0], SortByScore(hs[1..]));
    }
  }

  lemma {:induction false} SortByScorePermutes(hs: seq<Hit>)
    ensures multiset(SortByScore(hs)) == multiset(hs)
    decreases |hs|
  {
    if hs != [] {
      SortByScorePermutes(hs[1..]);
      InsertMultiset(hs[0], SortByScore(hs[1..]));
      assert hs == [hs[0]] + hs[1..];
    }
  }

  lemma {:induction false} SortByScoreStable(hs: seq<Hit>, c: real)
    ensures WithScore(SortByScore(hs), c) == WithScore(hs, c)
    decreases |hs|
  {
    if hs != [] {
      SortByScoreStable(hs[1..], c);
      InsertWithScore(hs[0], SortByScore(hs[1..]), c);
      WithScoreCons(hs[0], hs[1..], c);
      assert hs == [hs[0]] + hs[1..];
    }
  }

  /** Sorting is a stable ascending sort: the result is ordered by score, is a
      permutation of the input, and keeps hits of equal score in input order. */
  lemma SortByScoreSpec(hs: seq<Hit>)
    ensures SortedByScore(SortByScore(hs))
    ensures multiset(SortByScore(hs)) == multiset(hs)
    ensures forall c :: WithScore(SortByScore(hs), c) == WithScore(hs, c)
  {
    SortByScoreSorted(hs);
    SortByScorePermutes(hs);
    forall c
      ensures WithScore(SortByScore(hs), c) == WithScore(hs, c)
    {
      SortByScoreStable(hs, c);
    }
  }

  // ---------------------------------------------------------------------------
  // The handler

  /** `search(req)` after the page's elements are known. */
  function Search(elements: seq<Element>, count: Counter, knn: Knn): (r: Result<seq<Hit>, SearchError>)
    ensures Pack(elements, count, MaxTokens) == [] ==> r == Success([])
    ensures r.Success? ==> |r.value| <= TopK
  {
    var chunks := Pack(elements, count, MaxTokens);
    var texts := ChunkTexts(chunks);
    if |texts| == 0 then Success([])
    else
      var (d, ix) := knn(texts, SearchWidth(|texts|));
      match BuildResults(chunks, d, ix)
      case Failure(err) => Failure(err)
      case Success(results) => Success(Take(SortByScore(results), TopK))
  }

  /** No chunks: the answer is the empty list, whatever the index would say. */
  lemma SearchWithoutChunks(elements: seq<Element>, count: Counter, knn: Knn, other: Knn)
    requires Pack(elements, count, MaxTokens) == []
    ensures Search(elements, count, knn) == Success([])
    ensures Search(elements, count, other) == Search(elements, count, knn)
  {
  }

  /** A page whose elements are all oversized and wordless packs into no chunk,
      so the search answers the empty list. */
  lemma PackEmptyThenNoResults(elements: seq<Element>, count: Counter, knn: Knn)
    requires forall i :: 0 <= i < |elements| ==>
      !Fits(elements[i], count, MaxTokens) && Split(elements[i].text) == []
    ensures Search(elements, count, knn) == Success([])
  {
    PackEmpty(elements, count, MaxTokens);
  }

  /** Sorting then keeping ten gives an ordered list of at most ten of the
      results, the lowest-scoring ones first. */
  lemma {:induction false} SortAndTakeSpec(results: seq<Hit>)
    ensures var r := Take(SortByScore(results), TopK);
      && r <= SortByScore(results)
      && |r| == Min(TopK, |results|)
      && SortedByScore(r)
      && multiset(r) <= multiset(results)
  {
    var sorted := SortByScore(results);
    SortByScoreSpec(results);
    var r := Take(sorted, TopK);
    assert |sorted| == |results| by {
      assert |multiset(sorted)| == |multiset(results)|;
    }
    assert sorted == r + sorted[|r|..];
    assert multiset(sorted) == multiset(r) + multiset(sorted[|r|..]);
  }

  /** Every hit of a successful result list carries the text and html of a chunk. */
  lemma ResultsComeFromChunks(chunks: seq<Chunk>, d: seq<real>, ix: seq<int>, r: seq<Hit>)
    requires BuildResults(chunks, d, ix).Success?
    requires multiset(r) <= multiset(BuildResults(chunks, d, ix).value)
    ensures forall j :: 0 <= j < |r| ==>
      exists m :: 0 <= m < |chunks| && r[j].text == chunks[m].text && r[j].html == chunks[m].html
  {
    var built := BuildResults(chunks, d, ix).value;
    forall j | 0 <= j < |r|
      ensures exists m :: 0 <= m < |chunks| && r[j].text == chunks[m].text && r[j].html == chunks[m].html
    {
      assert r[j] in multiset(r);
      assert r[j] in multiset(built);
      var n :| 0 <= n < |built| && built[n] == r[j];
      var m := PyIndex(|chunks|, ix[n]).value;
      assert r[j].text == chunks[m].text;
    }
  }

  /** With chunks: the index is asked for `min(10, n)` neighbours; the answer is
      an error exactly when one of its indices is out of range; otherwise the
      returned list is a prefix of at most ten of the stably sorted results, is
      ordered by score, and every hit carries the text and html of the chunk the
      index pointed at. */
  lemma SearchSpec(elements: seq<Element>, count: Counter, knn: Knn)
    requires Pack(elements, count, MaxTokens) != []
    ensures var chunks := Pack(elements, count, MaxTokens);
      var (d, ix) := knn(ChunkTexts(chunks), SearchWidth(|chunks|));
      var r := Search(elements, count, knn);
      && (r.Failure? <==> BuildResults(chunks, d, ix).Failure?)
      && (r.Success? ==>
            && r.value <= SortByScore(BuildResults(chunks, d, ix).value)
            && |r.value| == Min(TopK, Min(|d|, |ix|))
            && SortedByScore(r.value)
            && multiset(r.value) <= multiset(BuildResults(chunks, d, ix).value)
            && forall j :: 0 <= j < |r.value| ==>
                 exists m :: 0 <= m < |chunks| && r.value[j].text == chunks[m].text && r.value[j].html == chunks[m].html)
  {
    var chunks := Pack(elements, count, MaxTokens);
    var (d, ix) := knn(ChunkTexts(chunks), SearchWidth(|chunks|));
    var built := BuildResults(chunks, d, ix);
    if built.Success? {
      SortAndTakeSpec(built.value);
      ResultsComeFromChunks(chunks, d, ix, Take(SortByScore(built.value), TopK));
    }
  }

  /** At most ten results: keeping ten of the sorted list keeps the whole
      sorted list, a permutation of the results. */
  lemma TakeSortedKeepsAll(results: seq<Hit>)
    requires |results| <= TopK
    ensures Take(SortByScore(results), TopK) == SortByScore(results)
    ensures multiset(Take(SortByScore(results), TopK)) == multiset(results)
  {
    SortByScoreSpec(results);
    assert |SortByScore(results)| == |results| by {
      assert |multiset(SortByScore(results))| == |multiset(results)|;
    }
  }

  /** The index answers with `k` neighbours, `k <= 10`, so the final slice to
      ten never drops a result. */
  lemma TruncationKeepsAll(elements: seq<Element>, count: Counter, knn: Knn)
    requires Search(elements, count, knn).Success?
    requires var texts := ChunkTexts(Pack(elements, count, MaxTokens));
      |knn(texts, SearchWidth(|texts|)).0| <= SearchWidth(|texts|)
    ensures var chunks := Pack(elements, count, MaxTokens);
      chunks != [] ==>
        var (d, ix) := knn(ChunkTexts(chunks), SearchWidth(|chunks|));
        multiset(Search(elements, count, knn).value) == multiset(BuildResults(chunks, d, ix).value)
  {
    var chunks := Pack(elements, count, MaxTokens);
    if chunks != [] {
      var (d, ix) := knn(ChunkTexts(chunks), SearchWidth(|chunks|));
      TakeSortedKeepsAll(BuildResults(chunks, d, ix).value);
    }
  }
}
