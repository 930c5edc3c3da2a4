/**
 * The module state of src/chunkSearch.ts and api/lib/chunkSearch.ts: the
 * loaded `chunksData` and the lazily built `bm25Index`, with `loadChunks`,
 * `searchChunks`, `getChunksByCategory` (src only) and `getAllCategories`.
 * The two copies differ in what they do before anything is loaded: the src
 * functions throw, the api functions return an empty list.
 */
module Store {
  import opened Text
  import opened Corpus
  import opened Indexing
  import opened Relevance
  import opened Search

  /** What reading and parsing one candidate path gives. */
  datatype Candidate = Unreadable | Malformed | Parsed(data: ChunksData)

  /** `loadChunks`: the candidate that was loaded, or the error it rethrows. */
  datatype LoadOutcome = Loaded(candidate: nat) | AllFailed

  /** A result, or the `Chunks가 로드되지 않았습니다.` error. */
  datatype Outcome<T> = Ok(value: T) | NotLoaded

  /** No candidate before position `n` parsed. */
  predicate NoneParsed(candidates: seq<Candidate>, n: nat)
    requires n <= |candidates|
  {
    forall k :: 0 <= k < n ==> !candidates[k].Parsed?
  }

  /** The chunk has a category, and it equals `category` ignoring case. */
  predicate InCategory(c: Chunk, category: string) {
    c.metadata.category.Some? && Lower(c.metadata.category.value) == Lower(category)
  }

  /** The chunks in the category, in their order. */
  function ChunksIn(chunks: seq<Chunk>, category: string): seq<Chunk> {
    if chunks == [] then []
    else (if InCategory(chunks[0], category) then [chunks[0]] else []) + ChunksIn(chunks[1..], category)
  }

  /** The chunks of a category are exactly the chunks whose category matches, ignoring case. */
  lemma {:induction false} ChunksInMeaning(chunks: seq<Chunk>, category: string)
    ensures forall c :: c in ChunksIn(chunks, category) <==> c in chunks && InCategory(c, category)
    ensures |ChunksIn(chunks, category)| <= |chunks|
    decreases |chunks|
  {
    if chunks != [] {
      ChunksInMeaning(chunks[1..], category);
      assert chunks == [chunks[0]] + chunks[1..];
    }
  }

  /** The truthy categories, one entry per chunk that has one. */
  function TruthyCategories(chunks: seq<Chunk>): seq<string> {
    if chunks == [] then []
    else
      var c := chunks[|chunks| - 1];
      TruthyCategories(chunks[..|chunks| - 1]) + (if Truthy(c.metadata.category) then [c.metadata.category.value] else [])
  }

  /** `Array.from(categories)`: the truthy categories in first-appearance order. */
  function CategoriesOf(chunks: seq<Chunk>): seq<string> {
    Dedup(TruthyCategories(chunks))
  }

  lemma {:induction false} TruthyCategoriesMeaning(chunks: seq<Chunk>)
    ensures forall x :: x in TruthyCategories(chunks) <==>
      exists i :: 0 <= i < |chunks| && chunks[i].metadata.category == Some(x) && x != ""
    decreases |chunks|
  {
    if chunks != [] {
      var init := chunks[..|chunks| - 1];
      TruthyCategoriesMeaning(init);
      forall x ensures x in TruthyCategories(chunks) <==>
        exists i :: 0 <= i < |chunks| && chunks[i].metadata.category == Some(x) && x != ""
      {
        if x in TruthyCategories(init) {
          var i :| 0 <= i < |init| && init[i].metadata.category == Some(x) && x != "";
          assert chunks[i] == init[i];
        }
        if exists i :: 0 <= i < |chunks| && chunks[i].metadata.category == Some(x) && x != "" {
          var i :| 0 <= i < |chunks| && chunks[i].metadata.category == Some(x) && x != "";
          if i < |init| {
            assert init[i] == chunks[i];
          }
        }
      }
    }
  }

  /** Every distinct non-empty category of the chunks appears exactly once, and nothing else. */
  lemma CategoriesMeaning(chunks: seq<Chunk>)
    ensures forall x :: x in CategoriesOf(chunks) <==>
      exists i :: 0 <= i < |chunks| && chunks[i].metadata.category == Some(x) && x != ""
    ensures forall i, j :: 0 <= i < j < |CategoriesOf(chunks)| ==> CategoriesOf(chunks)[i] != CategoriesOf(chunks)[j]
  {
    TruthyCategoriesMeaning(chunks);
    DedupElements(TruthyCategories(chunks));
  }

  lemma TruthyCategoriesSnoc(chunks: seq<Chunk>, c: Chunk)
    ensures TruthyCategories(chunks + [c])
      == TruthyCategories(chunks) + (if Truthy(c.metadata.category) then [c.metadata.category.value] else [])
  {
    PrefixOfSnoc(chunks, c);
  }

  /** The `categories` set filled by `chunks.forEach`, as its insertion-ordered contents. */
  method CollectCategories(chunks: seq<Chunk>) returns (categories: seq<string>)
    ensures categories == CategoriesOf(chunks)
  {
    categories := [];
    for i := 0 to |chunks|
      invariant categories == Dedup(TruthyCategories(chunks[..i]))
    {
      var c := chunks[i];
      TakeSnoc(chunks, i);
      TruthyCategoriesSnoc(chunks[..i], c);
      if Truthy(c.metadata.category) {
        var name := c.metadata.category.value;
        DedupSnoc(TruthyCategories(chunks[..i]), name);
        if name !in categories {
          categories := categories + [name];
        }
      } else {
        assert TruthyCategories(chunks[..i]) + [] == TruthyCategories(chunks[..i]);
      }
    }
    assert chunks[..|chunks|] == chunks;
  }

  /** The state of one copy of the search module. */
  class Engine {
    /** Which copy: src/chunkSearch.ts or api/lib/chunkSearch.ts. */
    const flavour: Flavour
    var chunksData: Option<ChunksData>
    var bm25Index: Option<Index>

    /** An index, once built, is the index of the loaded chunks. */
    ghost predicate Valid()
      reads this
    {
      bm25Index.Some? ==> chunksData.Some? && IndexFor(Contents(chunksData.value.chunks), bm25Index.value)
    }

    /** A fresh engine: nothing loaded and no index built. */
    constructor (flavour: Flavour)
      ensures Valid()
      ensures this.flavour == flavour && chunksData == None && bm25Index == None
    {
      this.flavour := flavour;
      chunksData := None;
      bm25Index := None;
    }

    /**
     * `loadChunks()`: the first candidate that reads and parses replaces the
     * chunks and their index; when none does, the error is rethrown and the
     * state is left as it was.
     */
    method Load(candidates: seq<Candidate>) returns (outcome: LoadOutcome)
      requires Valid()
      modifies this
      ensures Valid()
      ensures outcome.Loaded? ==>
        && outcome.candidate < |candidates|
        && candidates[outcome.candidate].Parsed?
        && NoneParsed(candidates, outcome.candidate)
        && chunksData == Some(candidates[outcome.candidate].data)
        && bm25Index.Some?
      ensures outcome.AllFailed? ==>
        NoneParsed(candidates, |candidates|) && chunksData == old(chunksData) && bm25Index == old(bm25Index)
    {
      for i := 0 to |candidates|
        invariant NoneParsed(candidates, i)
        invariant chunksData == old(chunksData) && bm25Index == old(bm25Index)
      {
        match candidates[i]
        case Parsed(data) =>
          var ix := BuildIndex(Contents(data.chunks));
          chunksData := Some(data);
          bm25Index := Some(ix);
          return Loaded(i);
        case _ =>
      }
      return AllFailed;
    }

    /**
     * `searchChunks(query, maxResults, minScore)`: src throws and api
     * returns `[]` before anything is loaded; otherwise the index is built
     * if missing and the search runs on it.
     */
    method Search(query: string, maxResults: int, minScore: int, ln: real -> real) returns (r: Outcome<seq<Chunk>>)
      requires Valid()
      modifies this
      ensures Valid()
      ensures chunksData == old(chunksData)
      ensures old(chunksData).None? ==>
        bm25Index == old(bm25Index) && r == (if flavour == Src then NotLoaded else Ok([]))
      ensures old(chunksData).Some? ==>
        && bm25Index.Some?
        && r == Ok(SearchSpec(chunksData.value.chunks, bm25Index.value, ln, query, maxResults, minScore, flavour))
    {
      if chunksData.None? {
        if flavour == Src {
          return NotLoaded;
        }
        return Ok([]);
      }
      var ix := EnsureIndex();
      var result := SearchIndexed(chunksData.value.chunks, ix, ln, query, maxResults, minScore, flavour);
      r := Ok(result);
    }

    /** Builds the BM25 index over the loaded chunks the first time it is needed, and reuses it afterwards. */
    method EnsureIndex() returns (ix: Index)
      requires Valid() && chunksData.Some?
      modifies this
      ensures Valid()
      ensures chunksData == old(chunksData)
      ensures old(bm25Index).Some? ==> bm25Index == old(bm25Index)
      ensures bm25Index == Some(ix)
    {
      if bm25Index.None? {
        var docs := Contents(chunksData.value.chunks);
        ix := BuildIndex(docs);
        bm25Index := Some(ix);
        assert IndexFor(docs, ix);
      } else {
        ix := bm25Index.value;
      }
    }

    /** `getChunksByCategory(category)` (src only): throws before anything is loaded. */
    method ChunksByCategory(category: string) returns (r: Outcome<seq<Chunk>>)
      requires flavour == Src
      ensures chunksData.None? ==> r == NotLoaded
      ensures chunksData.Some? ==> r.Ok? && forall c :: c in r.value <==> c in chunksData.value.chunks && InCategory(c, category)
      ensures chunksData.Some? ==> r == Ok(ChunksIn(chunksData.value.chunks, category))
    {
      if chunksData.None? {
        return NotLoaded;
      }
      ChunksInMeaning(chunksData.value.chunks, category);
      r := Ok(ChunksIn(chunksData.value.chunks, category));
    }

    /**
     * `getAllCategories()`: src throws and api returns `[]` before anything
     * is loaded; otherwise every distinct non-empty category, once each.
     */
    method Categories() returns (r: Outcome<seq<string>>)
      ensures chunksData.None? ==> r == (if flavour == Src then NotLoaded else Ok([]))
      ensures chunksData.Some? ==> r == Ok(CategoriesOf(chunksData.value.chunks))
    {
      if chunksData.None? {
        if flavour == Src {
          return NotLoaded;
        }
        return Ok([]);
      }
      var categories := CollectCategories(chunksData.value.chunks);
      r := Ok(categories);
    }
  }
}
