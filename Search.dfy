/**
 * `searchChunks` once the chunks are loaded and the index is built
 * (src/chunkSearch.ts:272-470, api/lib/chunkSearch.ts:196-233): BM25 plus
 * one fifth of the booster score, the stable descending sort, the dynamic
 * threshold, the topic backfill (src only) and the top-two fallback.
 */
module Search {
  import opened Text
  import opened Regex
  import opened Corpus
  import opened Indexing
  import opened Bm25
  import opened Relevance
  import opened Ranking

  /** The BM25 score plus a fifth of the booster score. */
  function Combine(bm: real, kw: int): real {
    bm * 1.0 + kw as real * 0.2
  }

  /** The booster score of every chunk, in corpus order. */
  function KeywordScores(chunks: seq<Chunk>, query: string, flavour: Flavour): (r: seq<int>)
    ensures |r| == |chunks|
  {
    if chunks == [] then []
    else KeywordScores(chunks[..|chunks| - 1], query, flavour) + [RelevanceSpec(chunks[|chunks| - 1], query, flavour)]
  }

  lemma {:induction false} KeywordScoresAt(chunks: seq<Chunk>, query: string, flavour: Flavour, i: nat)
    requires i < |chunks|
    ensures KeywordScores(chunks, query, flavour)[i] == RelevanceSpec(chunks[i], query, flavour)
    decreases |chunks|
  {
    if i < |chunks| - 1 {
      KeywordScoresAt(chunks[..|chunks| - 1], query, flavour, i);
    }
  }

  /** `scoredChunks`: every chunk, in corpus order, with `bm * 1.0 + kw * 0.2`. */
  function Scoring(chunks: seq<Chunk>, ix: Index, ln: real -> real, terms: seq<string>, kws: seq<int>): (r: seq<Scored>)
    requires |kws| == |chunks|
    ensures |r| == |chunks|
  {
    if chunks == [] then []
    else
      var n := |chunks| - 1;
      Scoring(chunks[..n], ix, ln, terms, kws[..n]) + [Scored(chunks[n], Combine(Score(ix, ln, terms, n), kws[n]))]
  }

  lemma {:induction false} ScoringAt(chunks: seq<Chunk>, ix: Index, ln: real -> real, terms: seq<string>, kws: seq<int>, i: nat)
    requires |kws| == |chunks| && i < |chunks|
    ensures Scoring(chunks, ix, ln, terms, kws)[i] == Scored(chunks[i], Combine(Score(ix, ln, terms, i), kws[i]))
    decreases |chunks|
  {
    var n := |chunks| - 1;
    if i < n {
      ScoringAt(chunks[..n], ix, ln, terms, kws[..n], i);
    }
  }

  lemma KeywordScoresSnoc(chunks: seq<Chunk>, c: Chunk, query: string, flavour: Flavour)
    ensures KeywordScores(chunks + [c], query, flavour) == KeywordScores(chunks, query, flavour) + [RelevanceSpec(c, query, flavour)]
  {
    PrefixOfSnoc(chunks, c);
  }

  /** The `calculateRelevanceScore(chunk, query)` calls of the `chunks.map` callback. */
  method ScoreKeywords(chunks: seq<Chunk>, query: string, flavour: Flavour) returns (kws: seq<int>)
    ensures kws == KeywordScores(chunks, query, flavour)
  {
    kws := [];
    for i := 0 to |chunks|
      invariant kws == KeywordScores(chunks[..i], query, flavour)
    {
      TakeSnoc(chunks, i);
      KeywordScoresSnoc(chunks[..i], chunks[i], query, flavour);
      var kw := RelevanceScore(chunks[i], query, flavour);
      kws := kws + [kw];
    }
    assert chunks[..|chunks|] == chunks;
  }

  /** Each chunk paired with its combined score: its BM25 score (0 when absent) plus a fifth of its booster score. */
  function Combined(chunks: seq<Chunk>, scores: map<nat, real>, kws: seq<int>): (r: seq<Scored>)
    requires |kws| == |chunks|
  {
    seq(|chunks|, i requires 0 <= i < |chunks| => Scored(chunks[i], Combine(ScoreOf(scores, i), kws[i])))
  }

  /** Combining with the score map of the query terms gives the scored list of those terms. */
  lemma CombinedIsScoring(chunks: seq<Chunk>, scores: map<nat, real>, ix: Index, ln: real -> real,
                          terms: seq<string>, kws: seq<int>)
    requires |kws| == |chunks|
    requires forall d :: ScoreOf(scores, d) == Score(ix, ln, terms, d)
    ensures Combined(chunks, scores, kws) == Scoring(chunks, ix, ln, terms, kws)
  {
    forall i | 0 <= i < |chunks| ensures Combined(chunks, scores, kws)[i] == Scoring(chunks, ix, ln, terms, kws)[i] {
      ScoringAt(chunks, ix, ln, terms, kws, i);
    }
  }

  // ---------------------------------------------------------------------
  // The topic backfill of the src version

  /**
   * One backfill block: when the lower-cased query matches `need`, offer the
   * first `limit` chunks whose lower-cased file name matches `file` or whose
   * lower-cased content matches `content`. (The blocks whose query test
   * carries the `i` flag are written with the same lower-cased test: none of
   * their alternatives holds a cased letter.)
   */
  datatype Topic = Topic(need: seq<Pattern>, file: seq<Pattern>, content: seq<Pattern>, limit: nat)

  predicate Wanted(query: string, topic: Topic) {
    AnyFound(Lower(query), topic.need)
  }

  predicate Matches(c: Chunk, topic: Topic) {
    AnyFound(Lower(OrEmpty(c.metadata.fileName)), topic.file) || AnyFound(Lower(c.content), topic.content)
  }

  /** The chunks that match the topic, in their order. */
  function Picked(chunks: seq<Chunk>, topic: Topic): (r: seq<Chunk>)
    ensures forall k :: 0 <= k < |r| ==> r[k] in chunks && Matches(r[k], topic)
  {
    if chunks == [] then []
    else (if Matches(chunks[0], topic) then [chunks[0]] else []) + Picked(chunks[1..], topic)
  }

  /** `extra`: `.slice(0, limit)` of the matching chunks. */
  function Candidates(chunks: seq<Chunk>, topic: Topic): (r: seq<Chunk>)
    ensures |r| <= topic.limit
    ensures forall k :: 0 <= k < |r| ==> r[k] in chunks && Matches(r[k], topic)
  {
    Take(Picked(chunks, topic), topic.limit)
  }

  const Internet := Topic(
    [[Lit("sns")], [Lit("인터넷")], [Lit("정보통신망")], [Lit("홈페이지")], [Lit("전자우편")], [Lit("이메일")]],
    [],
    [[Lit("인터넷"), Spaces, Lit("홈페이지")], [Lit("전자우편")], [Lit("sns")], [Lit("카카오톡")], [Lit("유튜브")], [Lit("블로그")]],
    6)

  const Abroad := Topic(
    [[Lit("재외선거")], [Lit("국외부재자")], [Lit("재외")], [Lit("해외투표")], [Lit("영사관")]],
    [[Lit("재외선거")]],
    [[Lit("재외선거")], [Lit("국외부재자")], [Lit("재외")], [Lit("해외투표")], [Lit("영사관")]],
    8)

  const Student := Topic(
    [[Lit("학생")], [Lit("미성년")], [Lit("18세")]],
    [[Lit("학생")]],
    [[Lit("학생")], [Lit("미성년")], [Lit("18세")], [Lit("학교")], [Lit("교내")]],
    8)

  const Finance := Topic(
    [[Lit("정치자금")], [Lit("회계")], [Lit("후원금")], [Lit("회계책임자")], [Lit("선거비용")]],
    [[Lit("정치자금")], [Lit("회계실무")]],
    [[Lit("정치자금")], [Lit("회계")], [Lit("후원금")], [Lit("회계책임자")], [Lit("선거비용")]],
    8)

  const Speech := Topic(
    [[Lit("연설")], [Lit("대담")], [Lit("공개장소")], [Lit("마이크")], [Lit("확성장치")], [Lit("말(言)")]],
    [],
    [[Lit("공개장소"), Spaces, Lit("연설")], [Lit("연설"), Spaces, Lit("·"), Spaces, Lit("대담")],
     [Lit("확성장치")], [Lit("말(言)")], [Lit("전화를"), Spaces, Lit("이용")]],
    6)

  const Food := Topic(
    [[Lit("밥")], [Lit("식사")], [Lit("음식")], [Lit("음식물")], [Lit("다과")], [Lit("사줘")], [Lit("제공")]],
    [],
    [[Lit("음식물")], [Lit("다과")], [Lit("기부행위")], [Lit("\U{00A7}113")], [Lit("제113조")]],
    6)

  const Volunteer := Topic(
    [[Lit("자원봉사")], [Lit("봉사자")], [Lit("자원 봉사")], [Lit("전화"), Spaces, Lit("자원봉사")], [Lit("콜")]],
    [],
    [[Lit("자원봉사자")], [Lit("법"), Spaces, Opt('\U{00A7}'), Lit("135")], [Lit("\U{00A7}135")],
     [Lit("전화를"), Spaces, Lit("이용")], [Lit("ars")]],
    6)

  const Profile := Topic(
    [[Lit("명함")], [Lit("학력")], [Lit("비정규학력")], [Lit("홍보물")]],
    [],
    [[Lit("명함")], [Lit("정규학력")], [Lit("비정규학력")], [Lit("예비후보자홍보물")], [Lit("\U{00A7}60의3")], [Lit("\U{00A7}60의4")]],
    6)

  /** The backfill blocks, in the order the src version runs them. */
  const Topics: seq<Topic> := [Internet, Abroad, Student, Finance, Speech, Food, Volunteer, Profile]

  /** One block: backfill from its candidates when the query asks for the topic. */
  function BackfillTopic(relevant: seq<Chunk>, chunks: seq<Chunk>, query: string, topic: Topic, maxResults: int): seq<Chunk> {
    if Wanted(query, topic) then Backfill(relevant, Candidates(chunks, topic), maxResults) else relevant
  }

  /** The blocks `topics`, one after the other. */
  function BackfillTopics(relevant: seq<Chunk>, chunks: seq<Chunk>, query: string, topics: seq<Topic>, maxResults: int): seq<Chunk>
    decreases |topics|
  {
    if topics == [] then relevant
    else
      var r := BackfillTopics(relevant, chunks, query, topics[..|topics| - 1], maxResults);
      BackfillTopic(r, chunks, query, topics[|topics| - 1], maxResults)
  }

  /** The eight backfill blocks of the src version, run over the table of topics. */
  method BackfillAll(relevant: seq<Chunk>, chunks: seq<Chunk>, query: string, maxResults: int) returns (r: seq<Chunk>)
    ensures r == BackfillTopics(relevant, chunks, query, Topics, maxResults)
  {
    r := relevant;
    for i := 0 to |Topics|
      invariant r == BackfillTopics(relevant, chunks, query, Topics[..i], maxResults)
    {
      var topic := Topics[i];
      assert Topics[..i + 1][..i] == Topics[..i];
      if AnyFound(Lower(query), topic.need) {
        var extra := Candidates(chunks, topic);
        r := AppendUnseen(r, extra, maxResults);
      }
    }
    assert Topics[..|Topics|] == Topics;
  }

  /**
   * All blocks together only append: the earlier results stay in place, at
   * most `maxResults` chunks result unless there were more already, and every
   * appended chunk is a chunk of the corpus whose key was not present before it.
   */
  lemma BackfillTopicsMeaning(relevant: seq<Chunk>, chunks: seq<Chunk>, query: string,
                              topics: seq<Topic>, maxResults: int)
    ensures var r := BackfillTopics(relevant, chunks, query, topics, maxResults);
      && |r| >= |relevant| && r[..|relevant|] == relevant
      && (|relevant| <= maxResults ==> |r| <= maxResults)
      && (|relevant| >= maxResults ==> r == relevant)
      && (forall j :: |relevant| <= j < |r| ==> r[j] in chunks && Key(r[j]) !in KeySet(r[..j]))
  {
    BackfillTopicsGrow(relevant, chunks, query, topics, maxResults);
    BackfillTopicsFresh(relevant, chunks, query, topics, maxResults);
  }

  lemma {:induction false} BackfillTopicsGrow(relevant: seq<Chunk>, chunks: seq<Chunk>, query: string,
                                              topics: seq<Topic>, maxResults: int)
    ensures var r := BackfillTopics(relevant, chunks, query, topics, maxResults);
      && |r| >= |relevant| && r[..|relevant|] == relevant
      && (|relevant| <= maxResults ==> |r| <= maxResults)
      && (|relevant| >= maxResults ==> r == relevant)
    decreases |topics|
  {
    if topics != [] {
      var topic := topics[|topics| - 1];
      BackfillTopicsGrow(relevant, chunks, query, topics[..|topics| - 1], maxResults);
      var p := BackfillTopics(relevant, chunks, query, topics[..|topics| - 1], maxResults);
      if Wanted(query, topic) {
        var extra := Candidates(chunks, topic);
        BackfillGrows(p, extra, maxResults);
        var r := Backfill(p, extra, maxResults);
        PrefixOfPrefix(r, p, |relevant|);
      }
    }
  }

  lemma PrefixOfPrefix(r: seq<Chunk>, p: seq<Chunk>, n: nat)
    requires n <= |p| <= |r| && r[..|p|] == p
    ensures r[..n] == p[..n]
  {
    assert r[..n] == r[..|p|][..n];
  }

  lemma {:induction false} BackfillTopicsFresh(relevant: seq<Chunk>, chunks: seq<Chunk>, query: string,
                                               topics: seq<Topic>, maxResults: int)
    ensures var r := BackfillTopics(relevant, chunks, query, topics, maxResults);
      forall j :: |relevant| <= j < |r| ==> r[j] in chunks && Key(r[j]) !in KeySet(r[..j])
    decreases |topics|
  {
    if topics != [] {
      var topic := topics[|topics| - 1];
      BackfillTopicsFresh(relevant, chunks, query, topics[..|topics| - 1], maxResults);
      var p := BackfillTopics(relevant, chunks, query, topics[..|topics| - 1], maxResults);
      BackfillTopicsGrow(relevant, chunks, query, topics[..|topics| - 1], maxResults);
      BackfillTopicFresh(p, chunks, query, topic, maxResults, |relevant|);
    }
  }

  lemma BackfillTopicFresh(p: seq<Chunk>, chunks: seq<Chunk>, query: string, topic: Topic, maxResults: int, base: nat)
    requires base <= |p|
    requires forall j :: base <= j < |p| ==> p[j] in chunks && Key(p[j]) !in KeySet(p[..j])
    ensures var r := BackfillTopic(p, chunks, query, topic, maxResults);
      forall j :: base <= j < |r| ==> r[j] in chunks && Key(r[j]) !in KeySet(r[..j])
  {
    var r := BackfillTopic(p, chunks, query, topic, maxResults);
    if Wanted(query, topic) {
      var extra := Candidates(chunks, topic);
      assert forall k :: 0 <= k < |extra| ==> extra[k] in chunks;
      BackfillStaysFresh(p, extra, maxResults, base, chunks);
      assert r == Backfill(p, extra, maxResults);
    } else {
      assert r == p;
    }
  }

  // ---------------------------------------------------------------------
  // The whole search

  /** The scored chunks after `scoredChunks.sort(...)` (sorted in place, so both names denote it). */
  function Ranked(chunks: seq<Chunk>, ix: Index, ln: real -> real, query: string, flavour: Flavour): seq<Scored> {
    SortDesc(Scoring(chunks, ix, ln, QueryTerms(query), KeywordScores(chunks, query, flavour)))
  }

  /** `dynamicThreshold` for the ranked list. */
  function ThresholdFor(sorted: seq<Scored>, query: string, minScore: int): real {
    Threshold(TopScore(sorted), |QueryTerms(query)|, minScore)
  }

  /** `relevantChunks` before any backfill. */
  function Relevant(sorted: seq<Scored>, query: string, maxResults: int, minScore: int): seq<Chunk> {
    ChunksOf(Selected(sorted, ThresholdFor(sorted, query, minScore), maxResults))
  }

  /** The fallback: src filters and re-sorts the aliased sorted list, api only filters it. */
  function Fallback(sorted: seq<Scored>, flavour: Flavour): seq<Chunk> {
    if flavour == Src then ChunksOf(Take(SortDesc(Filter(sorted, Above(0.0))), 2))
    else ChunksOf(TopPositive(sorted))
  }

  /** What `searchChunks` returns from the ranked list `sorted`. */
  function Select(chunks: seq<Chunk>, sorted: seq<Scored>, query: string,
                  maxResults: int, minScore: int, flavour: Flavour): seq<Chunk>
  {
    var relevant := Relevant(sorted, query, maxResults, minScore);
    var result := if flavour == Src then BackfillTopics(relevant, chunks, query, Topics, maxResults) else relevant;
    if result != [] then result else Fallback(sorted, flavour)
  }

  /** What `searchChunks(query, maxResults, minScore)` returns. */
  function SearchSpec(chunks: seq<Chunk>, ix: Index, ln: real -> real, query: string,
                      maxResults: int, minScore: int, flavour: Flavour): seq<Chunk>
  {
    Select(chunks, Ranked(chunks, ix, ln, query, flavour), query, maxResults, minScore, flavour)
  }

  /** `searchChunks` on the loaded chunks and their index. */
  method SearchIndexed(chunks: seq<Chunk>, ix: Index, ln: real -> real, query: string,
                       maxResults: int, minScore: int, flavour: Flavour) returns (result: seq<Chunk>)
    ensures result == SearchSpec(chunks, ix, ln, query, maxResults, minScore, flavour)
  {
    var terms := QueryTerms(query);
    var scores := ScoreQuery(ix, ln, terms);
    var kws := ScoreKeywords(chunks, query, flavour);
    var scored := Combined(chunks, scores, kws);
    CombinedIsScoring(chunks, scores, ix, ln, terms, kws);
    var sorted := SortDesc(scored);
    var threshold := Threshold(TopScore(sorted), |terms|, minScore);
    var relevant := ChunksOf(Selected(sorted, threshold, maxResults));
    if flavour == Src {
      relevant := BackfillAll(relevant, chunks, query, maxResults);
    }
    if |relevant| == 0 {
      result := Fallback(sorted, flavour);
    } else {
      result := relevant;
    }
  }

  // ---------------------------------------------------------------------
  // What the search promises

  /** The ranked list is the scored list in descending order, a permutation of it. */
  lemma RankedSorted(chunks: seq<Chunk>, ix: Index, ln: real -> real, query: string, flavour: Flavour)
    ensures SortedDesc(Ranked(chunks, ix, ln, query, flavour))
    ensures multiset(Ranked(chunks, ix, ln, query, flavour)) == multiset(Scoring(chunks, ix, ln, QueryTerms(query), KeywordScores(chunks, query, flavour)))
  {
    SortDescFacts(Scoring(chunks, ix, ln, QueryTerms(query), KeywordScores(chunks, query, flavour)));
  }

  /**
   * api: the result is a prefix of the ranked chunks. On the threshold path
   * it holds at most `maxResults` chunks, each reaching the threshold;
   * otherwise it is the at most two best chunks with a positive score.
   */
  lemma ApiResultIsRankedPrefix(chunks: seq<Chunk>, sorted: seq<Scored>, query: string, maxResults: int, minScore: int)
    requires SortedDesc(sorted)
    ensures var th := ThresholdFor(sorted, query, minScore);
      var r := Select(chunks, sorted, query, maxResults, minScore, Api);
      && r == ChunksOf(sorted[..|r|])
      && (Selected(sorted, th, maxResults) != [] ==>
            (maxResults >= 0 ==> |r| <= maxResults) && forall k :: 0 <= k < |r| ==> sorted[k].score >= th)
      && (Selected(sorted, th, maxResults) == [] ==>
            |r| <= 2 && forall k :: 0 <= k < |r| ==> sorted[k].score > 0.0)
  {
    var th := ThresholdFor(sorted, query, minScore);
    var sel := Selected(sorted, th, maxResults);
    var r := Select(chunks, sorted, query, maxResults, minScore, Api);
    if sel != [] {
      SelectedMeaning(sorted, th, maxResults);
      assert r == ChunksOf(sel);
      ChunksOfPrefix(sorted, sel);
    } else {
      TopPositiveMeaning(sorted);
      var top := TopPositive(sorted);
      assert r == ChunksOf(top);
      ChunksOfPrefix(sorted, top);
    }
  }

  /** A prefix of `sorted`, seen as its chunks. */
  lemma ChunksOfPrefix(sorted: seq<Scored>, p: seq<Scored>)
    requires |p| <= |sorted| && p == sorted[..|p|]
    ensures |ChunksOf(p)| == |p| && ChunksOf(p) == ChunksOf(sorted[..|ChunksOf(p)|])
    ensures forall k :: 0 <= k < |p| ==> sorted[k] == p[k]
  {
  }

  /**
   * src: the result starts with the threshold selection, stays within
   * `maxResults` when that selection does, and appends only corpus chunks
   * whose key is new; when nothing is left after backfill it is the api
   * fallback, the at most two best positive chunks.
   */
  lemma SrcResultExtendsSelection(chunks: seq<Chunk>, sorted: seq<Scored>, query: string, maxResults: int, minScore: int)
    requires SortedDesc(sorted)
    ensures var relevant := Relevant(sorted, query, maxResults, minScore);
      var backfilled := BackfillTopics(relevant, chunks, query, Topics, maxResults);
      var r := Select(chunks, sorted, query, maxResults, minScore, Src);
      && (backfilled != [] ==>
            && r == backfilled
            && |r| >= |relevant| && r[..|relevant|] == relevant
            && (0 <= maxResults ==> |r| <= maxResults)
            && forall j :: |relevant| <= j < |r| ==> r[j] in chunks && Key(r[j]) !in KeySet(r[..j]))
      && (backfilled == [] ==> r == ChunksOf(TopPositive(sorted)) && |r| <= 2)
  {
    var th := ThresholdFor(sorted, query, minScore);
    SelectedMeaning(sorted, th, maxResults);
    var relevant := Relevant(sorted, query, maxResults, minScore);
    BackfillTopicsMeaning(relevant, chunks, query, Topics, maxResults);
    ResortedFallbackIsSame(sorted);
    TopPositiveMeaning(sorted);
  }

  /** Either flavour selects nothing only when nothing in the ranked list scores above 0. */
  lemma EmptyOnlyWithoutPositive(chunks: seq<Chunk>, sorted: seq<Scored>, query: string,
                                 maxResults: int, minScore: int, flavour: Flavour)
    requires SortedDesc(sorted)
    requires Select(chunks, sorted, query, maxResults, minScore, flavour) == []
    ensures forall k :: 0 <= k < |sorted| ==> sorted[k].score <= 0.0
  {
    ResortedFallbackIsSame(sorted);
    FilterOfSortedIsPrefix(sorted, Above(0.0));
    assert |TopPositive(sorted)| == 0;
    assert Filter(sorted, Above(0.0)) == [];
  }

  /**
   * The search returns nothing only when no chunk has a positive combined
   * score.
   */
  lemma SearchEmptyOnlyWithoutPositive(chunks: seq<Chunk>, ix: Index, ln: real -> real, query: string,
                                       maxResults: int, minScore: int, flavour: Flavour)
    requires SearchSpec(chunks, ix, ln, query, maxResults, minScore, flavour) == []
    ensures forall i :: 0 <= i < |chunks| ==>
      Combine(Score(ix, ln, QueryTerms(query), i), RelevanceSpec(chunks[i], query, flavour)) <= 0.0
  {
    var sorted := Ranked(chunks, ix, ln, query, flavour);
    var kws := KeywordScores(chunks, query, flavour);
    var scored := Scoring(chunks, ix, ln, QueryTerms(query), kws);
    RankedSorted(chunks, ix, ln, query, flavour);
    EmptyOnlyWithoutPositive(chunks, sorted, query, maxResults, minScore, flavour);
    forall i | 0 <= i < |chunks|
      ensures Combine(Score(ix, ln, QueryTerms(query), i), RelevanceSpec(chunks[i], query, flavour)) <= 0.0
    {
      ScoringAt(chunks, ix, ln, QueryTerms(query), kws, i);
      KeywordScoresAt(chunks, query, flavour, i);
      assert scored[i] in multiset(sorted);
      var j :| 0 <= j < |sorted| && sorted[j] == scored[i];
    }
  }
}
