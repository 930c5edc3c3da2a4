/**
 * `calculateRelevanceScore`, the keyword booster of both engine copies
 * (src/chunkSearch.ts and api/lib/chunkSearch.ts): synonym expansion of
 * the query words, weighted title / category / file-name / content
 * matches, a verbatim-query bonus, fixed topic bonuses and (src only) a
 * table of domain concepts.
 */
module Relevance {
  import opened Text
  import opened Regex
  import opened Corpus
  import opened Tokenizer

  /** Which copy of the engine: `src/chunkSearch.ts` or the slimmer `api/lib/chunkSearch.ts`. */
  datatype Flavour = Src | Api

  const Synonyms: map<string, seq<string>> := map[
    "sns" := ["인터넷", "정보통신망", "카카오톡", "유튜브", "페이스북", "인스타그램", "블로그", "홈페이지", "전자우편"],
    "문자" := ["문자메시지", "문자 메시지", "sms", "자동 동보통신", "82의5"],
    "문자메시지" := ["문자", "sms", "자동 동보통신", "82의5"],
    "자동동보통신" := ["자동 동보통신", "82의5", "문자메시지", "문자"],
    "공무원" := ["선거중립", "선거관여", "\U{00A7}85", "85", "\U{00A7}86", "86", "지방자치단체장", "지자체장"],
    "선거운동" := ["\U{00A7}58", "58", "정의"],
    "재외선거" := ["재외", "국외부재자", "해외투표", "영사관투표"],
    "학생" := ["18세", "미성년", "학교", "교내"],
    "정치자금" := ["후원금", "회계책임자", "선거비용", "회계실무"]]

  const Weights: map<string, nat> := map[
    "집회" := 15, "선거운동" := 18, "선거운동의 정의" := 22, "정의" := 12, "의미" := 10,
    "후원금" := 12, "선거사무소" := 12, "공무원" := 12, "홍보물" := 12, "기부행위" := 12,
    "문자메시지" := 18, "자동동보통신" := 20, "자동 동보통신" := 20, "82의5" := 18, "\U{00A7}82의5" := 18,
    "59조" := 10, "제59조" := 12, "58조" := 10, "제58조" := 12, "sns" := 15,
    "예비후보자" := 8, "제한" := 8, "금지" := 8, "허용" := 8]

  /** The weight of a word: its entry in the important-keyword table, 1 otherwise. */
  function KeywordWeight(w: string): (k: nat)
    ensures k >= 1
    ensures w !in Weights ==> k == 1
  {
    if w in Weights then Weights[w] else 1
  }

  // ---------------------------------------------------------------------
  // Query words and their expansion

  /** The lower-cased query split at white space, keeping words longer than one character. */
  function QueryWords(queryLower: string): seq<string> {
    LongOnly(SplitWs(queryLower))
  }

  /** `synonymMap[w]`, read as an own property (a word without an entry has no synonyms). */
  function SynonymsFor(w: string): seq<string> {
    if w in Synonyms then Synonyms[w] else []
  }

  /** `s.toLowerCase()` for every synonym, in order. */
  function LowerAll(ss: seq<string>): seq<string> {
    if ss == [] then [] else LowerAll(ss[..|ss| - 1]) + [Lower(ss[|ss| - 1])]
  }

  lemma {:induction false} LowerAllAt(ss: seq<string>, k: nat)
    requires k < |ss|
    ensures |LowerAll(ss)| == |ss| && LowerAll(ss)[k] == Lower(ss[k])
    decreases |ss|
  {
    LowerAllLength(ss[..|ss| - 1]);
    if k < |ss| - 1 {
      LowerAllAt(ss[..|ss| - 1], k);
    }
  }

  lemma {:induction false} LowerAllLength(ss: seq<string>)
    ensures |LowerAll(ss)| == |ss|
    decreases |ss|
  {
    if ss != [] {
      LowerAllLength(ss[..|ss| - 1]);
    }
  }

  /** The lower-cased synonyms of every query word, in the order they are added. */
  function SynonymWords(qw: seq<string>): seq<string> {
    if qw == [] then [] else SynonymWords(qw[..|qw| - 1]) + LowerAll(SynonymsFor(qw[|qw| - 1]))
  }

  /** `Array.from(expandedWords)`: the query words, then the synonyms, each once, in insertion order. */
  function ExpandedWords(qw: seq<string>): seq<string> {
    Dedup(qw + SynonymWords(qw))
  }

  /** The `expandedWords` set, filled query word by query word. */
  method Expand(qw: seq<string>) returns (words: seq<string>)
    ensures words == ExpandedWords(qw)
  {
    words := Dedup(qw);
    assert qw[..0] == [] && qw + [] == qw;
    for i := 0 to |qw|
      invariant words == Dedup(qw + SynonymWords(qw[..i]))
    {
      var syns := SynonymsFor(qw[i]);
      ghost var base := qw + SynonymWords(qw[..i]);
      words := AddSynonyms(words, base, syns);
      assert qw[..i + 1][..i] == qw[..i];
      assert SynonymWords(qw[..i + 1]) == SynonymWords(qw[..i]) + LowerAll(syns);
      AppendAssoc(qw, SynonymWords(qw[..i]), LowerAll(syns));
    }
    assert qw[..|qw|] == qw;
  }

  /** Adds each synonym, lower-cased, to the set of expanded words. */
  method AddSynonyms(words: seq<string>, ghost base: seq<string>, syns: seq<string>) returns (words': seq<string>)
    requires words == Dedup(base)
    ensures words' == Dedup(base + LowerAll(syns))
  {
    words' := words;
    assert syns[..0] == [] && base + [] == base;
    for j := 0 to |syns|
      invariant words' == Dedup(base + LowerAll(syns[..j]))
    {
      var s := Lower(syns[j]);
      DedupSnoc(base + LowerAll(syns[..j]), s);
      assert syns[..j + 1][..j] == syns[..j];
      assert LowerAll(syns[..j + 1]) == LowerAll(syns[..j]) + [s];
      AppendAssoc(base, LowerAll(syns[..j]), [s]);
      if s !in words' {
        words' := words' + [s];
      }
    }
    assert syns[..|syns|] == syns;
  }

  /** Every query word and every lower-cased synonym of one is among the expanded words. */
  lemma ExpandedWordsCover(qw: seq<string>, w: string)
    requires w in qw
    ensures w in ExpandedWords(qw)
    ensures forall s :: s in SynonymsFor(w) ==> Lower(s) in ExpandedWords(qw)
  {
    var all := qw + SynonymWords(qw);
    DedupElements(all);
    assert w in all;
    forall s | s in SynonymsFor(w) ensures Lower(s) in ExpandedWords(qw) {
      SynonymWordsCover(qw, w, s);
      assert Lower(s) in all;
    }
  }

  lemma {:induction false} SynonymWordsCover(qw: seq<string>, w: string, s: string)
    requires w in qw && s in SynonymsFor(w)
    ensures Lower(s) in SynonymWords(qw)
    decreases |qw|
  {
    var init := qw[..|qw| - 1];
    var last := qw[|qw| - 1];
    assert qw == init + [last];
    if w == last {
      var k :| 0 <= k < |SynonymsFor(w)| && SynonymsFor(w)[k] == s;
      LowerAllAt(SynonymsFor(w), k);
      assert LowerAll(SynonymsFor(w))[k] == Lower(s);
    } else {
      SynonymWordsCover(init, w, s);
    }
  }

  /** Every expanded word is a query word or a lower-cased synonym of one; none repeats. */
  lemma ExpandedWordsOrigin(qw: seq<string>)
    ensures forall v :: v in ExpandedWords(qw) ==> v in qw || v in SynonymWords(qw)
    ensures forall i, j :: 0 <= i < j < |ExpandedWords(qw)| ==> ExpandedWords(qw)[i] != ExpandedWords(qw)[j]
  {
    DedupElements(qw + SynonymWords(qw));
  }

  // ---------------------------------------------------------------------
  // The scored fields

  /** The raw query and the lower-cased texts the booster matches against. */
  datatype Fields = Fields(
    query: string,
    queryLower: string,
    content: string,
    title: string,
    category: string,
    fileName: string,
    rawTitle: string)

  /** The lower-cased query, content and metadata fields (a missing field reads as empty) that the booster tests. */
  function FieldsOf(chunk: Chunk, query: string): (f: Fields)
    ensures f.queryLower == Lower(query) && f.content == Lower(chunk.content)
    ensures f.title == Lower(OrEmpty(chunk.metadata.title)) && f.rawTitle == OrEmpty(chunk.metadata.title)
    ensures f.category == Lower(OrEmpty(chunk.metadata.category))
    ensures f.fileName == Lower(OrEmpty(chunk.metadata.fileName))
  {
    Fields(query, Lower(query), Lower(chunk.content), Lower(OrEmpty(chunk.metadata.title)),
           Lower(OrEmpty(chunk.metadata.category)), Lower(OrEmpty(chunk.metadata.fileName)),
           OrEmpty(chunk.metadata.title))
  }

  /** What one expanded word earns: 20, 10 and 12 times its weight for a title, category and file-name hit, 3 times per content occurrence. */
  function WordScore(f: Fields, w: string): int {
    var k: int := KeywordWeight(w);
    (if Contains(f.title, w) then 20 * k else 0)
    + (if Contains(f.category, w) then 10 * k else 0)
    + (if Contains(f.fileName, w) then 12 * k else 0)
    + CountOccurrences(f.content, w) * 3 * k
  }

  function WordsScore(f: Fields, words: seq<string>): int {
    if words == [] then 0 else WordsScore(f, words[..|words| - 1]) + WordScore(f, words[|words| - 1])
  }

  // ---------------------------------------------------------------------
  // Topic bonuses

  const SnsAlts: seq<Pattern> := [[Lit("sns")], [Lit("인터넷")], [Lit("정보통신망")], [Lit("홈페이지")], [Lit("전자우편")]]
  const DefinitionPattern: Pattern := [Lit("선거운동"), AnyOnLine, Lit("정의")]
  const TextingAlts: seq<Pattern> := [[Lit("문자")], [Lit("sms")], [Lit("자동")], [Lit("82의5")]]
  const OfficialAlts: seq<Pattern> := [[Lit("공무원")], [Lit("지방자치단체장")], [Lit("지자체장")], [Lit("선거중립")], [Lit("선거관여")]]
  const AbroadAlts: seq<Pattern> := [[Lit("재외선거")], [Lit("국외부재자")], [Lit("재외")], [Lit("해외투표")], [Lit("영사관")]]
  const StudentAlts: seq<Pattern> := [[Lit("학생")], [Lit("미성년")], [Lit("18세")]]
  const FinanceAlts: seq<Pattern> := [[Lit("정치자금")], [Lit("회계")], [Lit("후원금")]]

  /** The query (as typed in src, lower-cased in api) and the title both contain `집회`. */
  predicate AssemblyCase(f: Fields, flavour: Flavour) {
    (if flavour == Src then Contains(f.query, "집회") else Contains(f.queryLower, "집회"))
    && Contains(f.rawTitle, "집회")
  }

  /** The SNS alternation with the `i` flag, on the raw query (src) or the lower-cased one (api), and on the title. */
  predicate SnsCase(f: Fields, flavour: Flavour) {
    AnyFound(Lower(if flavour == Src then f.query else f.queryLower), SnsAlts)
    && AnyFound(Lower(f.title), SnsAlts)
  }

  predicate DonationCase(f: Fields, flavour: Flavour) {
    (if flavour == Src then Contains(f.query, "후원금") else Contains(f.queryLower, "후원금"))
    && Contains(f.rawTitle, "후원금")
  }

  /** The definition-of-campaigning bonus (src tests the statute-58 reference twice, api once). */
  predicate DefinitionCase(f: Fields, flavour: Flavour) {
    (Found(f.queryLower, DefinitionPattern) || Contains(f.queryLower, "선거운동이 뭐") || Contains(f.queryLower, "선거운동이란"))
    && (Contains(f.content, "법 \U{00A7}58") || (flavour == Src && Contains(f.content, "법 \U{00A7}58")) || Contains(f.title, "선거운동의 정의"))
  }

  predicate TextingCase(f: Fields) {
    AnyFound(Lower(f.queryLower), TextingAlts)
    && (Contains(f.content, "82의5") || Contains(f.content, "자동 동보통신") || Contains(f.content, "문자메시지"))
  }

  predicate OfficialCase(f: Fields) {
    AnyFound(f.queryLower, OfficialAlts)
    && (Contains(f.content, "\U{00A7}85") || Contains(f.content, "\U{00A7}86") || Contains(f.content, "공무원") || Contains(f.title, "공무원"))
  }

  predicate AbroadCase(f: Fields) {
    AnyFound(f.queryLower, AbroadAlts) && Contains(f.fileName, "재외선거")
  }

  predicate StudentCase(f: Fields) {
    AnyFound(f.queryLower, StudentAlts) && (Contains(f.fileName, "학생") || Contains(f.fileName, "정당활동"))
  }

  predicate FinanceCase(f: Fields) {
    AnyFound(f.queryLower, FinanceAlts) && (Contains(f.fileName, "정치자금") || Contains(f.fileName, "회계실무"))
  }

  /** A domain concept of the src booster: a query trigger, a content-or-title indicator and a boost. */
  datatype Concept = Concept(trigger: seq<Pattern>, indicator: seq<Pattern>, boost: nat)

  const SpeechConcept := Concept(
    [[Lit("연설")], [Lit("대담")], [Lit("공개장소")], [Lit("마이크")], [Lit("확성장치")]],
    [[Lit("공개장소"), Spaces, Lit("연설")], [Lit("연설"), Spaces, Lit("·"), Spaces, Lit("대담")],
     [Lit("확성장치")], [Lit("말(言)")]],
    160)

  const FoodConcept := Concept(
    [[Lit("밥")], [Lit("식사")], [Lit("음식")], [Lit("음식물")], [Lit("다과")], [Lit("사줘")], [Lit("제공")]],
    [[Lit("기부행위")], [Lit("음식물")], [Lit("다과")], [Lit("법"), Spaces, Opt('\U{00A7}'), Lit("113")],
     [Lit("\U{00A7}113")], [Lit("제113조")]],
    170)

  const VolunteerTrigger: seq<Pattern> :=
    [[Lit("자원봉사")], [Lit("봉사자")], [Lit("자원 봉사")], [Lit("선거사무관계자")],
     [Lit("전화"), Spaces, Lit("자원봉사")], [Lit("콜")]]

  const VolunteerIndicatorStem: seq<Pattern> :=
    [[Lit("자원봉사자")], [Lit("선거사무관계자")], [Lit("법"), Spaces, Opt('\U{00A7}'), Lit("135")],
     [Lit("\U{00A7}135")], [Lit("전화를"), Spaces, Lit("이용")]]

  /** The volunteer concept as written: its last alternative is upper-case `ARS`. */
  const VolunteerConceptAsWritten := Concept(VolunteerTrigger, VolunteerIndicatorStem + [[Lit("ARS")]], 150)

  /** The volunteer concept with the `ARS` alternative in the case of the text it is tested on. */
  const VolunteerConcept := Concept(VolunteerTrigger, VolunteerIndicatorStem + [[Lit("ars")]], 150)

  const CandidateConcept := Concept(
    [[Lit("예비후보")], [Lit("예비 후보")]],
    [[Lit("예비후보자")], [Lit("\U{00A7}60의3")], [Lit("\U{00A7}60의4")], [Lit("명함")], [Lit("공약집")]],
    140)

  const MinorConcept := Concept([[Lit("미성년")], [Lit("18세")]], [[Lit("18세")], [Lit("미성년자")]], 120)

  const Concepts: seq<Concept> := [SpeechConcept, FoodConcept, VolunteerConcept, CandidateConcept, MinorConcept]

  /** A concept applies when its trigger matches the query and its indicator matches the content or the title. */
  predicate ConceptApplies(f: Fields, c: Concept) {
    AnyFound(f.queryLower, c.trigger) && (AnyFound(f.content, c.indicator) || AnyFound(f.title, c.indicator))
  }

  function ConceptBonus(f: Fields, cs: seq<Concept>): int {
    if cs == [] then 0
    else ConceptBonus(f, cs[..|cs| - 1]) + (if ConceptApplies(f, cs[|cs| - 1]) then cs[|cs| - 1].boost else 0)
  }

  /** The bonuses for the whole query and for the title (src/chunkSearch.ts:210-223). */
  function QueryBonus(f: Fields, flavour: Flavour): int {
    (if Contains(f.content, f.queryLower) then 50 else 0)
    + (if AssemblyCase(f, flavour) then 100 else 0)
    + (if SnsCase(f, flavour) then 100 else 0)
    + (if DonationCase(f, flavour) then 100 else 0)
  }

  /** The bonuses for statute topics found in the content. */
  function StatuteBonus(f: Fields, flavour: Flavour): int {
    (if DefinitionCase(f, flavour) then 150 else 0)
    + (if TextingCase(f) then 150 else 0)
    + (if OfficialCase(f) then 140 else 0)
  }

  /** The bonuses for a matching document (file) name. */
  function FileNameBonus(f: Fields): int {
    (if AbroadCase(f) then 200 else 0)
    + (if StudentCase(f) then 160 else 0)
    + (if FinanceCase(f) then 180 else 0)
  }

  /** The sum of the fixed topic bonuses, plus the concept table for src. */
  function Bonus(f: Fields, flavour: Flavour): int {
    QueryBonus(f, flavour) + StatuteBonus(f, flavour) + FileNameBonus(f)
    + (if flavour == Src then ConceptBonus(f, Concepts) else 0)
  }

  /** The booster's score of `chunk` for `query`. */
  function RelevanceSpec(chunk: Chunk, query: string, flavour: Flavour): int {
    var f := FieldsOf(chunk, query);
    WordsScore(f, ExpandedWords(QueryWords(f.queryLower))) + Bonus(f, flavour)
  }

  /** `calculateRelevanceScore(chunk, query)`. */
  method RelevanceScore(chunk: Chunk, query: string, flavour: Flavour) returns (score: int)
    ensures score == RelevanceSpec(chunk, query, flavour)
  {
    var f := FieldsOf(chunk, query);
    var queryWords := QueryWords(f.queryLower);
    var words := Expand(queryWords);
    score := ScoreWords(f, words);
    var bonus := TopicBonus(f, flavour);
    score := score + bonus;
    if flavour == Src {
      var concepts := ApplyConcepts(f, Concepts);
      score := score + concepts;
    }
  }

  /** The loop over the expanded words, in insertion order, accumulating their scores. */
  method ScoreWords(f: Fields, words: seq<string>) returns (score: int)
    ensures score == WordsScore(f, words)
  {
    score := 0;
    for i := 0 to |words|
      invariant score == WordsScore(f, words[..i])
    {
      var add := ScoreWord(f, words[i]);
      score := score + add;
      assert words[..i + 1][..i] == words[..i];
    }
    assert words[..|words|] == words;
  }

  /** The body of the per-word callback: the weighted title, category, file-name and content matches. */
  method ScoreWord(f: Fields, word: string) returns (score: int)
    ensures score == WordScore(f, word)
  {
    var k: int := KeywordWeight(word);
    score := 0;
    if Contains(f.title, word) {
      score := score + 20 * k;
    }
    if Contains(f.category, word) {
      score := score + 10 * k;
    }
    if Contains(f.fileName, word) {
      score := score + 12 * k;
    }
    var contentMatches: int := CountOccurrences(f.content, word);
    score := score + contentMatches * 3 * k;
  }

  /** The fixed `if (...) score += n` bonuses in source order. */
  method TopicBonus(f: Fields, flavour: Flavour) returns (bonus: int)
    ensures bonus == QueryBonus(f, flavour) + StatuteBonus(f, flavour) + FileNameBonus(f)
  {
    bonus := 0;
    if Contains(f.content, f.queryLower) {
      bonus := bonus + 50;
    }
    if AssemblyCase(f, flavour) {
      bonus := bonus + 100;
    }
    if SnsCase(f, flavour) {
      bonus := bonus + 100;
    }
    if DonationCase(f, flavour) {
      bonus := bonus + 100;
    }
    assert bonus == QueryBonus(f, flavour);
    var statute := 0;
    if DefinitionCase(f, flavour) {
      statute := statute + 150;
    }
    if TextingCase(f) {
      statute := statute + 150;
    }
    if OfficialCase(f) {
      statute := statute + 140;
    }
    assert statute == StatuteBonus(f, flavour);
    bonus := bonus + statute;
    var fileName := 0;
    if AbroadCase(f) {
      fileName := fileName + 200;
    }
    if StudentCase(f) {
      fileName := fileName + 160;
    }
    if FinanceCase(f) {
      fileName := fileName + 180;
    }
    assert fileName == FileNameBonus(f);
    bonus := bonus + fileName;
  }

  /** The loop over the concepts, adding the boost of each one that applies. */
  method ApplyConcepts(f: Fields, cs: seq<Concept>) returns (bonus: int)
    ensures bonus == ConceptBonus(f, cs)
  {
    bonus := 0;
    for i := 0 to |cs|
      invariant bonus == ConceptBonus(f, cs[..i])
    {
      if ConceptApplies(f, cs[i]) {
        bonus := bonus + cs[i].boost;
      }
      assert cs[..i + 1][..i] == cs[..i];
    }
    assert cs[..|cs|] == cs;
  }

  // ---------------------------------------------------------------------
  // Properties

  lemma {:induction false} WordsScoreNonNegative(f: Fields, words: seq<string>)
    ensures WordsScore(f, words) >= 0
    decreases |words|
  {
    if words != [] {
      WordsScoreNonNegative(f, words[..|words| - 1]);
      WordScoreNonNegative(f, words[|words| - 1]);
    }
  }

  lemma {:induction false} ConceptBonusNonNegative(f: Fields, cs: seq<Concept>)
    ensures ConceptBonus(f, cs) >= 0
    decreases |cs|
  {
    if cs != [] {
      ConceptBonusNonNegative(f, cs[..|cs| - 1]);
    }
  }

  /** The booster never returns a negative score. */
  lemma RelevanceNonNegative(chunk: Chunk, query: string, flavour: Flavour)
    ensures RelevanceSpec(chunk, query, flavour) >= 0
  {
    var f := FieldsOf(chunk, query);
    WordsScoreNonNegative(f, ExpandedWords(QueryWords(f.queryLower)));
    ConceptBonusNonNegative(f, Concepts);
  }

  /** A chunk whose lower-cased content holds the whole lower-cased query earns at least the 50-point bonus. */
  lemma VerbatimQueryBonus(chunk: Chunk, query: string, flavour: Flavour)
    requires Contains(Lower(chunk.content), Lower(query))
    ensures RelevanceSpec(chunk, query, flavour) >= 50
  {
    var f := FieldsOf(chunk, query);
    WordsScoreNonNegative(f, ExpandedWords(QueryWords(f.queryLower)));
    ConceptBonusNonNegative(f, Concepts);
  }

  lemma WordScoreNonNegative(f: Fields, w: string)
    ensures WordScore(f, w) >= 0
  {
    var k: int := KeywordWeight(w);
    var n: int := CountOccurrences(f.content, w);
    assert n * 3 * k >= 0 by {
      assert n * 3 >= 0;
    }
  }

  /**
   * Every expanded word's hits reach the total: the words' score is at least
   * three times a word's weight per content occurrence of it, and at least
   * twenty times its weight when the title holds it.
   */
  lemma WordScoreCountsOccurrences(f: Fields, words: seq<string>, i: nat)
    requires i < |words|
    ensures WordsScore(f, words) >= WordScore(f, words[i])
    ensures WordsScore(f, words) >= CountOccurrences(f.content, words[i]) * 3 * KeywordWeight(words[i])
    ensures Contains(f.title, words[i]) ==> WordsScore(f, words) >= 20 * KeywordWeight(words[i])
  {
    WordsScoreAtLeast(f, words, i);
    WordScoreBounds(f, words[i]);
  }

  /** The words' score is at least the score of any one of them. */
  lemma {:induction false} WordsScoreAtLeast(f: Fields, words: seq<string>, i: nat)
    requires i < |words|
    ensures WordsScore(f, words) >= WordScore(f, words[i])
    decreases |words|
  {
    var n := |words| - 1;
    var init := words[..n];
    if i < n {
      assert init[i] == words[i];
      WordsScoreAtLeast(f, init, i);
      WordScoreNonNegative(f, words[n]);
    } else {
      WordsScoreNonNegative(f, init);
    }
  }

  /** One word scores at least three times its weight per content occurrence, and twenty times for a title hit. */
  lemma WordScoreBounds(f: Fields, w: string)
    ensures WordScore(f, w) >= CountOccurrences(f.content, w) * 3 * KeywordWeight(w)
    ensures Contains(f.title, w) ==> WordScore(f, w) >= 20 * KeywordWeight(w)
  {
    var k: nat := KeywordWeight(w);
    var n: nat := CountOccurrences(f.content, w);
    var title := if Contains(f.title, w) then 20 * k else 0;
    var rest := (if Contains(f.category, w) then 10 * k else 0) + (if Contains(f.fileName, w) then 12 * k else 0);
    assert WordScore(f, w) == title + rest + n * 3 * k;
    ScoreParts(title, rest, n, k);
  }

  lemma ScoreParts(title: nat, rest: nat, n: nat, k: nat)
    ensures title + rest + n * 3 * k >= n * 3 * k
    ensures title + rest + n * 3 * k >= title
  {
    assert n * 3 * k >= 0 by {
      assert n * 3 >= 0;
    }
  }

  /** A text without ASCII letters is found in a string exactly when it is found in its lower-cased form. */
  lemma {:induction false} LowerKeepsContains(s: string, t: string)
    requires forall i :: 0 <= i < |t| ==> !('A' <= t[i] <= 'Z') && !('a' <= t[i] <= 'z')
    ensures Contains(Lower(s), t) <==> Contains(s, t)
    decreases |s|
  {
    var ls := Lower(s);
    assert StartsWith(ls, t) <==> StartsWith(s, t) by {
      if |t| <= |s| {
        if s[..|t|] == t {
          assert forall i :: 0 <= i < |t| ==> ls[..|t|][i] == LowerChar(s[i]) == t[i];
        }
        if ls[..|t|] == t {
          assert forall i :: 0 <= i < |t| ==> s[..|t|][i] == t[i] by {
            forall i | 0 <= i < |t| ensures s[..|t|][i] == t[i] {
              assert LowerChar(s[i]) == t[i];
            }
          }
        }
      }
    }
    if s != [] {
      assert ls[1..] == Lower(s[1..]);
      LowerKeepsContains(s[1..], t);
    }
  }

  lemma LowerTwice(s: string)
    ensures Lower(Lower(s)) == Lower(s)
  {
  }

  /**
   * The two copies agree on everything but the concept table: the src score
   * is the api score plus the concept bonus, so it is never smaller.
   */
  lemma SrcIsApiPlusConcepts(chunk: Chunk, query: string)
    ensures RelevanceSpec(chunk, query, Src) == RelevanceSpec(chunk, query, Api) + ConceptBonus(FieldsOf(chunk, query), Concepts)
    ensures RelevanceSpec(chunk, query, Src) >= RelevanceSpec(chunk, query, Api)
  {
    var f := FieldsOf(chunk, query);
    FixedBonusesAgree(chunk, query);
    ConceptBonusNonNegative(f, Concepts);
  }

  /**
   * The fixed topic bonuses do not depend on the flavour: the raw and the
   * lower-cased query agree on Hangul substrings and under the `i` flag.
   */
  lemma FixedBonusesAgree(chunk: Chunk, query: string)
    ensures var f := FieldsOf(chunk, query);
      QueryBonus(f, Src) == QueryBonus(f, Api) && StatuteBonus(f, Src) == StatuteBonus(f, Api)
  {
    var f := FieldsOf(chunk, query);
    LowerKeepsContains(query, "집회");
    LowerKeepsContains(query, "후원금");
    LowerTwice(query);
    assert AssemblyCase(f, Src) == AssemblyCase(f, Api);
    assert SnsCase(f, Src) == SnsCase(f, Api);
    assert DonationCase(f, Src) == DonationCase(f, Api);
    assert DefinitionCase(f, Src) == DefinitionCase(f, Api);
  }

  // ---------------------------------------------------------------------
  // As written: the `ARS` alternative can never match

  /** Removing `ARS` from the volunteer indicator changes nothing on lower-cased text. */
  lemma ArsAlternativeIsDead(s: string)
    ensures AnyFound(Lower(s), VolunteerConceptAsWritten.indicator) <==> AnyFound(Lower(s), VolunteerIndicatorStem)
  {
    var alts := VolunteerConceptAsWritten.indicator;
    UpperLiteralNeverFoundInLower(s, [Lit("ARS")]);
    AnyFoundAppend(Lower(s), VolunteerIndicatorStem, [[Lit("ARS")]]);
    assert !AnyFound(Lower(s), [[Lit("ARS")]]);
  }

  lemma {:induction false} AnyFoundAppend(s: string, a: seq<Pattern>, b: seq<Pattern>)
    ensures AnyFound(s, a + b) <==> AnyFound(s, a) || AnyFound(s, b)
    decreases |a|
  {
    if a != [] {
      assert (a + b)[1..] == a[1..] + b;
      AnyFoundAppend(s, a[1..], b);
    } else {
      assert a + b == b;
    }
  }

  /** So the as-written volunteer concept is the one whose indicator lacks the `ars` alternative. */
  lemma ArsAsWrittenMissesArs(f: Fields)
    requires f.content == Lower(f.content) && f.title == Lower(f.title)
    ensures ConceptApplies(f, VolunteerConceptAsWritten) <==>
      AnyFound(f.queryLower, VolunteerTrigger)
      && (AnyFound(f.content, VolunteerIndicatorStem) || AnyFound(f.title, VolunteerIndicatorStem))
  {
    ArsAlternativeIsDead(f.content);
    ArsAlternativeIsDead(f.title);
  }

  /** With `ars`, a volunteer query and any text mentioning ARS get the 150-point concept boost. */
  lemma CorrectedVolunteerMatchesArs(f: Fields)
    requires AnyFound(f.queryLower, VolunteerTrigger) && Contains(f.content, "ars")
    ensures ConceptApplies(f, VolunteerConcept)
  {
    FoundLiteral(f.content, "ars");
    AnyFoundAppend(f.content, VolunteerIndicatorStem, [[Lit("ars")]]);
  }

  // ---------------------------------------------------------------------
  // As written: `synonymMap[w]` also sees the prototype's members

  /**
   * The lower-case names every object literal inherits from
   * `Object.prototype`; `synonymMap[w]` returns a non-array for them.
   */
  const InheritedKeys: set<string> := {"constructor", "__proto__"}

  datatype Lookup = NoEntry | Entry(words: seq<string>) | Inherited

  /** `synonymMap[w]` as the object literal answers it. */
  function SynonymLookupAsWritten(w: string): (r: Lookup)
    ensures r.Entry? <==> w in Synonyms
    ensures r.Inherited? <==> w in InheritedKeys
  {
    if w in Synonyms then Entry(Synonyms[w]) else if w in InheritedKeys then Inherited else NoEntry
  }

  /**
   * The expansion as written: `if (syns) syns.forEach(...)` throws a
   * TypeError (here `None`) once a query word names an inherited member.
   */
  function ExpandAsWritten(qw: seq<string>): Option<seq<string>> {
    if qw == [] then Some([])
    else
      match ExpandAsWritten(qw[..|qw| - 1])
      case None => None
      case Some(syns) =>
        match SynonymLookupAsWritten(qw[|qw| - 1])
        case Inherited => None
        case Entry(ws) => Some(syns + LowerAll(ws))
        case NoEntry => Some(syns)
  }

  /** The as-written expansion throws exactly when some query word is an inherited key, and otherwise agrees with `SynonymWords`. */
  lemma {:induction false} ExpandAsWrittenThrows(qw: seq<string>)
    ensures ExpandAsWritten(qw).None? <==> exists i :: 0 <= i < |qw| && qw[i] in InheritedKeys
    ensures ExpandAsWritten(qw).Some? ==> ExpandAsWritten(qw).value == SynonymWords(qw)
    decreases |qw|
  {
    if qw != [] {
      var init := qw[..|qw| - 1];
      ExpandAsWrittenThrows(init);
      if exists i :: 0 <= i < |init| && init[i] in InheritedKeys {
        var i :| 0 <= i < |init| && init[i] in InheritedKeys;
        assert qw[i] == init[i];
      }
      if exists i :: 0 <= i < |qw| && qw[i] in InheritedKeys {
        var i :| 0 <= i < |qw| && qw[i] in InheritedKeys;
        if i < |init| {
          assert init[i] == qw[i];
        }
      }
    }
  }

  lemma ConstructorIsOneWord()
    ensures QueryWords("constructor") == ["constructor"]
  {
    var q := "constructor";
    assert forall k :: 0 <= k < |q| ==> !IsSpace(q[k]);
    assert FirstSpace(q) == |q|;
    assert SplitWs(q) == [q];
  }

  lemma ConstructorHasNoSynonyms()
    ensures SynonymWords(["constructor"]) == []
  {
    assert "constructor" !in Synonyms;
    assert ["constructor"][..0] == [];
  }

  /** The (lower-cased) query "constructor" makes the as-written booster throw; the corrected one scores the word. */
  lemma ConstructorQueryThrows()
    ensures QueryWords("constructor") == ["constructor"]
    ensures ExpandAsWritten(["constructor"]).None?
    ensures ExpandedWords(["constructor"]) == ["constructor"]
  {
    var q := "constructor";
    ConstructorIsOneWord();
    ConstructorHasNoSynonyms();
    ExpandAsWrittenThrows([q]);
    assert [q] + [] == [q];
  }
}
