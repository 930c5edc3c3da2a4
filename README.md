# CAG_NEChat retrieval core in Dafny

CAG_NEChat answers questions about Korean election law. It retrieves text
chunks of a casebook of the National Election Commission and hands them to a
language model. This project models the in-process parts of that pipeline and
proves what they guarantee.

- **Tokenizer** (`Tokenizer`). `cleanForIndex` and `tokenize`. Both copies
  of the engine share them: src/chunkSearch.ts and api/lib/chunkSearch.ts.
- **Index builder** (`Indexing`).
  - `buildBM25Index` is a method over an `array` of document lengths and a
    postings map.
  - It is proved against a specification of the postings.
- **BM25 scorer** (`Bm25`).
  - This is the score loop inside `searchChunks`, with k1 = 1.2 and b = 0.75.
  - Scores are exact reals. `Math.log` is a parameter: only `ln(x) > 0` for
    `x > 1` is assumed.
- **Heuristic booster** (`Relevance`). `calculateRelevanceScore` comes in two
  flavours:
  - `Src` has the domain-concept table;
  - `Api` does not.
- **Result selector** (`Ranking`, `Search`):
  - the combined score;
  - a stable descending sort;
  - the dynamic threshold;
  - the eight topic backfill blocks (src only);
  - the top-two fallback.
- **Module state** (`Store.Engine`), a class whose fields are the module
  globals `chunksData` and `bm25Index`.
  - `loadChunks` works over abstract read results.
  - `searchChunks`, `getChunksByCategory` and `getAllCategories` either throw
    (src) or return `[]` (api) before anything is loaded.
- **Line chunker** (`Chunker`). `createChunks` of scripts/downloadAndChunkPDF.ts.
- **Chunk assemblers**:
  - `createChunksFromCases` of scripts/createSampleChunks.ts (`SampleChunks`);
  - `normalizeWhitespace` and the page loop of `buildChunksFromPdf` of
    scripts/ingest.ts (`Ingest`).
- **Response helpers of api/chat.ts** (`Chat`):
  - `cleanText`;
  - the one-chunk-per-key filter;
  - the `sources` list and the context string;
  - the rewrite of inline `[참조 n…]` citations.

`Text`, `Regex` and `Corpus` hold shared definitions:
- JavaScript string semantics: the `\s` class, `trim`, `split`, `join`,
  `includes`, `Set` insertion order, number formatting;
- the small fragment of regular expressions the booster uses;
- the chunk records.

## Model

| member | source | states |
|---|---|---|
| Tokenizer.TokensAreTerms | src/chunkSearch.ts:62-75 | every token has at least two characters, all lower-case letters or digits, none private-use or zero-width |
| Tokenizer.CleanedChars | src/chunkSearch.ts:62-67 | the cleaned text holds no private-use, zero-width or upper-case character |
| Tokenizer.CollapseNonWordChars | src/chunkSearch.ts:72 | replacing non-letter/digit runs keeps the word characters of the input and adds only spaces |
| Tokenizer.LongOnly | src/chunkSearch.ts:73 | the filter keeps only tokens longer than one character, all from the input, and keeps everything when all are long |
| Tokenizer.TokenizeIdempotent | api/lib/chunkSearch.ts:51-56 | tokenizing the space-joined tokens gives the same tokens back |
| Tokenizer.SplitJoinedTerms | src/chunkSearch.ts:73 | splitting space-joined terms on whitespace returns the terms |
| Tokenizer.CollapseOfJoinedTerms | src/chunkSearch.ts:72 | space-joined terms pass the non-word collapse unchanged |
| Indexing.TermFrequencies | src/chunkSearch.ts:84-85 | the tf map counts how often each token occurs |
| Indexing.AddDocument | src/chunkSearch.ts:86-93 | recording one document adds exactly its term-frequency column to the postings |
| Indexing.Total | src/chunkSearch.ts:97 | the reduce computes the sum of the document lengths |
| Indexing.BuildIndex | src/chunkSearch.ts:77-99 | the index has `numDocs` = number of chunks, `docLengths[i]` = token count of chunk i, the specified postings, and the mean length with the `max(1, N)` guard; an empty corpus gives 0 |
| Indexing.RecordDocument | src/chunkSearch.ts:81-94 | one `forEach` step extends the token lists, the filled length prefix and the postings by document `idx` |
| Indexing.IndexStep | api/lib/chunkSearch.ts:62-75 | one more document extends the token lists, the lengths and the postings by its own column |
| Indexing.PostingsSpecMeaning | src/chunkSearch.ts:86-93 | a posting for (t, i) exists iff t is a token of document i; it then holds t's number of occurrences, and no posting list is empty |
| Indexing.PostingIffOccurs | src/chunkSearch.ts:81-93 | on a built index, `postings[t][i]` exists iff t occurs in `tokenize(content_i)`, and then equals its positive count |
| Indexing.ColumnIsCounts | src/chunkSearch.ts:85-92 | document i's column of the postings is its term-frequency map |
| Indexing.CountsSum | src/chunkSearch.ts:85 | the occurrence counts of a token list add up to its length |
| Indexing.PostingsSumToLength | src/chunkSearch.ts:83-92 | summed over all terms, the postings of document i equal `docLengths[i]` |
| Indexing.DocumentFrequencyBounds | src/chunkSearch.ts:287-289 | every posting list names between 1 and `numDocs` documents, so 0 < n <= N |
| Bm25.AddTerm | src/chunkSearch.ts:291-296 | one `plist.forEach` adds the term's contribution to every document of its posting list |
| Bm25.ScoreQuery | src/chunkSearch.ts:282-297 | the score map is keyed by the documents some query term touches, and each entry is that document's BM25 score |
| Bm25.AccumulatedMeaning | api/lib/chunkSearch.ts:201-215 | the accumulated map is keyed by the touched documents and holds their scores |
| Bm25.UntouchedScoresZero | src/chunkSearch.ts:301 | a document in no query term's posting list scores 0 |
| Bm25.IdfPositive | src/chunkSearch.ts:290 | with n <= N the idf is positive |
| Bm25.DenomAboveFloor | src/chunkSearch.ts:293-294 | the denominator is at least 0.3, so the 1e-6 floor never applies |
| Bm25.WeightPositive | src/chunkSearch.ts:294 | a posting with tf > 0 and a positive idf contributes a positive amount |
| Bm25.WeightMonotone | src/chunkSearch.ts:293-294 | for a fixed document length the contribution does not decrease as tf grows |
| Bm25.TermScoreNonNegative | src/chunkSearch.ts:284-296 | each term contributes a non-negative amount, and a positive one to the documents of its posting list |
| Bm25.ScoreNonNegative | src/chunkSearch.ts:280-297 | on a built index every BM25 score is non-negative |
| Bm25.ScorePositiveWhenTouched | src/chunkSearch.ts:280-297 | on a built index a touched document has a positive score |
| Bm25.QueryTermsDistinct | src/chunkSearch.ts:282 | the query terms are the tokens of the query, each once |
| Relevance.KeywordWeight | src/chunkSearch.ts:187 | a word's weight is at least 1, and exactly 1 for words outside the table |
| Relevance.Expand | src/chunkSearch.ts:151-155 | the `expandedWords` set, in insertion order, is the query words followed by their lower-cased synonyms, each once |
| Relevance.AddSynonyms | src/chunkSearch.ts:154 | adding the lower-cased synonyms of one word keeps the set equal to the deduplicated words seen so far |
| Relevance.ExpandedWordsCover | api/lib/chunkSearch.ts:128-132 | every query word, and every lower-cased synonym of one, is an expanded word: the expansion is a superset of the split query |
| Relevance.ExpandedWordsOrigin | src/chunkSearch.ts:151-155 | every expanded word is a query word or a lower-cased synonym of one, and none repeats |
| Relevance.FieldsOf | src/chunkSearch.ts:128-132 | the booster matches against the lower-cased query, content, title, category and file name, a missing field giving '' |
| Relevance.RelevanceScore | src/chunkSearch.ts:127-269 | the accumulated `score` equals the specified booster score for the flavour |
| Relevance.ScoreWords | src/chunkSearch.ts:185-207 | the per-word loop adds up the word scores of all expanded words |
| Relevance.ScoreWord | src/chunkSearch.ts:187-206 | one word adds 20, 10 and 12 times its weight for title, category and file-name hits, and 3 times per content occurrence |
| Relevance.TopicBonus | src/chunkSearch.ts:210-252 | the fixed bonuses add up: verbatim query, title topics, statute topics and file-name topics |
| Relevance.ApplyConcepts | src/chunkSearch.ts:262-266 | the concept loop adds the boost of each concept whose trigger and indicator both match |
| Relevance.RelevanceNonNegative | api/lib/chunkSearch.ts:115-194 | the booster never returns a negative score |
| Relevance.VerbatimQueryBonus | src/chunkSearch.ts:210-212 | content that holds the whole lower-cased query earns at least 50 |
| Relevance.WordScoreCountsOccurrences | src/chunkSearch.ts:185-206 | every expanded word's hits reach the word total: it is at least that word's score, so at least 3 x weight per content occurrence and 20 x weight for a title hit |
| Relevance.WordsScoreAtLeast | src/chunkSearch.ts:185-207 | the per-word total is at least the score of each word it adds up |
| Relevance.WordScoreBounds | src/chunkSearch.ts:190-206 | one word scores at least 3 x weight per content occurrence, and 20 x weight for a title hit |
| Relevance.SrcIsApiPlusConcepts | src/chunkSearch.ts:254-266 | the src score is the api score plus the concept bonuses, so it is never lower |
| Relevance.FixedBonusesAgree | api/lib/chunkSearch.ts:170-191 | the fixed bonuses of the two copies agree: the src-only raw-query test and the doubled statute-58 test decide the same way |
| Relevance.LowerKeepsContains | src/chunkSearch.ts:215 | a text without ASCII letters occurs in a string exactly when it occurs in the lower-cased string |
| Relevance.SynonymLookupAsWritten | src/chunkSearch.ts:153 | the object-literal lookup finds a table entry, an inherited member (`constructor`, `__proto__`) or nothing |
| Relevance.ExpandAsWrittenThrows | src/chunkSearch.ts:152-155 | the as-written expansion throws exactly when a query word names an inherited member, and otherwise agrees with the table expansion |
| Relevance.ConstructorQueryThrows | api/lib/chunkSearch.ts:129-131 | the query `constructor` makes the as-written expansion throw, while the corrected expansion yields the one word |
| Relevance.ArsAlternativeIsDead | src/chunkSearch.ts:258 | on lower-cased text the volunteer indicator with `ARS` matches exactly when it matches without it |
| Relevance.ArsAsWrittenMissesArs | src/chunkSearch.ts:263 | the as-written volunteer concept applies exactly when its trigger and the indicator without `ars` match |
| Relevance.CorrectedVolunteerMatchesArs | src/chunkSearch.ts:258 | with `ars`, a volunteer query and content mentioning ARS earn the concept boost |
| Regex.FoundLiteral | src/chunkSearch.ts:226 | a one-literal pattern is found exactly where `includes` holds |
| Regex.AnyFoundSome | src/chunkSearch.ts:231 | an alternation is found exactly when one of its alternatives is |
| Regex.CountPositiveIffContains | src/chunkSearch.ts:205 | a non-empty word gets a positive match count exactly when it occurs |
| Regex.UpperLiteralNeverFoundInLower | src/chunkSearch.ts:263 | a pattern starting with an upper-case ASCII literal is never found in lower-cased text |
| Ranking.SortDescFacts | src/chunkSearch.ts:308 | the sort orders by descending score and is a permutation |
| Ranking.SortDescStable | src/chunkSearch.ts:308 | elements of equal score keep their relative order |
| Ranking.SortDescIdempotent | src/chunkSearch.ts:464 | sorting a sorted list changes nothing |
| Ranking.FilterOfSortedIsPrefix | src/chunkSearch.ts:315-316 | on a sorted list a score filter keeps a prefix, and nothing after it passes |
| Ranking.TopScoreIsMaximum | src/chunkSearch.ts:309 | `sorted[0].score` bounds every score of the sorted list |
| Ranking.MinScoreAdjusted | src/chunkSearch.ts:311-313 | short queries use `max(20, minScore - 10)`, longer ones `minScore` |
| Ranking.ScaledTop | src/chunkSearch.ts:312-314 | the scaled top is `floor(topScore * alpha)`, alpha 0.4 for short queries and 0.5 otherwise |
| Ranking.Threshold | src/chunkSearch.ts:314 | the threshold is the larger of the adjusted minimum and the scaled top |
| Ranking.TopClearsThreshold | src/chunkSearch.ts:314 | a non-negative top score is never below its own scaled part of the threshold |
| Ranking.SelectedMeaning | src/chunkSearch.ts:315-318 | the selection is a prefix of the sorted list of at most `maxResults`, all reaching the threshold, maximal unless cut |
| Ranking.TopPositiveMeaning | src/chunkSearch.ts:461-466 | the fallback holds at most 2 chunks, all positive, the first positive ones of the sorted list, and no left-out chunk scores higher |
| Ranking.ResortedFallbackIsSame | src/chunkSearch.ts:462-465 | re-sorting the filtered, already sorted list gives the same top two |
| Ranking.AppendUnseen | src/chunkSearch.ts:328-335 | the `seen`/`forEach` loop computes the specified backfill |
| Ranking.BackfillMeaning | src/chunkSearch.ts:328-335 | the backfill only appends, never exceeds `maxResults`, and appends only chunks from `extra` whose `pdfUrl-index` key is new |
| Search.KeywordScoresAt | src/chunkSearch.ts:302 | the keyword score of chunk i is its booster score |
| Search.ScoringAt | src/chunkSearch.ts:300-305 | scored chunk i is chunk i with `bm + 0.2 * kw` |
| Search.ScoreKeywords | src/chunkSearch.ts:300-302 | the map callback's booster calls give the keyword score of every chunk |
| Search.CombinedIsScoring | api/lib/chunkSearch.ts:217-222 | combining with the BM25 score map gives the scored list of the query terms |
| Search.Candidates | src/chunkSearch.ts:324-327 | each block offers at most its limit of chunks, all corpus chunks that match the topic |
| Search.BackfillAll | src/chunkSearch.ts:320-458 | the eight blocks run in source order over the table of topics |
| Search.BackfillTopicsMeaning | src/chunkSearch.ts:320-458 | all blocks together only append, never exceed `maxResults`, and append only corpus chunks whose key is new |
| Search.SearchIndexed | src/chunkSearch.ts:280-469 | the search returns the specified result on the loaded chunks and index |
| Search.RankedSorted | api/lib/chunkSearch.ts:224 | the ranked list is sorted and a permutation of the scored list |
| Search.ApiResultIsRankedPrefix | api/lib/chunkSearch.ts:224-232 | the api result is a prefix of the ranked list: at most `maxResults` chunks reaching the threshold, else at most 2 positive ones |
| Search.SrcResultExtendsSelection | src/chunkSearch.ts:315-469 | the src result starts with the threshold selection, stays within `maxResults`, appends only fresh corpus chunks, and otherwise falls back to at most 2 positive chunks |
| Search.SearchEmptyOnlyWithoutPositive | src/chunkSearch.ts:461-467 | the search returns nothing only when no chunk has a positive combined score |
| Store.Engine.constructor | src/chunkSearch.ts:45-60 | nothing is loaded and there is no index |
| Store.Engine.Load | src/chunkSearch.ts:101-124 | the first candidate that parses becomes the chunks, with its index; if none parses the state is unchanged |
| Store.Engine.Search | src/chunkSearch.ts:272-278 | before loading, src throws and api returns `[]`; otherwise the index is built if missing and the search runs on it |
| Store.Engine.EnsureIndex | api/lib/chunkSearch.ts:198 | an existing index is kept; a missing one is built from the loaded chunks |
| Store.Engine.ChunksByCategory | src/chunkSearch.ts:473-481 | throws before loading; otherwise returns the category filter of the loaded chunks, which holds exactly the loaded chunks whose category matches ignoring case |
| Store.Engine.Categories | api/lib/chunkSearch.ts:235-240 | before loading, src throws and api returns `[]`; otherwise it returns the distinct truthy categories |
| Store.ChunksInMeaning | src/chunkSearch.ts:478-480 | a chunk is returned iff it is a loaded chunk whose category equals the argument ignoring case |
| Store.CollectCategories | src/chunkSearch.ts:489-496 | the `Set` filled by `forEach` holds the truthy categories in first-appearance order |
| Store.CategoriesMeaning | src/chunkSearch.ts:484-497 | every distinct non-empty category appears exactly once, and nothing else |
| Chunker.CreateChunks | scripts/downloadAndChunkPDF.ts:15-51 | the loop returns the chunks of the buffer-and-flush specification |
| Chunker.FeedMeaning | scripts/downloadAndChunkPDF.ts:25-39 | a line joins the buffer without a flush iff buffer and line stay under `chunkSize`; otherwise the trimmed buffer is emitted unless blank and the new buffer is a suffix of the old one (all of it when `overlap < 50`), a newline and the line |
| Chunker.OverlapIsSuffix | scripts/downloadAndChunkPDF.ts:37 | the kept overlap is a suffix of the old buffer, and all of it when `floor(overlap / 50)` is 0 |
| Chunker.FeedAllNumbered | scripts/downloadAndChunkPDF.ts:29-33 | during the loop the chunks are numbered 0, 1, … and each is trimmed and non-empty |
| Chunker.FeedAllCovers | scripts/downloadAndChunkPDF.ts:21-40 | every processed line is in an emitted chunk or in the buffer |
| Chunker.ChunksOfMeaning | scripts/downloadAndChunkPDF.ts:15-51 | chunks are numbered 0..n-1 in order, each trimmed and non-empty; every non-blank line's trimmed text occurs in some chunk; there are no chunks iff the text is blank |
| Chunker.TrimTwice | scripts/downloadAndChunkPDF.ts:31 | `trim` is idempotent |
| SampleChunks.CreateChunksFromCases | scripts/createSampleChunks.ts:250-297 | the output has one chunk per case, then one summary per distinct category, numbered 0..n-1, all carrying the PDF's name and link |
| SampleChunks.PushCases | scripts/createSampleChunks.ts:254-269 | case i becomes chunk i with its trimmed content and `case_study` metadata |
| SampleChunks.PushSummaries | scripts/createSampleChunks.ts:272-294 | category j becomes the summary chunk numbered after the cases |
| SampleChunks.CategoriesMeaning | scripts/createSampleChunks.ts:272 | the categories are the distinct case categories, each once |
| SampleChunks.OfCategoryMeaning | scripts/createSampleChunks.ts:274 | a category's cases are exactly the cases carrying it |
| SampleChunks.SummaryTrimmed | scripts/createSampleChunks.ts:275-285 | trimming the summary template removes exactly its opening newline and closing indentation, leaving the heading, the case lines and the count sentence |
| SampleChunks.SummaryChunkMeaning | scripts/createSampleChunks.ts:274-293 | a summary chunk lists every case of its category as `- title (caseNumber)` and states their number, and its content is the trimmed template |
| SampleChunks.EveryCaseSummarized | scripts/createSampleChunks.ts:272-293 | every case is listed by the summary of its category |
| Ingest.NormalizeMeaning | scripts/ingest.ts:29-36 | the output has no U+00A0, no line break next to other whitespace, no two line breaks in a row, and no whitespace at either end |
| Ingest.NormalizeNoNbsp | scripts/ingest.ts:32-34 | no no-break space survives |
| Ingest.NormalizeIsolates | scripts/ingest.ts:33-35 | after normalizing, no line break touches other whitespace |
| Ingest.CollapseBreaksIsolates | scripts/ingest.ts:34 | after the line-break pass no line break touches other whitespace, and a visible first character stays in front |
| Ingest.FirstNonBlankMeaning | scripts/ingest.ts:72 | `find` gives the first non-blank line, and nothing when all are blank |
| Ingest.TitleOfNormalized | scripts/ingest.ts:71-73 | a non-empty normalized page is titled by its first line cut to 60 characters, never empty |
| Ingest.PageTexts | scripts/ingest.ts:38-50 | every page gets its items joined by line breaks, then normalized |
| Ingest.BuildChunksFromPdf | scripts/ingest.ts:64-99 | the loop returns the specified page chunks, and the header's `totalChunks` counts them |
| Ingest.PageChunksGrow | scripts/ingest.ts:65-86 | one more page keeps the earlier chunks and adds its own exactly when it is kept |
| Ingest.PageChunksMeaning | scripts/ingest.ts:64-87 | page chunks are numbered 0, 1, … in page order; every page of 20 or more characters has one, with its text, `page = p` and the `#page=p` link |
| Chat.CleanTextMeaning | api/chat.ts:12-18 | the output has no private-use or zero-width character, no whitespace at either end or directly before a line break, and only characters of the input |
| Chat.StripMeaning | api/chat.ts:16 | after the whitespace-before-break replace, no whitespace precedes a line break |
| Chat.CleanTextFixes | api/chat.ts:12-18 | a text with none of what `cleanText` removes comes back unchanged |
| Chat.CleanTextIdempotent | api/chat.ts:12-18 | cleaning twice is cleaning once |
| Chat.UniqueByKey | api/chat.ts:43-49 | the filter with its `seen` set keeps each chunk whose key no earlier chunk has |
| Chat.FirstPerKeyMeaning | api/chat.ts:44-49 | the kept chunks are an order-preserving subsequence, and a chunk is kept iff it is the first with its key (`pdfUrl`, else `fileName-page-index`) |
| Chat.FirstPerKeyKeys | api/chat.ts:45-48 | kept chunks have pairwise different keys, and every key of the input is kept |
| Chat.KeysOfMeaning | api/chat.ts:46-47 | `seen` holds exactly the keys of the offered chunks |
| Chat.Preview | api/chat.ts:57 | the preview is the first `min(160, n)` characters of the cleaned content plus `...` |
| Chat.Snippet | api/chat.ts:67-68 | the snippet is a prefix of the cleaned content of at most 800 characters, and all of it when not longer |
| Chat.SourcesOf | api/chat.ts:53-63 | there is one source per kept chunk, in order |
| Chat.BuildContext | api/chat.ts:52-70 | the loop returns the specified sources and the context entries joined by the separator |
| Chat.SourceOfMeaning | api/chat.ts:54-63 | a source is titled `p.{page}` when it has a page, else by its case number, else `참조 {i+1}`; its preview is the cleaned content's start plus `...`; the metadata is copied |
| Chat.ContextHoldsSnippet | api/chat.ts:64-70 | the context holds every kept chunk's `[참조 i+1` tag and its snippet |
| Chat.MatchAtMeaning | api/chat.ts:89 | a match of `\[참조 n[^\]]*\]` is the head, then non-`]` characters, then the first `]`; there is none without the head or a later `]` |
| Chat.MatchedMeaning | api/chat.ts:94 | the callback runs iff some position starts a match |
| Chat.ReplaceCitations | api/chat.ts:90-101 | the replace loop gives the callback's result, and `usedKeys` gains the key iff it was free and the text cites the source |
| Chat.RewriteCitations | api/chat.ts:83-103 | the answer is cleaned, then rewritten source by source |
| Chat.ReplaceUnmatched | api/chat.ts:94 | a text that does not cite the source passes unchanged |
| Chat.ReplaceDeletes | api/chat.ts:100 | once the first match is used up every match is deleted, and the text shrinks when anything matched |
| Chat.ReplaceFirst | api/chat.ts:95-98 | with the key free, the first citation becomes the normalized one and the later ones are deleted, the text before it kept |
| Chat.UsedKeysMeaning | api/chat.ts:86-97 | `usedKeys` holds exactly the keys of the sources that wrote their normalized citation |
| Chat.OneCitationPerKey | api/chat.ts:88-98 | at most one source per key writes its normalized citation |
| Chat.TakenKeyDeletesAll | api/chat.ts:95-100 | a source whose key an earlier source used writes nothing, and all its citations are deleted |
| Chat.FreeKeyKeepsFirst | api/chat.ts:94-101 | a cited source with a free key turns its first citation into `[참조 n - …]` and deletes the rest |
| Chat.UncitedSourceChangesNothing | api/chat.ts:94 | a source the text does not cite changes neither the text nor `usedKeys` |
| Chat.DeletionCanFormCitation | api/chat.ts:89-100 | deleting the citation inside `[참[참조 1]조 1]` leaves the citation-shaped `[참조 1]` |

## Left out

- I/O is not modelled:
  - reading `chunks.json` (`Store.Engine.Load` takes the read results as values);
  - downloading and parsing PDFs (`Ingest` takes each page's text items as values);
  - writing the output files;
  - the HTTP handlers, routing and `ensureInit`;
  - the Gemini calls.
- The chat handler body is not modelled: its method and message checks, the prompt assembly, the no-key fallback bullets and the JSON response. Only the helpers it calls are modelled.
- Floating point is not modelled. Scores are exact reals and `Math.log` is an abstract function that is positive above 1. Rounding and `1e-6` effects are left out; the floor is shown to be inactive.
- `Text.IsWordChar` stands in for `\p{L}\p{N}`. It covers ASCII, Latin-1, Hangul jamo and syllables, and CJK ideographs, not all of Unicode.
- `Text.Lower` stands in for `toLowerCase` and lowers only ASCII.
- `Regex.CountOccurrences` counts literal occurrences for `new RegExp(word, 'g')`. A query word with regex metacharacters such as `.` or `+` diverges from it, and one that is not a valid pattern, such as `(`, makes `new RegExp` throw; neither is modelled.
- The topic regexes are modelled as literals with `\s*`, `c?` and `.*`. A full regex engine is not modelled.
- `Search.BackfillAll` runs the eight copied backfill blocks as one loop over a table of topics. Each topic has the same query test, chunk test and limit as its block.
- Relevance.RelevanceScore: the concept table uses the corrected volunteer indicator, with `ars` in place of the `ARS` that src/chunkSearch.ts:258 and :263 test against lower-cased text. The as-written indicator is `Relevance.VolunteerConceptAsWritten`, and `Relevance.ArsAlternativeIsDead` shows it matches exactly as the corrected one does without that alternative. The score also never throws for a query word such as `constructor` or `__proto__`, where the source's synonym lookup does.
- Search.SearchIndexed: built on `Relevance.RelevanceScore`, it inherits both of the differences above: the corrected volunteer indicator and no TypeError for a query word that names an inherited member.
- Store.Engine.Search: the same two differences reach the search entry point through `Search.SearchIndexed`.
- Relevance.Expand: models the table lookup of src/chunkSearch.ts:153-154 and api/lib/chunkSearch.ts:130-131 as finding only the table's own entries. The source throws a TypeError for the query words `constructor` and `__proto__` (`Relevance.ExpandAsWrittenThrows`); neither `Relevance.RelevanceScore`, `Search.SearchIndexed` nor `Store.Engine.Search` models that throw.
- String lengths count code points, not UTF-16 units, for `slice`, `substring`, `length < 20` and 60/160/800-character cuts. Hangul and the other characters in use are single UTF-16 units.
- Map iteration order is not modelled. The score map and postings are Dafny maps; the results do not depend on the order.
- `Chunker.ChunksOfMeaning` guarantees the trimmed text of non-blank lines only. A blank line has nothing to cover.
- `createdAt` in `Ingest.BuildChunksFromPdf` is a parameter, because it is the clock reading of the script.
- The PDF name and link are a `PdfInfo` parameter, with the values in `Corpus.NecPdf`.
- The sample case data of scripts/createSampleChunks.ts is not part of this model; `SampleChunks.CreateChunksFromCases` takes the cases as a parameter.
- `cleanText`'s `input || ''` is not modelled separately, because chunk contents and model answers are always strings here.
- A JSON file whose `chunks` field is missing or not an array is not modelled: a `Parsed` candidate always holds a chunk list.
- Chat.RewriteCitations: the rewrite bounds the normalized citations it writes, at most one per source and per key. It does not promise that no citation-shaped text remains. Deleting a citation can join its neighbours into a new one (`Chat.DeletionCanFormCitation`), and the pattern for source 1 also matches the start of a citation such as `[참조 12]`. The answer may contain such text whatever the number of sources, so a citation-shaped remainder can survive.

## Findings

| source | as written | input that shows it | evidently intended | confidence | as-written member | corrected member |
|---|---|---|---|---|---|---|
| src/chunkSearch.ts:153-154 (also api/lib/chunkSearch.ts:130-131) | `synonymMap[w]` on an object literal also finds inherited members, and `syns.forEach` then throws a TypeError | the query `constructor` (or `__proto__`) | only the table's own entries expand; other words have no synonyms | high, not executed | Relevance.ExpandAsWrittenThrows, Relevance.ConstructorQueryThrows | Relevance.Expand, Relevance.ExpandedWordsCover |
| src/chunkSearch.ts:258 | the volunteer indicator's `ARS` alternative is tested against lower-cased content and title, so it never matches | content `ars 안내` with the query `자원봉사` | `ars`, as in the volunteer backfill at src/chunkSearch.ts:431 | high, not executed | Relevance.ArsAlternativeIsDead | Relevance.CorrectedVolunteerMatchesArs |
