/**
 * `createChunksFromCases` of scripts/createSampleChunks.ts: one chunk per
 * sample case, then one summary chunk per distinct category, all numbered by
 * one running `chunkIndex` and all pointing at the same PDF.
 */
module SampleChunks {
  import opened Text
  import opened Corpus

  /** One entry of `sampleCases`. */
  datatype Case = Case(category: string, title: string, caseNumber: string, content: string)

  /** The `note` every case chunk carries. */
  const SampleNote := "샘플 데이터 - 정확한 페이지 번호는 실제 PDF를 확인하세요"

  /** The chunk of one case. */
  function CaseChunk(pdf: PdfInfo, c: Case, index: int): Chunk {
    Chunk(Trim(c.content),
          Metadata(Some(c.category), Some(c.title), Some("case_study"), None, Some(c.caseNumber),
                   Some(pdf.fileName), Some(pdf.url), Some(SampleNote)),
          index)
  }

  /** The cases of one category, in their order. */
  function OfCategory(cases: seq<Case>, category: string): seq<Case> {
    if cases == [] then []
    else (if cases[0].category == category then [cases[0]] else []) + OfCategory(cases[1..], category)
  }

  /** A bullet line with the case title and, in parentheses, its case number. */
  function CaseLine(c: Case): string {
    "- " + c.title + " (" + c.caseNumber + ")"
  }

  function CaseLines(cases: seq<Case>): (r: seq<string>)
    ensures |r| == |cases| && forall k :: 0 <= k < |cases| ==> r[k] == CaseLine(cases[k])
  {
    if cases == [] then [] else [CaseLine(cases[0])] + CaseLines(cases[1..])
  }

  /** The sentence of a summary that gives the number of cases. */
  function CountLine(category: string, n: nat): string {
    "이 카테고리에서는 " + category + "과 관련된 " + NatToString(n) + "개의 주요 사례를 다룹니다."
  }

  /** The heading line of a summary, after the template's opening newline. */
  function Header(category: string): string {
    "【" + category + " 관련 주요 사례】\n\n"
  }

  /** The closing sentences of a summary, before the template's final indentation. */
  function Footer(category: string, n: nat): string {
    "\n\n" + CountLine(category, n) + "\n각 사례는 실제 선거 과정에서 자주 발생하는 상황과 그에 대한 법적 해석을 제공합니다."
  }

  /** The `summaryContent` of one category once trimmed. */
  function SummaryContent(category: string, members: seq<Case>): string {
    Header(category) + Join(CaseLines(members), "\n") + Footer(category, |members|)
  }

  /** The `summaryContent` template as written: a newline, the content, a newline and indentation. */
  function SummaryText(category: string, members: seq<Case>): string {
    "\n" + SummaryContent(category, members) + "\n    "
  }

  /** The summary chunk of one category. */
  function SummaryChunk(pdf: PdfInfo, category: string, cases: seq<Case>, index: int): Chunk {
    Chunk(SummaryContent(category, OfCategory(cases, category)),
          Metadata(Some(category), None, Some("category_summary"), None, None,
                   Some(pdf.fileName), Some(pdf.url), None),
          index)
  }

  /** The distinct categories of the cases, in order of first appearance. */
  function Categories(cases: seq<Case>): seq<string> {
    Dedup(seq(|cases|, i requires 0 <= i < |cases| => cases[i].category))
  }

  /**
   * `createChunksFromCases(cases)`: the case chunks numbered from 0, then
   * the summary chunks numbered on from there, each carrying the PDF's name
   * and link.
   */
  method CreateChunksFromCases(pdf: PdfInfo, cases: seq<Case>) returns (chunks: seq<Chunk>)
    ensures |chunks| == |cases| + |Categories(cases)|
    ensures forall i :: 0 <= i < |cases| ==> chunks[i] == CaseChunk(pdf, cases[i], i)
    ensures forall j :: 0 <= j < |Categories(cases)| ==>
      chunks[|cases| + j] == SummaryChunk(pdf, Categories(cases)[j], cases, |cases| + j)
    ensures forall k :: 0 <= k < |chunks| ==>
      chunks[k].index == k && chunks[k].metadata.fileName == Some(pdf.fileName) && chunks[k].metadata.pdfUrl == Some(pdf.url)
  {
    var caseChunks := PushCases(pdf, cases);
    var summaries := PushSummaries(pdf, Categories(cases), cases);
    chunks := caseChunks + summaries;
  }

  /** `cases.forEach(...)`: one chunk per case, numbered from 0. */
  method PushCases(pdf: PdfInfo, cases: seq<Case>) returns (chunks: seq<Chunk>)
    ensures |chunks| == |cases|
    ensures forall i :: 0 <= i < |cases| ==> chunks[i] == CaseChunk(pdf, cases[i], i)
  {
    chunks := [];
    var chunkIndex := 0;
    for i := 0 to |cases|
      invariant chunkIndex == |chunks| == i
      invariant forall k :: 0 <= k < i ==> chunks[k] == CaseChunk(pdf, cases[k], k)
    {
      chunks := chunks + [CaseChunk(pdf, cases[i], chunkIndex)];
      chunkIndex := chunkIndex + 1;
    }
  }

  /** `categories.forEach(...)`: one summary per category, numbered on after the cases. */
  method PushSummaries(pdf: PdfInfo, categories: seq<string>, cases: seq<Case>) returns (summaries: seq<Chunk>)
    ensures |summaries| == |categories|
    ensures forall j :: 0 <= j < |categories| ==>
      summaries[j] == SummaryChunk(pdf, categories[j], cases, |cases| + j)
  {
    summaries := [];
    var chunkIndex := |cases|;
    ghost var all := seq(|categories|, k requires 0 <= k < |categories| => SummaryChunk(pdf, categories[k], cases, |cases| + k));
    for j := 0 to |categories|
      invariant chunkIndex == |cases| + j && summaries == all[..j]
    {
      var summary := SummaryChunk(pdf, categories[j], cases, chunkIndex);
      TakeNext(all, summaries, summary);
      summaries := summaries + [summary];
      chunkIndex := chunkIndex + 1;
    }
    assert summaries == all;
  }

  // ---------------------------------------------------------------------
  // Properties

  /** The cases of a category are the cases carrying it, in order. */
  lemma {:induction false} OfCategoryMeaning(cases: seq<Case>, category: string)
    ensures forall c :: c in OfCategory(cases, category) <==> c in cases && c.category == category
    decreases |cases|
  {
    if cases != [] {
      OfCategoryMeaning(cases[1..], category);
      assert cases == [cases[0]] + cases[1..];
    }
  }

  /** The categories are the distinct categories of the cases, in first-appearance order. */
  lemma CategoriesMeaning(cases: seq<Case>)
    ensures forall x :: x in Categories(cases) <==> exists i :: 0 <= i < |cases| && cases[i].category == x
    ensures forall i, j :: 0 <= i < j < |Categories(cases)| ==> Categories(cases)[i] != Categories(cases)[j]
  {
    var names := seq(|cases|, i requires 0 <= i < |cases| => cases[i].category);
    DedupElements(names);
    forall x ensures x in names <==> exists i :: 0 <= i < |cases| && cases[i].category == x {
      if x in names {
        var i :| 0 <= i < |names| && names[i] == x;
        assert cases[i].category == x;
      }
      if exists i :: 0 <= i < |cases| && cases[i].category == x {
        var i :| 0 <= i < |cases| && cases[i].category == x;
        assert names[i] == x;
      }
    }
  }

  /** Trimming the template drops exactly its opening newline and its final indentation. */
  lemma SummaryTrimmed(category: string, members: seq<Case>)
    ensures Trim(SummaryText(category, members)) == SummaryContent(category, members)
  {
    var head := Header(category);
    var foot := Footer(category, |members|);
    var m := SummaryContent(category, members);
    assert m[0] == head[0] == '【';
    assert m == (head + Join(CaseLines(members), "\n")) + foot;
    assert m[|m| - 1] == foot[|foot| - 1] == '.';
    TrimFrame("\n", m, "\n    ");
  }

  /** Every case of the category appears as `- title (caseNumber)` in the summary. */
  lemma SummaryListsCase(category: string, members: seq<Case>, k: nat)
    requires k < |members|
    ensures Contains(SummaryContent(category, members), CaseLine(members[k]))
  {
    var line := CaseLine(members[k]);
    var lines := CaseLines(members);
    JoinHolds(lines, "\n", k);
    ContainsInConcat(Join(lines, "\n"), line, Header(category), Footer(category, |members|));
  }

  /** The summary states how many cases the category has. */
  lemma SummaryCounts(category: string, members: seq<Case>)
    ensures Contains(SummaryContent(category, members), CountLine(category, |members|))
  {
    var count := CountLine(category, |members|);
    var tail := "\n각 사례는 실제 선거 과정에서 자주 발생하는 상황과 그에 대한 법적 해석을 제공합니다.";
    var footer := Footer(category, |members|);
    ContainsSelf(count);
    ContainsInConcat(count, count, "\n\n", tail);
    var pre := Header(category) + Join(CaseLines(members), "\n");
    ContainsInConcat(footer, count, pre, "");
    assert pre + footer + "" == SummaryContent(category, members);
  }

  /** A summary chunk lists every case of its category and states their number. */
  lemma SummaryChunkMeaning(pdf: PdfInfo, category: string, cases: seq<Case>, index: int)
    ensures var s := SummaryChunk(pdf, category, cases, index);
      && s.index == index
      && s.metadata.docType == Some("category_summary")
      && s.metadata.category == Some(category)
      && s.metadata.fileName == Some(pdf.fileName) && s.metadata.pdfUrl == Some(pdf.url)
      && s.content == Trim(SummaryText(category, OfCategory(cases, category)))
      && Contains(s.content, CountLine(category, |OfCategory(cases, category)|))
      && (forall c :: c in OfCategory(cases, category) ==> Contains(s.content, CaseLine(c)))
  {
    var members := OfCategory(cases, category);
    SummaryTrimmed(category, members);
    SummaryCounts(category, members);
    forall c | c in members ensures Contains(SummaryChunk(pdf, category, cases, index).content, CaseLine(c)) {
      var k :| 0 <= k < |members| && members[k] == c;
      SummaryListsCase(category, members, k);
    }
  }

  /**
   * Every case is listed by the summary of its category, which sits among
   * the summaries at the position of that category.
   */
  lemma EveryCaseSummarized(pdf: PdfInfo, cases: seq<Case>, i: nat) returns (j: nat)
    requires i < |cases|
    ensures j < |Categories(cases)| && Categories(cases)[j] == cases[i].category
    ensures Contains(SummaryChunk(pdf, cases[i].category, cases, |cases| + j).content, CaseLine(cases[i]))
  {
    CategoriesMeaning(cases);
    var cats := Categories(cases);
    assert cases[i].category in cats;
    j :| 0 <= j < |cats| && cats[j] == cases[i].category;
    OfCategoryMeaning(cases, cases[i].category);
    SummaryChunkMeaning(pdf, cases[i].category, cases, |cases| + j);
  }
}
