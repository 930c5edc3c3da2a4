/**
 * The records the engine works on: a chunk of text with its optional
 * metadata, and the loaded corpus file (its header plus the chunk list).
 */
module Corpus {
  import opened Text

  /** The optional metadata fields of a chunk (`type` is a Dafny keyword, hence `docType`). */
  datatype Metadata = Metadata(
    category: Option<string>,
    title: Option<string>,
    docType: Option<string>,
    page: Option<int>,
    caseNumber: Option<string>,
    fileName: Option<string>,
    pdfUrl: Option<string>,
    note: Option<string>)

  datatype Chunk = Chunk(content: string, metadata: Metadata, index: int)

  /** The header of a chunks file. */
  datatype CorpusInfo = CorpusInfo(
    source: string,
    title: string,
    totalChunks: int,
    createdAt: string,
    pdfUrl: Option<string>,
    disclaimer: Option<string>)

  datatype ChunksData = ChunksData(metadata: CorpusInfo, chunks: seq<Chunk>)

  const NoMetadata := Metadata(None, None, None, None, None, None, None, None)

  /** The PDF a generated chunk points at: its display name and its download link. */
  datatype PdfInfo = PdfInfo(fileName: string, url: string)

  /**
   * The PDF both generating scripts point at (`PDF_INFO` in
   * scripts/createSampleChunks.ts, `PDF_TITLE` and `PDF_URL` in
   * scripts/ingest.ts); the functions that build chunks take it as a parameter.
   */
  const NecPdf := PdfInfo(
    "제21대 대통령선거 정치관계법 사례예시집",
    "https://www.nec.go.kr/common/board/Download.do?bcIdx=269351&cbIdx=1129&streFileNm=4bcf0eb5-39ad-4f85-a442-a1926ada3c36.pdf")

  /** The text the index is built from, one entry per chunk. */
  function Contents(chunks: seq<Chunk>): (docs: seq<string>)
    ensures |docs| == |chunks|
    ensures forall i :: 0 <= i < |chunks| ==> docs[i] == chunks[i].content
  {
    if chunks == [] then [] else [chunks[0].content] + Contents(chunks[1..])
  }

  /** A page number is truthy when present and non-zero. */
  predicate HasPage(m: Metadata) {
    m.page.Some? && m.page.value != 0
  }
}
