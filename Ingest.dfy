/**
 * scripts/ingest.ts: `normalizeWhitespace` and the page loop of
 * `buildChunksFromPdf`, over the text items of each page (what pdfjs
 * extracts is given, not computed). A page whose normalized text is shorter
 * than 20 characters is skipped; every other page becomes one chunk.
 */
module Ingest {
  import opened Text
  import opened Corpus

  // ---------------------------------------------------------------------
  // normalizeWhitespace

  /** `.replace(/\u00A0/g, ' ')`: every no-break space becomes a space. */
  function ReplaceNbsp(s: string): string {
    seq(|s|, i requires 0 <= i < |s| => if s[i] == '\U{00A0}' then ' ' else s[i])
  }

  /** The class `[ \t\f\v]`. */
  predicate IsBlank(c: char) {
    c == ' ' || c == '\t' || c == '\U{000C}' || c == '\U{000B}'
  }

  function LeadingBlanks(s: string): (n: nat)
    ensures n <= |s|
    ensures n < |s| ==> !IsBlank(s[n])
  {
    if s != [] && IsBlank(s[0]) then 1 + LeadingBlanks(s[1..]) else 0
  }

  /** `.replace(/[ \t\f\v]+/g, ' ')`: every maximal run of blanks becomes one space. */
  function CollapseBlanks(s: string): string
    decreases |s|
  {
    if s == [] then []
    else if IsBlank(s[0]) then " " + CollapseBlanks(s[LeadingBlanks(s)..])
    else [s[0]] + CollapseBlanks(s[1..])
  }

  // `.replace(/\s*\n\s*/g, '\n')`: the leftmost match starts where a
  // whitespace run starts and, `\s*` being greedy, ends where the run ends,
  // so every maximal whitespace run that holds a line break becomes one line
  // break, and the other runs stay as they are.
  function CollapseBreaks(s: string): string
    decreases |s|
  {
    if s == [] then []
    else if IsSpace(s[0]) then
      var n := LeadingSpaces(s);
      (if '\n' in s[..n] then "\n" else s[..n]) + CollapseBreaks(s[n..])
    else [s[0]] + CollapseBreaks(s[1..])
  }

  /** `normalizeWhitespace(text)`. */
  function Normalize(text: string): string {
    Trim(CollapseBreaks(CollapseBlanks(ReplaceNbsp(text))))
  }

  /** A line break next to another whitespace character. */
  predicate BreakPair(a: char, b: char) {
    IsSpace(a) && IsSpace(b) && (a == '\n' || b == '\n')
  }

  /** No line break of `s` has a whitespace neighbour. */
  predicate BreaksIsolated(s: string) {
    forall i :: 0 <= i < |s| - 1 ==> !BreakPair(s[i], s[i + 1])
  }

  lemma IsolatedConcat(a: string, b: string)
    requires BreaksIsolated(a) && BreaksIsolated(b)
    requires a != [] && b != [] ==> !BreakPair(a[|a| - 1], b[0])
    ensures BreaksIsolated(a + b)
  {
    var s := a + b;
    forall i | 0 <= i < |s| - 1 ensures !BreakPair(s[i], s[i + 1]) {
      if i + 1 < |a| {
        assert s[i] == a[i] && s[i + 1] == a[i + 1];
      } else if i + 1 == |a| {
        assert s[i] == a[|a| - 1] && s[i + 1] == b[0];
      } else {
        assert s[i] == b[i - |a|] && s[i + 1] == b[i - |a| + 1];
      }
    }
  }

  lemma IsolatedSlice(s: string, lo: int, hi: int)
    requires 0 <= lo <= hi <= |s| && BreaksIsolated(s)
    ensures BreaksIsolated(s[lo..hi])
  {
    var t := s[lo..hi];
    forall i | 0 <= i < |t| - 1 ensures !BreakPair(t[i], t[i + 1]) {
      assert t[i] == s[lo + i] && t[i + 1] == s[lo + i + 1];
    }
  }

  /**
   * After the line-break pass no line break touches other whitespace, and
   * the result starts with a visible character exactly when the input does.
   */
  lemma {:induction false} CollapseBreaksIsolates(s: string)
    ensures BreaksIsolated(CollapseBreaks(s))
    ensures s != [] ==> CollapseBreaks(s) != [] && (IsSpace(CollapseBreaks(s)[0]) <==> IsSpace(s[0]))
    decreases |s|
  {
    if s != [] {
      var r := CollapseBreaks(s);
      if IsSpace(s[0]) {
        var n := LeadingSpaces(s);
        var rest := s[n..];
        var head := if '\n' in s[..n] then "\n" else s[..n];
        CollapseBreaksIsolates(rest);
        assert r == head + CollapseBreaks(rest);
        forall i | 0 <= i < |head| - 1 ensures !BreakPair(head[i], head[i + 1]) {
          assert head == s[..n] && head[i] in s[..n] && head[i + 1] in s[..n];
        }
        IsolatedConcat(head, CollapseBreaks(rest));
      } else {
        CollapseBreaksIsolates(s[1..]);
        assert r == [s[0]] + CollapseBreaks(s[1..]);
        IsolatedConcat([s[0]], CollapseBreaks(s[1..]));
      }
    }
  }

  lemma {:induction false} CollapseBlanksKeepsOut(s: string, c: char)
    requires c != ' ' && c !in s
    ensures c !in CollapseBlanks(s)
    decreases |s|
  {
    if s != [] {
      var n := if IsBlank(s[0]) then LeadingBlanks(s) else 1;
      assert c !in s[n..] by {
        forall k | 0 <= k < |s| - n ensures s[n..][k] != c {
          assert s[n..][k] == s[n + k];
        }
      }
      CollapseBlanksKeepsOut(s[n..], c);
    }
  }

  lemma {:induction false} CollapseBreaksKeepsOut(s: string, c: char)
    requires c != '\n' && c !in s
    ensures c !in CollapseBreaks(s)
    decreases |s|
  {
    if s != [] {
      var n := if IsSpace(s[0]) then LeadingSpaces(s) else 1;
      assert c !in s[n..] && c !in s[..n] by {
        forall k | 0 <= k < |s| - n ensures s[n..][k] != c {
          assert s[n..][k] == s[n + k];
        }
        forall k | 0 <= k < n ensures s[..n][k] != c {
          assert s[..n][k] == s[k];
        }
      }
      CollapseBreaksKeepsOut(s[n..], c);
    }
  }

  /**
   * `normalizeWhitespace` leaves no no-break space, no line break next to
   * other whitespace (so no two line breaks in a row), and no whitespace at
   * either end.
   */
  lemma NormalizeMeaning(text: string)
    ensures var r := Normalize(text);
      && '\U{00A0}' !in r
      && (forall i :: 0 <= i < |r| && r[i] == '\n' ==>
            (0 < i ==> !IsSpace(r[i - 1])) && (i + 1 < |r| ==> !IsSpace(r[i + 1])))
      && (forall i :: 0 <= i < |r| - 1 ==> !(r[i] == '\n' && r[i + 1] == '\n'))
      && (r == [] || (!IsSpace(r[0]) && !IsSpace(r[|r| - 1])))
  {
    NormalizeNoNbsp(text);
    NormalizeIsolates(text);
    var r := Normalize(text);
    forall i | 0 <= i < |r| && r[i] == '\n'
      ensures (0 < i ==> !IsSpace(r[i - 1])) && (i + 1 < |r| ==> !IsSpace(r[i + 1]))
    {
      if 0 < i {
        assert !BreakPair(r[i - 1], r[i]);
      }
      if i + 1 < |r| {
        assert !BreakPair(r[i], r[i + 1]);
      }
    }
  }

  lemma NormalizeNoNbsp(text: string)
    ensures '\U{00A0}' !in Normalize(text)
  {
    var a := ReplaceNbsp(text);
    var b := CollapseBlanks(a);
    ReplaceNbspRemoves(text);
    CollapseBlanksKeepsOut(a, '\U{00A0}');
    CollapseBreaksKeepsOut(b, '\U{00A0}');
    TrimKeepsOut(CollapseBreaks(b), '\U{00A0}');
  }

  lemma ReplaceNbspRemoves(text: string)
    ensures '\U{00A0}' !in ReplaceNbsp(text)
  {
    var a := ReplaceNbsp(text);
    forall k | 0 <= k < |a| ensures a[k] != '\U{00A0}' {
      assert a[k] == (if text[k] == '\U{00A0}' then ' ' else text[k]);
    }
  }

  lemma NormalizeIsolates(text: string)
    ensures BreaksIsolated(Normalize(text))
  {
    var c := CollapseBreaks(CollapseBlanks(ReplaceNbsp(text)));
    CollapseBreaksIsolates(CollapseBlanks(ReplaceNbsp(text)));
    var r := Normalize(text);
    var lo := LeadingSpaces(c);
    IsolatedSlice(c, lo, lo + |r|);
  }

  // ---------------------------------------------------------------------
  // buildChunksFromPdf

  /** `extractPageText`: the page's text items joined by line breaks, then normalized. */
  function PageText(items: seq<string>): string {
    Normalize(Join(items, "\n"))
  }

  /** A page is kept when its text is at least 20 characters long. */
  predicate Kept(text: string) {
    text != [] && |text| >= 20
  }

  /** The first line that is not blank once trimmed, if any. */
  function FirstNonBlank(lines: seq<string>): Option<string> {
    if lines == [] then None
    else if Trim(lines[0]) != [] then Some(lines[0])
    else FirstNonBlank(lines[1..])
  }

  /** `find` gives the first line that is not blank, and nothing when every line is blank. */
  lemma {:induction false} FirstNonBlankMeaning(lines: seq<string>)
    ensures var r := FirstNonBlank(lines);
      && (r.Some? ==> exists k :: (0 <= k < |lines| && lines[k] == r.value && Trim(r.value) != []
                                   && forall j :: 0 <= j < k ==> Trim(lines[j]) == []))
      && (r.None? ==> forall j :: 0 <= j < |lines| ==> Trim(lines[j]) == [])
    decreases |lines|
  {
    if lines != [] && Trim(lines[0]) == [] {
      var rest := lines[1..];
      FirstNonBlankMeaning(rest);
      assert FirstNonBlank(lines) == FirstNonBlank(rest);
      if FirstNonBlank(rest).Some? {
        var k :| 0 <= k < |rest| && rest[k] == FirstNonBlank(rest).value && Trim(rest[k]) != []
          && forall j :: 0 <= j < k ==> Trim(rest[j]) == [];
        assert lines[k + 1] == rest[k];
        BlankBefore(lines, k);
      }
    }
  }

  /** Blank lines before `k` in the tail, after a blank first line, are blank lines before `k + 1`. */
  lemma BlankBefore(lines: seq<string>, k: nat)
    requires k + 1 < |lines| && Trim(lines[0]) == []
    requires forall j :: 0 <= j < k ==> Trim(lines[1..][j]) == []
    ensures forall j :: 0 <= j < k + 1 ==> Trim(lines[j]) == []
  {
    forall j | 0 <= j < k + 1 ensures Trim(lines[j]) == [] {
      if j > 0 {
        assert lines[j] == lines[1..][j - 1];
      }
    }
  }

  /** The title of page `p`: its first non-blank line cut to 60 characters, else `페이지 p`. */
  function Title(text: string, p: nat): string {
    var firstLine := Take(OrEmpty(FirstNonBlank(Split(text, '\n'))), 60);
    if firstLine != [] then firstLine else "페이지 " + NatToString(p)
  }

  /** The link base of the document followed by the page number. */
  function PageUrl(pdf: PdfInfo, p: nat): string {
    pdf.url + "#page=" + NatToString(p)
  }

  /** The chunk of page `p` with text `text`. */
  function PageChunk(pdf: PdfInfo, text: string, p: nat, index: int): Chunk {
    Chunk(text,
          Metadata(Some("본문"), Some(Title(text, p)), Some("page"), Some(p), None,
                   Some(pdf.fileName), Some(PageUrl(pdf, p)), None),
          index)
  }

  /** The text of every page, page `p` at position `p - 1`. */
  function PageTexts(pages: seq<seq<string>>): (texts: seq<string>)
    ensures |texts| == |pages|
  {
    seq(|pages|, k requires 0 <= k < |pages| => PageText(pages[k]))
  }

  /** The chunks of the page texts `texts` (page `p` at position `p - 1`), kept pages numbered from 0. */
  function PageChunks(pdf: PdfInfo, texts: seq<string>): seq<Chunk>
    decreases |texts|
  {
    if texts == [] then []
    else
      var pre := PageChunks(pdf, texts[..|texts| - 1]);
      var text := texts[|texts| - 1];
      if Kept(text) then pre + [PageChunk(pdf, text, |texts|, |pre|)] else pre
  }

  lemma PageChunksSnoc(pdf: PdfInfo, texts: seq<string>, text: string)
    ensures var pre := PageChunks(pdf, texts);
      PageChunks(pdf, texts + [text]) == if Kept(text) then pre + [PageChunk(pdf, text, |texts| + 1, |pre|)] else pre
  {
    PrefixOfSnoc(texts, text);
  }

  /** One more page keeps the earlier chunks and adds its own chunk when it is kept. */
  lemma PageChunksGrow(pdf: PdfInfo, texts: seq<string>, text: string)
    ensures GrownBy(PageChunks(pdf, texts), PageChunks(pdf, texts + [text]), texts, text)
    ensures Kept(text) ==>
      PageChunks(pdf, texts + [text])[|PageChunks(pdf, texts)|] == PageChunk(pdf, text, |texts| + 1, |PageChunks(pdf, texts)|)
  {
    PageChunksSnoc(pdf, texts, text);
  }

  /** The header `buildChunksFromPdf` writes above the page chunks. */
  function PagesInfo(pdf: PdfInfo, totalChunks: int, createdAt: string): CorpusInfo {
    CorpusInfo("nec_pdf_pages", pdf.fileName + " (페이지 단위)", totalChunks, createdAt, Some(pdf.url),
               Some("페이지 단위 추출 텍스트입니다. 도표/이미지는 누락될 수 있습니다."))
  }

  /**
   * `buildChunksFromPdf()` after the PDF is read: the page loop, then the
   * header, whose `totalChunks` counts the chunks. `createdAt` is the clock
   * reading the script takes.
   */
  method BuildChunksFromPdf(pdf: PdfInfo, pages: seq<seq<string>>, createdAt: string) returns (data: ChunksData)
    ensures data.chunks == PageChunks(pdf, PageTexts(pages))
    ensures data.metadata == PagesInfo(pdf, |data.chunks|, createdAt)
  {
    ghost var texts := PageTexts(pages);
    var chunks: seq<Chunk> := [];
    var index := 0;
    for p := 1 to |pages| + 1
      invariant chunks == PageChunks(pdf, texts[..p - 1])
      invariant index == |chunks|
    {
      var text := PageText(pages[p - 1]);
      assert text == texts[p - 1];
      TakeSnoc(texts, p - 1);
      PageChunksSnoc(pdf, texts[..p - 1], text);
      if !Kept(text) {
        continue;
      }
      chunks := chunks + [PageChunk(pdf, text, p, index)];
      index := index + 1;
    }
    assert texts[..|pages|] == texts;
    data := ChunksData(PagesInfo(pdf, |chunks|, createdAt), chunks);
  }

  // ---------------------------------------------------------------------
  // Properties

  /**
   * The page chunks are numbered 0, 1, ... in page order, every kept page
   * has one, and each holds the text, the number and the `#page=` link of a
   * kept page.
   */
  lemma {:induction false} PageChunksMeaning(pdf: PdfInfo, texts: seq<string>)
    ensures PagesInOrder(PageChunks(pdf, texts), texts)
    ensures forall k :: 0 <= k < |PageChunks(pdf, texts)| ==> ChunkOfPage(pdf, texts, PageChunks(pdf, texts)[k], k)
    decreases |texts|
  {
    if texts != [] {
      var init := texts[..|texts| - 1];
      var last := texts[|texts| - 1];
      PageChunksMeaning(pdf, init);
      assert init + [last] == texts;
      PageChunksGrow(pdf, init, last);
      InOrderStep(PageChunks(pdf, init), PageChunks(pdf, texts), init, last);
      ChunkOfPageStep(pdf, PageChunks(pdf, init), PageChunks(pdf, texts), init, last);
    }
  }

  /**
   * `r` is numbered 0, 1, ..., its page numbers are pages of `texts` in
   * increasing order, and every kept page of `texts` has a chunk.
   */
  ghost predicate PagesInOrder(r: seq<Chunk>, texts: seq<string>) {
    && (forall k :: 0 <= k < |r| ==>
          r[k].index == k && r[k].metadata.page.Some? && 1 <= r[k].metadata.page.value <= |texts|)
    && (forall k, l :: 0 <= k < l < |r| ==> r[k].metadata.page.value < r[l].metadata.page.value)
    && (forall p :: 1 <= p <= |texts| && Kept(texts[p - 1]) ==>
          exists k :: 0 <= k < |r| && r[k].metadata.page == Some(p))
  }

  /** `c` is the chunk of a kept page of `texts`, numbered `k`. */
  ghost predicate ChunkOfPage(pdf: PdfInfo, texts: seq<string>, c: Chunk, k: int) {
    && c.metadata.page.Some? && 1 <= c.metadata.page.value <= |texts|
    && Kept(texts[c.metadata.page.value - 1])
    && c == PageChunk(pdf, texts[c.metadata.page.value - 1], c.metadata.page.value, k)
  }

  /** `r` is `pre` with, when `text` is kept, the chunk of page `|texts| + 1` after it. */
  ghost predicate GrownBy(pre: seq<Chunk>, r: seq<Chunk>, texts: seq<string>, text: string) {
    && |r| == |pre| + (if Kept(text) then 1 else 0)
    && (forall k :: 0 <= k < |pre| ==> r[k] == pre[k])
    && (Kept(text) ==> r[|pre|].index == |pre| && r[|pre|].metadata.page == Some(|texts| + 1))
  }

  lemma InOrderStep(pre: seq<Chunk>, r: seq<Chunk>, texts: seq<string>, text: string)
    requires GrownBy(pre, r, texts, text) && PagesInOrder(pre, texts)
    ensures PagesInOrder(r, texts + [text])
  {
    var all := texts + [text];
    forall k | 0 <= k < |r|
      ensures r[k].index == k && r[k].metadata.page.Some? && 1 <= r[k].metadata.page.value <= |all|
    {
      if k < |pre| {
        assert r[k] == pre[k];
      }
    }
    forall k, l | 0 <= k < l < |r| ensures r[k].metadata.page.value < r[l].metadata.page.value {
      assert r[k] == pre[k];
      if l < |pre| {
        assert r[l] == pre[l];
      }
    }
    forall p | 1 <= p <= |all| && Kept(all[p - 1]) ensures exists k :: 0 <= k < |r| && r[k].metadata.page == Some(p) {
      if p <= |texts| {
        assert all[p - 1] == texts[p - 1];
        var k :| 0 <= k < |pre| && pre[k].metadata.page == Some(p);
        assert r[k] == pre[k];
      } else {
        assert all[p - 1] == text;
        assert r[|pre|].metadata.page == Some(p);
      }
    }
    assert forall k :: 0 <= k < |r| ==>
          r[k].index == k && r[k].metadata.page.Some? && 1 <= r[k].metadata.page.value <= |all|;
    assert forall k, l :: 0 <= k < l < |r| ==> r[k].metadata.page.value < r[l].metadata.page.value;
    assert forall p :: 1 <= p <= |all| && Kept(all[p - 1]) ==>
          exists k :: 0 <= k < |r| && r[k].metadata.page == Some(p);
  }

  lemma ChunkOfPageStep(pdf: PdfInfo, pre: seq<Chunk>, r: seq<Chunk>, texts: seq<string>, text: string)
    requires GrownBy(pre, r, texts, text)
    requires Kept(text) ==> r[|pre|] == PageChunk(pdf, text, |texts| + 1, |pre|)
    requires forall k :: 0 <= k < |pre| ==> ChunkOfPage(pdf, texts, pre[k], k)
    ensures forall k :: 0 <= k < |r| ==> ChunkOfPage(pdf, texts + [text], r[k], k)
  {
    var all := texts + [text];
    forall k | 0 <= k < |r| ensures ChunkOfPage(pdf, all, r[k], k) {
      if k < |pre| {
        ChunkOfPageExtend(pdf, texts, text, pre[k], r[k], k);
      } else {
        assert Kept(text) && k == |pre|;
        ChunkOfNewPage(pdf, texts, text, r[k], k);
      }
    }
  }

  lemma ChunkOfNewPage(pdf: PdfInfo, texts: seq<string>, text: string, c: Chunk, k: int)
    requires Kept(text) && c == PageChunk(pdf, text, |texts| + 1, k)
    ensures ChunkOfPage(pdf, texts + [text], c, k)
  {
    assert (texts + [text])[|texts|] == text;
  }

  lemma ChunkOfPageExtend(pdf: PdfInfo, texts: seq<string>, text: string, c: Chunk, d: Chunk, k: int)
    requires ChunkOfPage(pdf, texts, c, k) && d == c
    ensures ChunkOfPage(pdf, texts + [text], d, k)
  {
    var p := c.metadata.page.value;
    assert (texts + [text])[p - 1] == texts[p - 1];
  }

  /**
   * A normalized page text that is not empty starts with a visible
   * character, so its title is the start of its first line.
   */
  lemma TitleOfNormalized(items: seq<string>, p: nat)
    requires PageText(items) != []
    ensures var text := PageText(items);
      var first := Split(text, '\n')[0];
      && Title(text, p) == Take(first, 60)
      && Title(text, p) != []
      && |Title(text, p)| <= 60
  {
    var text := PageText(items);
    NormalizeMeaning(Join(items, "\n"));
    var lines := Split(text, '\n');
    var first := lines[0];
    FirstLineStarts(text);
    assert first != [] && first[0] == text[0];
    assert !AllSpace(first) by {
      assert !IsSpace(first[0]);
    }
    assert FirstNonBlank(lines) == Some(first);
  }

  /** The first line of a text starts where the text does. */
  lemma FirstLineStarts(text: string)
    requires text != [] && text[0] != '\n'
    ensures Split(text, '\n')[0] != [] && Split(text, '\n')[0][0] == text[0]
  {
    var i := IndexOf(text, '\n');
    assert i > 0;
  }
}
