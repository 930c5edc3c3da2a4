/**
 * The response-side helpers of api/chat.ts: `cleanText`, the filter that
 * keeps one retrieved chunk per source key, the `sources` list and context
 * entries built from the kept chunks, and the rewrite of the model's answer
 * that keeps at most one normalized `[참조 n - …]` citation per source and
 * per source key.
 */
module Chat {
  import opened Text
  import opened Corpus

  // ---------------------------------------------------------------------
  // cleanText

  /** The position of the last line break of `s`, or -1. */
  function LastBreak(s: string): (k: int)
    ensures -1 <= k < |s|
    ensures k >= 0 ==> s[k] == '\n'
    ensures forall j :: k < j < |s| ==> s[j] != '\n'
  {
    if s == [] then -1
    else if s[|s| - 1] == '\n' then |s| - 1
    else LastBreak(s[..|s| - 1])
  }

  /**
   * What the global replace of whitespace-then-line-break by a line break
   * makes of one maximal whitespace run: the greedy match starting at the
   * run's first character ends at the run's last line break, provided that
   * break is not the run's first character; the rest of the run has no line
   * break left and no further match.
   */
  function RunOutput(run: string): string {
    var k := LastBreak(run);
    if k >= 1 then "\n" + run[k + 1..] else run
  }

  /** The third replace of `cleanText`, one maximal whitespace run at a time. */
  function StripBeforeBreaks(s: string): string
    decreases |s|
  {
    if s == [] then []
    else if IsSpace(s[0]) then
      var n := LeadingSpaces(s);
      RunOutput(s[..n]) + StripBeforeBreaks(s[n..])
    else [s[0]] + StripBeforeBreaks(s[1..])
  }

  /**
   * `cleanText(input)`: drop the private-use characters, then the
   * zero-width ones, then the whitespace before each line break, then trim.
   */
  function CleanText(input: string): string {
    Trim(StripBeforeBreaks(RemoveWhere(RemoveWhere(input, IsPrivateUse), IsZeroWidth)))
  }

  /** No whitespace character directly precedes a line break. */
  predicate NoSpaceBeforeBreak(s: string) {
    forall i :: 0 < i < |s| && s[i] == '\n' ==> !IsSpace(s[i - 1])
  }

  lemma NoSpaceBeforeBreakConcat(a: string, b: string)
    requires NoSpaceBeforeBreak(a) && NoSpaceBeforeBreak(b)
    requires a != [] && b != [] && b[0] == '\n' ==> !IsSpace(a[|a| - 1])
    ensures NoSpaceBeforeBreak(a + b)
  {
    var s := a + b;
    forall i | 0 < i < |s| && s[i] == '\n' ensures !IsSpace(s[i - 1]) {
      if i < |a| {
        assert s[i] == a[i] && s[i - 1] == a[i - 1];
      } else if i == |a| {
        assert s[i] == b[0] && s[i - 1] == a[|a| - 1];
      } else {
        assert s[i] == b[i - |a|] && s[i - 1] == b[i - |a| - 1];
      }
    }
  }

  lemma NoSpaceBeforeBreakSlice(s: string, lo: int, hi: int)
    requires 0 <= lo <= hi <= |s| && NoSpaceBeforeBreak(s)
    ensures NoSpaceBeforeBreak(s[lo..hi])
  {
    var t := s[lo..hi];
    forall i | 0 < i < |t| && t[i] == '\n' ensures !IsSpace(t[i - 1]) {
      assert t[i] == s[lo + i] && t[i - 1] == s[lo + i - 1];
    }
  }

  /** A rewritten run has a line break at most in front, and only characters of the run. */
  lemma RunOutputMeaning(run: string)
    ensures var r := RunOutput(run);
      && (run != [] ==> r != [])
      && (forall i :: 0 < i < |r| ==> r[i] != '\n')
      && (forall i :: 0 <= i < |r| ==> r[i] in run)
  {
    var k := LastBreak(run);
    if k >= 1 {
      var r := RunOutput(run);
      forall i | 0 <= i < |r| ensures r[i] in run && (i > 0 ==> r[i] != '\n') {
        if i == 0 {
          assert r[0] == run[k];
        } else {
          assert r[i] == run[k + i];
        }
      }
    }
  }

  /**
   * After the third replace no whitespace precedes a line break, no
   * character is new, and a visible first character stays in front.
   */
  lemma {:induction false} StripMeaning(s: string)
    ensures StripKeeps(s, StripBeforeBreaks(s))
    decreases |s|
  {
    if s != [] {
      if IsSpace(s[0]) {
        var n := LeadingSpaces(s);
        StripMeaning(s[n..]);
        assert StripBeforeBreaks(s) == RunOutput(s[..n]) + StripBeforeBreaks(s[n..]);
        StripRunStep(s, n, RunOutput(s[..n]), StripBeforeBreaks(s[n..]));
      } else {
        StripMeaning(s[1..]);
        assert StripBeforeBreaks(s) == [s[0]] + StripBeforeBreaks(s[1..]);
        StripCharStep(s, StripBeforeBreaks(s[1..]));
      }
    }
  }

  /**
   * `r` has no whitespace directly before a line break, no character that
   * is not in `s`, and starts with the first character of `s` when that one
   * is visible.
   */
  ghost predicate StripKeeps(s: string, r: string) {
    && NoSpaceBeforeBreak(r)
    && (forall i :: 0 <= i < |r| ==> r[i] in s)
    && (s != [] && !IsSpace(s[0]) ==> r != [] && r[0] == s[0])
  }

  /** A rewritten leading whitespace run followed by the rewritten rest. */
  lemma StripRunStep(s: string, n: nat, head: string, tail: string)
    requires s != [] && IsSpace(s[0]) && n == LeadingSpaces(s)
    requires head == RunOutput(s[..n]) && StripKeeps(s[n..], tail)
    ensures StripKeeps(s, head + tail)
  {
    if tail != [] {
      assert tail[0] in s[n..];
      assert s[n..][0] == s[n];
    }
    StripRunBreaks(s, n, head, tail);
    StripRunChars(s, n, head, tail);
  }

  lemma StripRunBreaks(s: string, n: nat, head: string, tail: string)
    requires n <= |s| && head == RunOutput(s[..n]) && NoSpaceBeforeBreak(tail)
    requires tail != [] ==> tail[0] != '\n'
    ensures NoSpaceBeforeBreak(head + tail)
  {
    NoSpaceBeforeBreakRun(s[..n]);
    NoSpaceBeforeBreakConcat(head, tail);
  }

  lemma NoSpaceBeforeBreakRun(run: string)
    ensures NoSpaceBeforeBreak(RunOutput(run))
  {
    RunOutputMeaning(run);
  }

  lemma StripRunChars(s: string, n: nat, head: string, tail: string)
    requires n <= |s| && head == RunOutput(s[..n])
    requires forall i :: 0 <= i < |tail| ==> tail[i] in s[n..]
    ensures forall i :: 0 <= i < |head + tail| ==> (head + tail)[i] in s
  {
    assert s == s[..n] + s[n..];
    RunOutputMeaning(s[..n]);
    ConcatDrawsFrom(head, tail, s[..n], s[n..], s);
  }

  /** A visible first character followed by the rewritten rest. */
  lemma StripCharStep(s: string, tail: string)
    requires s != [] && !IsSpace(s[0])
    requires StripKeeps(s[1..], tail)
    ensures StripKeeps(s, [s[0]] + tail)
  {
    NoSpaceBeforeBreakConcat([s[0]], tail);
    assert s == [s[0]] + s[1..];
    ConcatDrawsFrom([s[0]], tail, [s[0]], s[1..], s);
  }

  /** Characters drawn from `sa` followed by characters drawn from `sb` are drawn from `sa + sb`. */
  lemma ConcatDrawsFrom(a: string, b: string, sa: string, sb: string, s: string)
    requires s == sa + sb
    requires forall i :: 0 <= i < |a| ==> a[i] in sa
    requires forall i :: 0 <= i < |b| ==> b[i] in sb
    ensures forall i :: 0 <= i < |a + b| ==> (a + b)[i] in s
  {
    forall i | 0 <= i < |a + b| ensures (a + b)[i] in s {
      if i < |a| {
        assert (a + b)[i] == a[i] && a[i] in sa;
      } else {
        assert (a + b)[i] == b[i - |a|] && b[i - |a|] in sb;
      }
    }
  }

  /**
   * The text `cleanText` returns has no private-use or zero-width
   * character, no whitespace at either end and none directly before a line
   * break, and only characters of its input.
   */
  lemma CleanTextMeaning(input: string)
    ensures var r := CleanText(input);
      && (forall i :: 0 <= i < |r| ==> !IsInvisible(r[i]) && r[i] in input)
      && (r == [] || (!IsSpace(r[0]) && !IsSpace(r[|r| - 1])))
      && NoSpaceBeforeBreak(r)
  {
    var b := RemoveWhere(RemoveWhere(input, IsPrivateUse), IsZeroWidth);
    var c := StripBeforeBreaks(b);
    var r := Trim(c);
    RemoveInvisibleChars(input);
    StripMeaning(b);
    TrimAddsNothing(c);
    VisibleThrough(r, c, b, input);
  }

  /** Characters drawn from `c`, drawn in turn from the visible characters of `b`, are visible characters of `input`. */
  lemma VisibleThrough(r: string, c: string, b: string, input: string)
    requires forall x :: x in r ==> x in c
    requires forall i :: 0 <= i < |c| ==> c[i] in b
    requires forall x :: x in b ==> !IsInvisible(x) && x in input
    ensures forall i :: 0 <= i < |r| ==> !IsInvisible(r[i]) && r[i] in input
  {
    forall i | 0 <= i < |r| ensures !IsInvisible(r[i]) && r[i] in input {
      assert r[i] in r;
      var j :| 0 <= j < |c| && c[j] == r[i];
      assert c[j] in b;
    }
  }

  /** Trimming adds no character and keeps the absence of whitespace before a line break. */
  lemma TrimAddsNothing(s: string)
    ensures forall x :: x in Trim(s) ==> x in s
    ensures NoSpaceBeforeBreak(s) ==> NoSpaceBeforeBreak(Trim(s))
  {
    var r := Trim(s);
    var lo := LeadingSpaces(s);
    assert r == s[lo..lo + |r|];
    forall x | x in r ensures x in s {
      var i :| 0 <= i < |r| && r[i] == x;
      assert r[i] == s[lo + i];
    }
    if NoSpaceBeforeBreak(s) {
      NoSpaceBeforeBreakSlice(s, lo, lo + |r|);
    }
  }

  /** The first two replaces of `cleanText` leave no invisible character and add none. */
  lemma RemoveInvisibleChars(input: string)
    ensures forall x :: x in RemoveWhere(RemoveWhere(input, IsPrivateUse), IsZeroWidth) ==>
      !IsInvisible(x) && x in input
  {
    var a := RemoveWhere(input, IsPrivateUse);
    var b := RemoveWhere(a, IsZeroWidth);
    RemoveWhereChars(input, IsPrivateUse);
    RemoveWhereChars(a, IsZeroWidth);
    forall x | x in b ensures !IsInvisible(x) && x in input {
      var j :| 0 <= j < |b| && b[j] == x;
      var k :| 0 <= k < |a| && a[k] == x;
    }
  }

  lemma {:induction false} RemoveWhereNone(s: string, drop: char -> bool)
    requires forall i :: 0 <= i < |s| ==> !drop(s[i])
    ensures RemoveWhere(s, drop) == s
    decreases |s|
  {
    if s != [] {
      RemoveWhereNone(s[1..], drop);
      assert s == [s[0]] + s[1..];
    }
  }

  lemma {:induction false} StripFixes(s: string)
    requires NoSpaceBeforeBreak(s)
    ensures StripBeforeBreaks(s) == s
    decreases |s|
  {
    if s != [] {
      if IsSpace(s[0]) {
        var n := LeadingSpaces(s);
        RunOutputOfClean(s, n);
        NoSpaceBeforeBreakSlice(s, n, |s|);
        StripFixes(s[n..]);
        StripFixesRun(s, n);
      } else {
        NoSpaceBeforeBreakSlice(s, 1, |s|);
        StripFixes(s[1..]);
        StripFixesChar(s);
      }
    }
  }

  lemma StripFixesRun(s: string, n: nat)
    requires s != [] && IsSpace(s[0]) && n == LeadingSpaces(s)
    requires RunOutput(s[..n]) == s[..n] && StripBeforeBreaks(s[n..]) == s[n..]
    ensures StripBeforeBreaks(s) == s
  {
    TakeDrop(s, n);
  }

  lemma StripFixesChar(s: string)
    requires s != [] && !IsSpace(s[0]) && StripBeforeBreaks(s[1..]) == s[1..]
    ensures StripBeforeBreaks(s) == s
  {
    assert s == [s[0]] + s[1..];
  }

  /** A leading whitespace run of a text with no whitespace before a break has no break after its start. */
  lemma RunOutputOfClean(s: string, n: nat)
    requires s != [] && IsSpace(s[0]) && n == LeadingSpaces(s) && NoSpaceBeforeBreak(s)
    ensures RunOutput(s[..n]) == s[..n]
  {
    var run := s[..n];
    forall j | 1 <= j < n ensures run[j] != '\n' {
      assert IsSpace(s[j - 1]);
    }
    assert LastBreak(run) < 1;
  }

  /** A text with none of what `cleanText` removes comes back unchanged. */
  lemma CleanTextFixes(s: string)
    requires forall i :: 0 <= i < |s| ==> !IsInvisible(s[i])
    requires s == [] || (!IsSpace(s[0]) && !IsSpace(s[|s| - 1]))
    requires NoSpaceBeforeBreak(s)
    ensures CleanText(s) == s
  {
    RemoveWhereNone(s, IsPrivateUse);
    RemoveWhereNone(s, IsZeroWidth);
    StripFixes(s);
    if s != [] {
      TrimFrame("", s, "");
      assert "" + s + "" == s;
    }
  }

  /** Cleaning twice is cleaning once. */
  lemma CleanTextIdempotent(input: string)
    ensures CleanText(CleanText(input)) == CleanText(input)
  {
    CleanTextMeaning(input);
    CleanTextFixes(CleanText(input));
  }

  // ---------------------------------------------------------------------
  // One chunk per key

  /** The page number as text; a missing or zero page prints as nothing. */
  function PagePart(page: Option<int>): string {
    if page.Some? && page.value != 0 then IntToString(page.value) else ""
  }

  /** The key of a retrieved chunk: its PDF link, else `fileName-page-index`. */
  function ChunkKey(c: Chunk): string {
    if Truthy(c.metadata.pdfUrl) then c.metadata.pdfUrl.value
    else OrEmpty(c.metadata.fileName) + "-" + PagePart(c.metadata.page) + "-" + IntToString(c.index)
  }

  /** The contents of `seen` after the chunks were offered to the filter. */
  function KeysOf(chunks: seq<Chunk>): set<string> {
    if chunks == [] then {} else KeysOf(chunks[..|chunks| - 1]) + {ChunkKey(chunks[|chunks| - 1])}
  }

  /** The chunks the filter keeps: each one whose key no earlier chunk has. */
  function FirstPerKey(chunks: seq<Chunk>): seq<Chunk> {
    if chunks == [] then []
    else
      var init := chunks[..|chunks| - 1];
      var c := chunks[|chunks| - 1];
      FirstPerKey(init) + (if ChunkKey(c) in KeysOf(init) then [] else [c])
  }

  /** Chunk `i` is the first with its key. */
  ghost predicate FirstOfKey(chunks: seq<Chunk>, i: int)
    requires 0 <= i < |chunks|
  {
    forall j :: 0 <= j < i ==> ChunkKey(chunks[j]) != ChunkKey(chunks[i])
  }

  /** Keeps the first relevant chunk per key, remembering the keys seen so far. */
  method UniqueByKey(relevant: seq<Chunk>) returns (unique: seq<Chunk>)
    ensures unique == FirstPerKey(relevant)
  {
    var seen: set<string> := {};
    unique := [];
    for i := 0 to |relevant|
      invariant unique == FirstPerKey(relevant[..i]) && seen == KeysOf(relevant[..i])
    {
      var c := relevant[i];
      var key := ChunkKey(c);
      TakeSnoc(relevant, i);
      PrefixOfSnoc(relevant[..i], c);
      if key !in seen {
        seen := seen + {key};
        unique := unique + [c];
      }
    }
    assert relevant[..|relevant|] == relevant;
  }

  lemma {:induction false} KeysOfMeaning(chunks: seq<Chunk>)
    ensures forall x :: x in KeysOf(chunks) <==> exists i :: 0 <= i < |chunks| && ChunkKey(chunks[i]) == x
    decreases |chunks|
  {
    if chunks != [] {
      var init := chunks[..|chunks| - 1];
      KeysOfMeaning(init);
      forall x ensures x in KeysOf(chunks) <==> exists i :: 0 <= i < |chunks| && ChunkKey(chunks[i]) == x {
        if x in KeysOf(init) {
          var i :| 0 <= i < |init| && ChunkKey(init[i]) == x;
          assert chunks[i] == init[i];
        }
        if exists i :: 0 <= i < |chunks| && ChunkKey(chunks[i]) == x {
          var i :| 0 <= i < |chunks| && ChunkKey(chunks[i]) == x;
          if i < |init| {
            assert init[i] == chunks[i];
          }
        }
      }
    }
  }

  /**
   * The kept chunks are a subsequence of the retrieved ones, in order, and
   * a retrieved chunk is kept exactly when it is the first with its key.
   */
  lemma {:induction false} FirstPerKeyMeaning(chunks: seq<Chunk>) returns (idx: seq<nat>)
    ensures KeptAt(chunks, FirstPerKey(chunks), idx)
    ensures forall i :: 0 <= i < |chunks| ==> (i in idx <==> FirstOfKey(chunks, i))
    decreases |chunks|
  {
    if chunks == [] {
      idx := [];
    } else {
      var n := |chunks| - 1;
      var pidx := FirstPerKeyMeaning(chunks[..n]);
      idx := FirstPerKeyStep(chunks, pidx);
    }
  }

  /** The step of `FirstPerKeyMeaning` from all but the last chunk to all of them. */
  lemma FirstPerKeyStep(chunks: seq<Chunk>, pidx: seq<nat>) returns (idx: seq<nat>)
    requires chunks != []
    requires KeptAt(chunks[..|chunks| - 1], FirstPerKey(chunks[..|chunks| - 1]), pidx)
    requires forall i :: 0 <= i < |chunks| - 1 ==> (i in pidx <==> FirstOfKey(chunks[..|chunks| - 1], i))
    ensures KeptAt(chunks, FirstPerKey(chunks), idx)
    ensures forall i :: 0 <= i < |chunks| ==> (i in idx <==> FirstOfKey(chunks, i))
  {
    var n := |chunks| - 1;
    var init := chunks[..n];
    var p := FirstPerKey(init);
    KeptAtPrefix(chunks, p, pidx, n);
    if ChunkKey(chunks[n]) in KeysOf(init) {
      idx := pidx;
      FirstPerKeyDrop(chunks, n, init, p);
    } else {
      idx := pidx + [n];
      FirstPerKeyAdd(chunks, n, init, p);
      KeptAtSnoc(chunks, p, pidx, n);
    }
    FirstOfKeyExtend(chunks, n, pidx, idx);
  }

  /** Positions before the last keep their verdict; the last one is in `idx` exactly when first with its key. */
  lemma FirstOfKeyExtend(chunks: seq<Chunk>, n: nat, pidx: seq<nat>, idx: seq<nat>)
    requires n + 1 == |chunks|
    requires forall i :: 0 <= i < n ==> (i in pidx <==> FirstOfKey(chunks[..n], i))
    requires idx == pidx || idx == pidx + [n]
    requires n in idx <==> FirstOfKey(chunks, n)
    requires n !in pidx
    ensures forall i :: 0 <= i < |chunks| ==> (i in idx <==> FirstOfKey(chunks, i))
  {
    FirstOfKeyPrefix(chunks, n);
    forall i | 0 <= i < |chunks| ensures i in idx <==> FirstOfKey(chunks, i) {
      if i < n {
        assert i in idx <==> i in pidx;
      }
    }
  }

  /** A last chunk whose key came before is dropped, and it is not the first with its key. */
  lemma FirstPerKeyDrop(chunks: seq<Chunk>, n: nat, init: seq<Chunk>, p: seq<Chunk>)
    requires n + 1 == |chunks| && init == chunks[..n] && p == FirstPerKey(init)
    requires ChunkKey(chunks[n]) in KeysOf(init)
    ensures FirstPerKey(chunks) == p && !FirstOfKey(chunks, n)
  {
    assert FirstPerKey(chunks) == p + [] == p;
    KeysOfMeaning(init);
    var j :| 0 <= j < n && ChunkKey(init[j]) == ChunkKey(chunks[n]);
    assert chunks[j] == init[j];
  }

  /** A last chunk with a new key is kept, and it is the first with its key. */
  lemma FirstPerKeyAdd(chunks: seq<Chunk>, n: nat, init: seq<Chunk>, p: seq<Chunk>)
    requires n + 1 == |chunks| && init == chunks[..n] && p == FirstPerKey(init)
    requires ChunkKey(chunks[n]) !in KeysOf(init)
    ensures FirstPerKey(chunks) == p + [chunks[n]] && FirstOfKey(chunks, n)
  {
    KeysOfMeaning(init);
    forall j | 0 <= j < n ensures ChunkKey(chunks[j]) != ChunkKey(chunks[n]) {
      assert chunks[j] == init[j];
    }
  }

  /** `r` is the subsequence of `s` at the strictly increasing positions `idx`. */
  ghost predicate KeptAt<T>(s: seq<T>, r: seq<T>, idx: seq<nat>) {
    && |idx| == |r|
    && (forall k :: 0 <= k < |idx| ==> idx[k] < |s| && r[k] == s[idx[k]])
    && (forall k, l :: 0 <= k < l < |idx| ==> idx[k] < idx[l])
  }

  lemma KeptAtPrefix<T>(s: seq<T>, r: seq<T>, idx: seq<nat>, n: nat)
    requires n <= |s| && KeptAt(s[..n], r, idx)
    ensures KeptAt(s, r, idx) && forall k :: 0 <= k < |idx| ==> idx[k] < n
  {
    forall k | 0 <= k < |idx| ensures r[k] == s[idx[k]] {
      assert s[..n][idx[k]] == s[idx[k]];
    }
  }

  lemma KeptAtSnoc<T>(s: seq<T>, r: seq<T>, idx: seq<nat>, n: nat)
    requires n < |s| && KeptAt(s, r, idx) && forall k :: 0 <= k < |idx| ==> idx[k] < n
    ensures KeptAt(s, r + [s[n]], idx + [n])
  {
  }

  /** Being first with one's key depends only on the chunks before. */
  lemma FirstOfKeyPrefix(chunks: seq<Chunk>, n: nat)
    requires n <= |chunks|
    ensures forall i :: 0 <= i < n ==> (FirstOfKey(chunks, i) <==> FirstOfKey(chunks[..n], i))
  {
    forall i | 0 <= i < n ensures FirstOfKey(chunks, i) <==> FirstOfKey(chunks[..n], i) {
      assert forall j :: 0 <= j <= i ==> chunks[j] == chunks[..n][j];
    }
  }

  /** The kept chunks have pairwise different keys, and every retrieved key is among them. */
  lemma {:induction false} FirstPerKeyKeys(chunks: seq<Chunk>)
    ensures KeysOf(FirstPerKey(chunks)) == KeysOf(chunks)
    ensures var r := FirstPerKey(chunks);
      forall k, l :: 0 <= k < l < |r| ==> ChunkKey(r[k]) != ChunkKey(r[l])
    decreases |chunks|
  {
    if chunks != [] {
      var n := |chunks| - 1;
      var init := chunks[..n];
      var c := chunks[n];
      var p := FirstPerKey(init);
      FirstPerKeyKeys(init);
      if ChunkKey(c) in KeysOf(init) {
        assert FirstPerKey(chunks) == p + [] == p;
      } else {
        var r := FirstPerKey(chunks);
        assert r == p + [c];
        PrefixOfSnoc(p, c);
        KeysOfMeaning(p);
        forall k | 0 <= k < |p| ensures ChunkKey(r[k]) != ChunkKey(c) {
          assert r[k] == p[k];
        }
      }
    }
  }

  // ---------------------------------------------------------------------
  // Sources and context

  /** One entry of `sources`. */
  datatype Source = Source(
    title: string,
    category: string,
    preview: string,
    page: Option<int>,
    caseNumber: Option<string>,
    fileName: Option<string>,
    pdfUrl: Option<string>,
    note: Option<string>)

  predicate PageTruthy(page: Option<int>) {
    page.Some? && page.value != 0
  }

  /** The file name (or `문서` when missing) followed by the case number, or else the page, of a source. */
  function RefInfo(fileName: Option<string>, caseNumber: Option<string>, page: Option<int>): string {
    OrElse(fileName, "문서")
    + (if Truthy(caseNumber) then ", " + caseNumber.value
       else if PageTruthy(page) then ", p." + IntToString(page.value)
       else "")
  }

  /** `cleaned.substring(0, 160) + '...'`, for the cleaned content. */
  function Preview(cleaned: string): (r: string)
    ensures |r| == Min(160, |cleaned|) + 3
    ensures r[..|r| - 3] == cleaned[..|r| - 3] && r[|r| - 3..] == "..."
  {
    Take(cleaned, 160) + "..."
  }

  /** The cleaned content, cut to its first 800 characters when longer. */
  function Snippet(cleaned: string): (r: string)
    ensures |r| <= 800 && |r| <= |cleaned| && r == cleaned[..|r|]
    ensures |cleaned| <= 800 ==> r == cleaned
  {
    if |cleaned| > 800 then cleaned[..800] else cleaned
  }

  /** `[참조 n`: how the citation of source `n` begins. */
  function MarkerHead(n: nat): string {
    "[참조 " + NatToString(n)
  }

  /** The source that `sources.push` records for kept chunk `idx`. */
  function SourceOf(c: Chunk, idx: nat): Source {
    var m := c.metadata;
    Source(
      if PageTruthy(m.page) then "p." + IntToString(m.page.value)
      else OrElse(m.caseNumber, "참조 " + NatToString(idx + 1)),
      OrElse(m.category, "일반"),
      Preview(CleanText(c.content)),
      m.page, m.caseNumber, m.fileName, m.pdfUrl, m.note)
  }

  /** `${refInfo}]` followed by the line break, after the ` - `. */
  function LabelRest(m: Metadata): string {
    " - " + RefInfo(m.fileName, m.caseNumber, m.page) + "]\n"
  }

  /** The context entry the map callback returns for kept chunk `idx`: its label, then its snippet. */
  function ContextEntry(c: Chunk, idx: nat): string {
    (MarkerHead(idx + 1) + LabelRest(c.metadata)) + Snippet(CleanText(c.content))
  }

  function ContextEntries(chunks: seq<Chunk>): (r: seq<string>)
    ensures |r| == |chunks| && forall i :: 0 <= i < |chunks| ==> r[i] == ContextEntry(chunks[i], i)
  {
    seq(|chunks|, i requires 0 <= i < |chunks| => ContextEntry(chunks[i], i))
  }

  const ContextSeparator := "\n\n---\n\n"

  function SourcesOf(chunks: seq<Chunk>): (r: seq<Source>)
    ensures |r| == |chunks| && forall i :: 0 <= i < |chunks| ==> r[i] == SourceOf(chunks[i], i)
  {
    seq(|chunks|, i requires 0 <= i < |chunks| => SourceOf(chunks[i], i))
  }

  /** Builds the numbered context blocks of the kept chunks, recording one source per block, and joins them. */
  method BuildContext(unique: seq<Chunk>) returns (sources: seq<Source>, context: string)
    ensures sources == SourcesOf(unique)
    ensures context == Join(ContextEntries(unique), ContextSeparator)
  {
    sources := [];
    var entries: seq<string> := [];
    for idx := 0 to |unique|
      invariant sources == SourcesOf(unique)[..idx]
      invariant entries == ContextEntries(unique)[..idx]
    {
      var chunk := unique[idx];
      TakeNext(SourcesOf(unique), sources, SourceOf(chunk, idx));
      TakeNext(ContextEntries(unique), entries, ContextEntry(chunk, idx));
      sources := sources + [SourceOf(chunk, idx)];
      entries := entries + [ContextEntry(chunk, idx)];
    }
    assert SourcesOf(unique)[..|unique|] == SourcesOf(unique);
    assert ContextEntries(unique)[..|unique|] == ContextEntries(unique);
    context := Join(entries, ContextSeparator);
  }

  /**
   * A source is titled by its page when it has one, else by its case
   * number, else by its position; its preview is the start of the cleaned
   * content followed by `...`, and the metadata is copied through.
   */
  lemma SourceOfMeaning(c: Chunk, idx: nat)
    ensures var s := SourceOf(c, idx); var m := c.metadata;
      && (PageTruthy(m.page) ==> s.title == "p." + IntToString(m.page.value))
      && (!PageTruthy(m.page) && Truthy(m.caseNumber) ==> s.title == m.caseNumber.value)
      && (!PageTruthy(m.page) && !Truthy(m.caseNumber) ==> s.title == "참조 " + NatToString(idx + 1))
      && |s.preview| <= 163
      && s.preview == CleanText(c.content)[..|s.preview| - 3] + "..."
      && s.page == m.page && s.caseNumber == m.caseNumber && s.fileName == m.fileName
      && s.pdfUrl == m.pdfUrl && s.note == m.note
  {
    var p := Preview(CleanText(c.content));
    assert p == p[..|p| - 3] + p[|p| - 3..];
  }

  /** The context holds every kept chunk's tag and snippet. */
  lemma ContextHoldsSnippet(unique: seq<Chunk>, i: nat)
    requires i < |unique|
    ensures var context := Join(ContextEntries(unique), ContextSeparator);
      Contains(context, Snippet(CleanText(unique[i].content))) && Contains(context, MarkerHead(i + 1))
  {
    var entries := ContextEntries(unique);
    var context := Join(entries, ContextSeparator);
    var head := MarkerHead(i + 1);
    var tag := head + LabelRest(unique[i].metadata);
    var snippet := Snippet(CleanText(unique[i].content));
    assert entries[i] == tag + snippet;
    JoinHolds(entries, ContextSeparator, i);
    ContainsParts(tag, snippet);
    ContainsParts(head, LabelRest(unique[i].metadata));
    ContainsTrans(tag + snippet, tag, head);
    ContainsTrans(context, tag + snippet, snippet);
    ContainsTrans(context, tag + snippet, head);
  }

  // ---------------------------------------------------------------------
  // Citation rewrite

  /**
   * Where the pattern `\[참조 n[^\]]*\]` of source `n` matches at the start
   * of `s`: its head, then everything up to the first `]`, that included.
   */
  function MatchAt(s: string, head: string): (r: Option<nat>)
    ensures r.Some? ==> 0 < r.value <= |s|
  {
    if StartsWith(s, head) && IndexOf(s[|head|..], ']') < |s| - |head|
    then Some(|head| + IndexOf(s[|head|..], ']') + 1)
    else None
  }

  /**
   * A match is the head, then characters other than `]`, then the first
   * `]`; there is none when the head is missing or no `]` follows it.
   */
  lemma MatchAtMeaning(s: string, head: string)
    ensures var r := MatchAt(s, head);
      && (r.Some? ==> StartsWith(s, head) && |head| < r.value && s[r.value - 1] == ']')
      && (r.Some? ==> forall j :: |head| <= j < r.value - 1 ==> s[j] != ']')
      && (r.None? ==> !StartsWith(s, head) || forall j :: |head| <= j < |s| ==> s[j] != ']')
  {
    if StartsWith(s, head) {
      var t := s[|head|..];
      var k := IndexOf(t, ']');
      forall j | |head| <= j < |head| + k ensures s[j] != ']' {
        assert s[j] == t[j - |head|];
      }
      if k < |t| {
        assert s[|head| + k] == t[k];
      }
    }
  }

  /**
   * `s.replace(pattern, callback)` for a callback that returns `ref` for
   * the first match when `first` holds and `''` otherwise.
   */
  function Replace(s: string, head: string, ref: string, first: bool): string
    decreases |s|
  {
    if s == [] then []
    else match MatchAt(s, head)
      case Some(len) => (if first then ref else "") + Replace(s[len..], head, ref, false)
      case None => [s[0]] + Replace(s[1..], head, ref, first)
  }

  /** The pattern matches somewhere in `s`: the callback runs at least once. */
  predicate Matched(s: string, head: string)
    decreases |s|
  {
    s != [] && (MatchAt(s, head).Some? || Matched(s[1..], head))
  }

  /** The normalized citation of source `idx`. */
  function NormalizedRef(src: Source, idx: nat): string {
    MarkerHead(idx + 1) + " - " + RefInfo(src.fileName, src.caseNumber, src.page) + "]"
  }

  /** The key of a source in `usedKeys`: its PDF link, else `fileName-page`. */
  function SourceKey(src: Source): string {
    if Truthy(src.pdfUrl) then src.pdfUrl.value else OrEmpty(src.fileName) + "-" + PagePart(src.page)
  }

  /** The answer text and `usedKeys` between two sources. */
  datatype Rewrite = Rewrite(text: string, usedKeys: set<string>)

  /** Source `idx` writes its normalized citation: its key is free and the text cites it. */
  predicate Emits(st: Rewrite, src: Source, idx: nat) {
    SourceKey(src) !in st.usedKeys && Matched(st.text, MarkerHead(idx + 1))
  }

  /** The `forEach` body for source `idx`. */
  function RewriteStep(st: Rewrite, src: Source, idx: nat): Rewrite {
    Rewrite(Replace(st.text, MarkerHead(idx + 1), NormalizedRef(src, idx), SourceKey(src) !in st.usedKeys),
            if Emits(st, src, idx) then st.usedKeys + {SourceKey(src)} else st.usedKeys)
  }

  /** The state after the first `k` sources were processed. */
  function RewriteUpTo(text: string, sources: seq<Source>, k: nat): Rewrite
    requires k <= |sources|
  {
    if k == 0 then Rewrite(text, {})
    else RewriteStep(RewriteUpTo(text, sources, k - 1), sources[k - 1], k - 1)
  }

  /** Source `j` wrote its normalized citation during the rewrite. */
  predicate Emitted(text: string, sources: seq<Source>, j: nat)
    requires j < |sources|
  {
    Emits(RewriteUpTo(text, sources, j), sources[j], j)
  }

  /** One `text.replace(pattern, callback)`, the callback updating `first` and `usedKeys`. */
  method ReplaceCitations(text: string, head: string, ref: string, key: string, usedKeys: set<string>)
    returns (out: string, used: set<string>)
    ensures key !in usedKeys ==> out == Replace(text, head, ref, true)
    ensures key !in usedKeys ==> used == if Matched(text, head) then usedKeys + {key} else usedKeys
    ensures key in usedKeys ==> out == Replace(text, head, ref, false) && used == usedKeys
  {
    out := [];
    used := usedKeys;
    var first := true;
    var i := 0;
    ghost var whole := Replace(text, head, ref, key !in usedKeys);
    ghost var f := key !in usedKeys;
    while i < |text|
      invariant 0 <= i <= |text|
      invariant f == (first && key !in usedKeys)
      invariant out + Replace(text[i..], head, ref, f) == whole
      invariant used == if first then usedKeys else usedKeys + {key}
      invariant !first ==> key !in usedKeys && Matched(text, head)
      invariant f ==> (Matched(text, head) <==> Matched(text[i..], head))
      decreases |text| - i
    {
      out, i, first, used, f := CitationStep(text, head, ref, key, usedKeys, out, i, first, used, f);
    }
  }

  /**
   * One position of the scan of `text.replace`: a match is replaced by the
   * callback's result and skipped, any other character is copied.
   */
  method CitationStep(text: string, head: string, ref: string, key: string, usedKeys: set<string>,
                      out: string, i: nat, first: bool, used: set<string>, ghost f: bool)
    returns (out': string, i': nat, first': bool, used': set<string>, ghost f': bool)
    requires i < |text|
    requires f == (first && key !in usedKeys)
    requires used == if first then usedKeys else usedKeys + {key}
    ensures i < i' <= |text|
    ensures f' == (first' && key !in usedKeys)
    ensures used' == if first' then usedKeys else usedKeys + {key}
    ensures out' + Replace(text[i'..], head, ref, f') == out + Replace(text[i..], head, ref, f)
    ensures first' ==> first
    ensures first && !first' ==> f && Matched(text[i..], head)
    ensures f && first' ==> (Matched(text[i..], head) <==> Matched(text[i'..], head))
  {
    first', used', f' := first, used, f;
    var m := MatchAt(text[i..], head);
    if m.Some? {
      var len := m.value;
      var take := first && key !in used;
      assert take == f by {
        if first {
          assert used == usedKeys;
        }
      }
      if take {
        first' := false;
        used' := used + {key};
        out' := out + ref;
      } else {
        out' := out;
      }
      f' := false;
      i' := i + len;
      ReplaceMatchStep(text, i, i', head, ref, f, out, out');
    } else {
      out' := out + [text[i]];
      i' := i + 1;
      ReplaceMissStep(text, i, head, ref, f, out, out');
    }
  }

  /** Replacing at a match: the callback's result, when it is taken, then the text after the match. */
  lemma ReplaceMatchStep(text: string, i: nat, j: nat, head: string, ref: string, f: bool, out: string, out': string)
    requires i < j && i < |text| && MatchAt(text[i..], head) == Some(j - i)
    requires out' == if f then out + ref else out
    ensures j <= |text|
    ensures out' + Replace(text[j..], head, ref, false) == out + Replace(text[i..], head, ref, f)
    ensures Matched(text[i..], head)
  {
    var tail := ReplaceAtMatchTo(text, i, j, head, ref, f);
    if f {
      assert out' == out + ref;
      AppendAssoc(out, ref, tail);
    } else {
      assert out' == out;
      assert "" + tail == tail;
    }
  }

  /** `Replace` at a position where a match ending at `j` starts. */
  lemma ReplaceAtMatchTo(text: string, i: nat, j: nat, head: string, ref: string, f: bool) returns (tail: string)
    requires i < j && i < |text| && MatchAt(text[i..], head) == Some(j - i)
    ensures j <= |text|
    ensures tail == Replace(text[j..], head, ref, false)
    ensures Replace(text[i..], head, ref, f) == (if f then ref else "") + tail
    ensures Matched(text[i..], head)
  {
    assert text[i..][j - i..] == text[j..];
    tail := Replace(text[j..], head, ref, false);
  }

  /** Copying a character where no match starts. */
  lemma ReplaceMissStep(text: string, i: nat, head: string, ref: string, f: bool, out: string, out': string)
    requires i < |text| && MatchAt(text[i..], head).None?
    requires out' == out + [text[i]]
    ensures out' + Replace(text[i + 1..], head, ref, f) == out + Replace(text[i..], head, ref, f)
    ensures Matched(text[i..], head) == Matched(text[i + 1..], head)
  {
    var tail := ReplaceAtMiss(text, i, head, ref, f);
    AppendAssoc(out, [text[i]], tail);
  }

  /** `Replace` at a position where a match of length `len` starts. */
  lemma ReplaceAtMatch(text: string, i: nat, len: nat, head: string, ref: string, f: bool) returns (tail: string)
    requires i < |text| && MatchAt(text[i..], head) == Some(len)
    ensures i + len <= |text|
    ensures tail == Replace(text[i + len..], head, ref, false)
    ensures Replace(text[i..], head, ref, f) == (if f then ref else "") + tail
    ensures Matched(text[i..], head)
  {
    assert text[i..][len..] == text[i + len..];
    tail := Replace(text[i + len..], head, ref, false);
  }

  /** `Replace` at a position where no match starts. */
  lemma ReplaceAtMiss(text: string, i: nat, head: string, ref: string, f: bool) returns (tail: string)
    requires i < |text| && MatchAt(text[i..], head).None?
    ensures tail == Replace(text[i + 1..], head, ref, f)
    ensures Replace(text[i..], head, ref, f) == [text[i]] + tail
    ensures Matched(text[i..], head) == Matched(text[i + 1..], head)
  {
    assert text[i..][1..] == text[i + 1..];
    tail := Replace(text[i + 1..], head, ref, f);
  }

  /** `text = cleanText(response.text())`, then the citation rewrite over `sources`. */
  method RewriteCitations(response: string, sources: seq<Source>) returns (text: string)
    ensures text == RewriteUpTo(CleanText(response), sources, |sources|).text
  {
    text := CleanText(response);
    ghost var cleaned := text;
    if |sources| > 0 {
      var usedKeys: set<string> := {};
      for idx := 0 to |sources|
        invariant Rewrite(text, usedKeys) == RewriteUpTo(cleaned, sources, idx)
      {
        var src := sources[idx];
        RewriteUpToSucc(cleaned, sources, idx);
        text, usedKeys := ReplaceCitations(text, MarkerHead(idx + 1), NormalizedRef(src, idx), SourceKey(src), usedKeys);
      }
    }
  }

  /** The pattern matches somewhere exactly when some position starts a match. */
  lemma {:induction false} MatchedMeaning(s: string, head: string)
    ensures Matched(s, head) <==> exists i :: 0 <= i < |s| && MatchAt(s[i..], head).Some?
    decreases |s|
  {
    if s != [] {
      MatchedMeaning(s[1..], head);
      if exists i :: 0 <= i < |s| && MatchAt(s[i..], head).Some? {
        var i :| 0 <= i < |s| && MatchAt(s[i..], head).Some?;
        if i > 0 {
          assert s[1..][i - 1..] == s[i..];
        }
      }
      if Matched(s[1..], head) {
        var i :| 0 <= i < |s| - 1 && MatchAt(s[1..][i..], head).Some?;
        assert s[1..][i..] == s[i + 1..];
      }
      assert s[0..] == s;
    }
  }

  /** A text with no citation of the source passes unchanged. */
  lemma {:induction false} ReplaceUnmatched(s: string, head: string, ref: string, first: bool)
    requires !Matched(s, head)
    ensures Replace(s, head, ref, first) == s
    decreases |s|
  {
    if s != [] {
      ReplaceUnmatched(s[1..], head, ref, first);
      assert s == [s[0]] + s[1..];
    }
  }

  /**
   * Once the first match is used up, every match is deleted: the result
   * does not depend on the replacement, and it is shorter when anything
   * matched.
   */
  lemma {:induction false} ReplaceDeletes(s: string, head: string, ref: string, other: string)
    ensures Replace(s, head, ref, false) == Replace(s, head, other, false)
    ensures |Replace(s, head, ref, false)| <= |s|
    ensures Matched(s, head) ==> |Replace(s, head, ref, false)| < |s|
    decreases |s|
  {
    if s != [] {
      if MatchAt(s, head).Some? {
        ReplaceDeletes(s[MatchAt(s, head).value..], head, ref, other);
      } else {
        ReplaceDeletes(s[1..], head, ref, other);
      }
    }
  }

  /**
   * When `first` holds and the source is cited, the first match becomes
   * `ref` and everything after it is processed with `first` down; the text
   * before the first match is kept.
   */
  lemma ReplaceFirst(s: string, head: string, ref: string) returns (i: nat, len: nat)
    requires Matched(s, head)
    ensures i < |s| && MatchAt(s[i..], head) == Some(len) && i + len <= |s|
    ensures forall j :: 0 <= j < i ==> MatchAt(s[j..], head).None?
    ensures Replace(s, head, ref, true) == s[..i] + ref + Replace(s[i + len..], head, ref, false)
  {
    assert s[0..] == s;
    i := FirstMatchFrom(s, head, 0);
    len := MatchAt(s[i..], head).value;
    ReplaceKeepsUpTo(s, head, ref, i);
    var tail := ReplaceAtMatch(s, i, len, head, ref, true);
    AppendAssoc(s[..i], ref, tail);
  }

  /** The first position at or after `k` where a match starts, when none starts before `k`. */
  lemma {:induction false} FirstMatchFrom(s: string, head: string, k: nat) returns (i: nat)
    requires k <= |s| && Matched(s[k..], head)
    requires forall j :: 0 <= j < k ==> MatchAt(s[j..], head).None?
    ensures k <= i < |s| && MatchAt(s[i..], head).Some?
    ensures forall j :: 0 <= j < i ==> MatchAt(s[j..], head).None?
    decreases |s| - k
  {
    if MatchAt(s[k..], head).Some? {
      i := k;
    } else {
      MatchedPastMiss(s, k, head);
      i := FirstMatchFrom(s, head, k + 1);
    }
  }

  lemma MatchedPastMiss(s: string, k: nat, head: string)
    requires k < |s| && MatchAt(s[k..], head).None?
    ensures Matched(s[k..], head) == Matched(s[k + 1..], head)
  {
    assert s[k..][1..] == s[k + 1..];
  }

  /** With no match before `i`, the text before `i` is copied and `first` is still up at `i`. */
  lemma {:induction false} ReplaceKeepsUpTo(s: string, head: string, ref: string, i: nat)
    requires i <= |s|
    requires forall j :: 0 <= j < i ==> MatchAt(s[j..], head).None?
    ensures Replace(s, head, ref, true) == s[..i] + Replace(s[i..], head, ref, true)
    decreases i
  {
    if i == 0 {
      assert s[0..] == s && s[..0] == [];
    } else {
      ReplaceKeepsUpTo(s, head, ref, i - 1);
      ReplaceKeepsStep(s, head, ref, i);
    }
  }

  lemma ReplaceKeepsStep(s: string, head: string, ref: string, i: nat)
    requires 0 < i <= |s| && MatchAt(s[i - 1..], head).None?
    requires Replace(s, head, ref, true) == s[..i - 1] + Replace(s[i - 1..], head, ref, true)
    ensures Replace(s, head, ref, true) == s[..i] + Replace(s[i..], head, ref, true)
  {
    var tail := ReplaceAtMiss(s, i - 1, head, ref, true);
    AppendAssoc(s[..i - 1], [s[i - 1]], tail);
    assert s[..i] == s[..i - 1] + [s[i - 1]];
  }

  lemma RewriteUpToSucc(text: string, sources: seq<Source>, j: nat)
    requires j < |sources|
    ensures RewriteUpTo(text, sources, j + 1) == RewriteStep(RewriteUpTo(text, sources, j), sources[j], j)
  {
  }

  /** `usedKeys` holds exactly the keys of the sources that wrote their citation so far. */
  lemma {:induction false} UsedKeysMeaning(text: string, sources: seq<Source>, k: nat)
    requires k <= |sources|
    ensures forall x :: x in RewriteUpTo(text, sources, k).usedKeys <==>
      exists j :: 0 <= j < k && Emitted(text, sources, j) && SourceKey(sources[j]) == x
    decreases k
  {
    if k > 0 {
      var j0 := k - 1;
      UsedKeysMeaning(text, sources, j0);
      RewriteUpToSucc(text, sources, j0);
      var before := RewriteUpTo(text, sources, j0).usedKeys;
      var after := RewriteUpTo(text, sources, k).usedKeys;
      assert after == if Emitted(text, sources, j0) then before + {SourceKey(sources[j0])} else before;
      forall x ensures x in after <==> exists j :: 0 <= j < k && Emitted(text, sources, j) && SourceKey(sources[j]) == x {
        if x in before {
          var j :| 0 <= j < j0 && Emitted(text, sources, j) && SourceKey(sources[j]) == x;
        } else if x in after {
          assert Emitted(text, sources, j0) && SourceKey(sources[j0]) == x;
        }
        if exists j :: 0 <= j < k && Emitted(text, sources, j) && SourceKey(sources[j]) == x {
          var j :| 0 <= j < k && Emitted(text, sources, j) && SourceKey(sources[j]) == x;
          if j < j0 {
            assert x in before;
          }
        }
      }
    }
  }

  /** At most one source per key writes its normalized citation. */
  lemma OneCitationPerKey(text: string, sources: seq<Source>, j1: nat, j2: nat)
    requires j1 < j2 < |sources|
    requires Emitted(text, sources, j1) && Emitted(text, sources, j2)
    ensures SourceKey(sources[j1]) != SourceKey(sources[j2])
  {
    UsedKeysMeaning(text, sources, j2);
  }

  /**
   * A source whose key an earlier source already used writes nothing: every
   * one of its citations is deleted.
   */
  lemma TakenKeyDeletesAll(text: string, sources: seq<Source>, i: nat, j: nat)
    requires i < j < |sources|
    requires Emitted(text, sources, i) && SourceKey(sources[i]) == SourceKey(sources[j])
    ensures !Emitted(text, sources, j)
    ensures var before := RewriteUpTo(text, sources, j).text;
      RewriteUpTo(text, sources, j + 1).text == Replace(before, MarkerHead(j + 1), "", false)
  {
    UsedKeysMeaning(text, sources, j);
    RewriteUpToSucc(text, sources, j);
    var before := RewriteUpTo(text, sources, j).text;
    ReplaceDeletes(before, MarkerHead(j + 1), NormalizedRef(sources[j], j), "");
  }

  /**
   * A source whose key is still free, and which the text cites, turns its
   * first citation into its normalized citation and deletes the rest.
   */
  lemma FreeKeyKeepsFirst(text: string, sources: seq<Source>, j: nat) returns (i: nat, len: nat)
    requires j < |sources| && Emitted(text, sources, j)
    ensures var before := RewriteUpTo(text, sources, j).text; var head := MarkerHead(j + 1);
      && i + len <= |before| && MatchAt(before[i..], head) == Some(len)
      && (forall k :: 0 <= k < i ==> MatchAt(before[k..], head).None?)
      && RewriteUpTo(text, sources, j + 1).text
         == before[..i] + NormalizedRef(sources[j], j) + Replace(before[i + len..], head, "", false)
  {
    RewriteUpToSucc(text, sources, j);
    var before := RewriteUpTo(text, sources, j).text;
    var head := MarkerHead(j + 1);
    var ref := NormalizedRef(sources[j], j);
    i, len := ReplaceFirst(before, head, ref);
    ReplaceDeletes(before[i + len..], head, ref, "");
  }

  /** A source the text does not cite leaves the text and `usedKeys` alone. */
  lemma UncitedSourceChangesNothing(text: string, sources: seq<Source>, j: nat)
    requires j < |sources| && !Matched(RewriteUpTo(text, sources, j).text, MarkerHead(j + 1))
    ensures RewriteUpTo(text, sources, j + 1) == RewriteUpTo(text, sources, j)
  {
    RewriteUpToSucc(text, sources, j);
    var st := RewriteUpTo(text, sources, j);
    ReplaceUnmatched(st.text, MarkerHead(j + 1), NormalizedRef(sources[j], j), SourceKey(sources[j]) !in st.usedKeys);
  }
  /** The marker head of source 1. */
  lemma MarkerHeadOne()
    ensures MarkerHead(1) == "[참조 1"
  {
    assert NatToString(1) == "1";
  }

  /** `[참조 1]` is a citation of source 1. */
  lemma CitationOfFirst()
    ensures Matched("[참조 1]", MarkerHead(1))
  {
    MarkerHeadOne();
    var h := MarkerHead(1);
    var m := "[참조 1]";
    assert m[..|h|] == h;
    assert IndexOf(m[|h|..], ']') == 0;
    assert MatchAt(m, h).Some?;
  }

  /**
   * Deleting a citation can join the text around it into a new one: in
   * `[참[참조 1]조 1]` the only match is the inner `[참조 1]`, and deleting it
   * leaves `[참조 1]` behind.
   */
  lemma DeletionCanFormCitation()
    ensures Replace("[참[참조 1]조 1]", MarkerHead(1), "", false) == "[참조 1]"
    ensures Matched("[참조 1]", MarkerHead(1))
  {
    CitationOfFirst();
    var s := "[참[참조 1]조 1]";
    var r1 := UncitedFront(s, "참[참조 1]조 1]");
    var r2 := UncitedFront("참[참조 1]조 1]", "[참조 1]조 1]");
    InnerCitationDeleted("[참조 1]조 1]");
    Rejoined(r1, r2);
  }

  /** The two kept characters and the kept tail spell `[참조 1]`. */
  lemma Rejoined(c1: char, c2: char)
    requires c1 == '[' && c2 == '참'
    ensures [c1] + ([c2] + "조 1]") == "[참조 1]"
  {
  }

  /** No citation of source 1 starts at the front of `s` when it does not begin like `[참조`. */
  lemma UncitedFront(s: string, rest: string) returns (c: char)
    requires |s| >= 5 && rest == s[1..] && (s[0] != '[' || s[2] != '조')
    ensures c == s[0]
    ensures Replace(s, MarkerHead(1), "", false) == [c] + Replace(rest, MarkerHead(1), "", false)
  {
    MarkerHeadOne();
    var h := MarkerHead(1);
    assert s[..|h|][0] != h[0] || s[..|h|][2] != h[2];
    c := s[0];
  }

  /** Deleting the leading citation of `[참조 1]조 1]` leaves its tail. */
  lemma InnerCitationDeleted(s: string)
    requires s == "[참조 1]조 1]"
    ensures Replace(s, MarkerHead(1), "", false) == "조 1]"
  {
    MarkerHeadOne();
    var h := MarkerHead(1);
    assert s[..|h|] == h;
    assert IndexOf(s[|h|..], ']') == 0;
    assert MatchAt(s, h) == Some(6);
    TailUncited(s[6..]);
  }

  /** `조 1]` holds no citation of source 1. */
  lemma TailUncited(t: string)
    requires t == "조 1]"
    ensures Replace(t, MarkerHead(1), "", false) == t
  {
    MarkerHeadOne();
    MatchedMeaning(t, MarkerHead(1));
    ReplaceUnmatched(t, MarkerHead(1), "", false);
  }
}
