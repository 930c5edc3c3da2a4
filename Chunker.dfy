/**
 * `createChunks` of scripts/downloadAndChunkPDF.ts: the extracted PDF text is
 * cut into lines, lines are collected in a buffer while it stays under
 * `chunkSize`, and a full buffer is flushed as one trimmed chunk; the next
 * buffer starts with the last `floor(overlap / 50)` lines of the old one.
 */
module Chunker {
  import opened Text

  /** `{content, index}`. */
  datatype RawChunk = RawChunk(content: string, index: int)

  /** The loop's variables: `chunks`, `currentChunk` and `chunkIndex`. */
  datatype Buffer = Buffer(chunks: seq<RawChunk>, current: string, chunkIndex: int)

  const Start := Buffer([], "", 0)

  /** The last `overlap / 50` lines (rounded down) of the current chunk, carried into the next one. */
  function Overlap(current: string, overlap: int): string {
    Join(DropFront(Split(current, '\n'), -(overlap / 50)), "\n")
  }

  /** Emits the trimmed current chunk with the next chunk number, unless it is blank. */
  function Flush(st: Buffer): Buffer {
    if Trim(st.current) != [] then
      Buffer(st.chunks + [RawChunk(Trim(st.current), st.chunkIndex)], st.current, st.chunkIndex + 1)
    else st
  }

  /** One iteration of the `for` loop over the lines. */
  function Feed(st: Buffer, line: string, chunkSize: int, overlap: int): Buffer {
    if |st.current| + |line| < chunkSize then st.(current := st.current + line + "\n")
    else Flush(st).(current := Overlap(st.current, overlap) + "\n" + line + "\n")
  }

  /** The loop state after the given lines. */
  function FeedAll(lines: seq<string>, chunkSize: int, overlap: int): Buffer {
    if lines == [] then Start
    else Feed(FeedAll(lines[..|lines| - 1], chunkSize, overlap), lines[|lines| - 1], chunkSize, overlap)
  }

  /** What `createChunks(text, chunkSize, overlap)` returns. */
  function ChunksOf(text: string, chunkSize: int, overlap: int): seq<RawChunk> {
    Flush(FeedAll(Split(text, '\n'), chunkSize, overlap)).chunks
  }

  /** `createChunks(text, chunkSize = 1000, overlap = 200)`. */
  method CreateChunks(text: string, chunkSize: int, overlap: int) returns (chunks: seq<RawChunk>)
    ensures chunks == ChunksOf(text, chunkSize, overlap)
  {
    chunks := [];
    var lines := Split(text, '\n');
    var currentChunk := "";
    var chunkIndex := 0;
    for i := 0 to |lines|
      invariant Buffer(chunks, currentChunk, chunkIndex) == FeedAll(lines[..i], chunkSize, overlap)
    {
      var line := lines[i];
      TakeSnoc(lines, i);
      PrefixOfSnoc(lines[..i], line);
      if |currentChunk| + |line| < chunkSize {
        currentChunk := currentChunk + line + "\n";
      } else {
        if Trim(currentChunk) != [] {
          chunks := chunks + [RawChunk(Trim(currentChunk), chunkIndex)];
          chunkIndex := chunkIndex + 1;
        }
        var overlapLines := DropFront(Split(currentChunk, '\n'), -(overlap / 50));
        currentChunk := Join(overlapLines, "\n") + "\n" + line + "\n";
      }
    }
    assert lines[..|lines|] == lines;
    if Trim(currentChunk) != [] {
      chunks := chunks + [RawChunk(Trim(currentChunk), chunkIndex)];
    }
  }

  // ---------------------------------------------------------------------
  // One step

  /** `trim()` is idempotent. */
  lemma TrimTwice(s: string)
    ensures Trim(Trim(s)) == Trim(s)
  {
    var r := Trim(s);
    if r != [] {
      TrimFrame("", r, "");
      assert "" + r + "" == r;
    }
  }

  /** `join` of a tail of the pieces is a suffix of the joined whole. */
  lemma {:induction false} JoinOfTail(ps: seq<string>, m: nat, sep: string)
    requires m <= |ps|
    ensures exists j :: 0 <= j <= |Join(ps, sep)| && Join(ps[m..], sep) == Join(ps, sep)[j..]
    decreases m
  {
    var whole := Join(ps, sep);
    if m == 0 {
      assert ps[0..] == ps && whole[0..] == whole;
    } else if |ps| == 1 {
      assert ps[m..] == [] && whole[|whole|..] == [];
    } else {
      var tail := ps[1..];
      JoinOfTail(tail, m - 1, sep);
      var j :| 0 <= j <= |Join(tail, sep)| && Join(tail[m - 1..], sep) == Join(tail, sep)[j..];
      assert tail[m - 1..] == ps[m..];
      var pre := |ps[0] + sep|;
      assert whole == ps[0] + sep + Join(tail, sep);
      assert whole[pre + j..] == Join(tail, sep)[j..];
    }
  }

  /** What is kept of the old buffer is one of its suffixes; under 50 it is all of it. */
  lemma OverlapIsSuffix(current: string, overlap: int)
    ensures exists j :: 0 <= j <= |current| && Overlap(current, overlap) == current[j..]
    ensures 0 <= overlap < 50 ==> Overlap(current, overlap) == current
  {
    var ps := Split(current, '\n');
    var kept := DropFront(ps, -(overlap / 50));
    JoinSplit(current, '\n');
    JoinOfTail(ps, |ps| - |kept|, "\n");
    assert ps[|ps| - |kept|..] == kept;
    if 0 <= overlap < 50 {
      assert kept == ps;
    }
  }

  /**
   * A line joins the buffer, with nothing emitted, exactly when the buffer
   * and the line together stay under `chunkSize`. Otherwise the old buffer
   * is emitted trimmed (unless it is blank) and the new buffer is a suffix of
   * the old one (all of it when `overlap < 50`), a newline and the line.
   */
  lemma FeedMeaning(st: Buffer, line: string, chunkSize: int, overlap: int)
    ensures var st' := Feed(st, line, chunkSize, overlap);
      && (|st.current| + |line| < chunkSize ==> st'.chunks == st.chunks && st'.current == st.current + line + "\n")
      && (|st.current| + |line| >= chunkSize ==>
            && st'.chunks == (if Trim(st.current) != [] then st.chunks + [RawChunk(Trim(st.current), st.chunkIndex)] else st.chunks)
            && (exists j :: 0 <= j <= |st.current| && st'.current == st.current[j..] + "\n" + line + "\n")
            && (0 <= overlap < 50 ==> st'.current == st.current + "\n" + line + "\n"))
  {
    OverlapIsSuffix(st.current, overlap);
  }

  // ---------------------------------------------------------------------
  // Indices and contents

  /** Chunks numbered 0, 1, ... in order, each trimmed and non-empty; the counter is the next number. */
  ghost predicate Numbered(st: Buffer) {
    && st.chunkIndex == |st.chunks|
    && forall k :: 0 <= k < |st.chunks| ==>
         st.chunks[k].index == k && st.chunks[k].content != [] && Trim(st.chunks[k].content) == st.chunks[k].content
  }

  lemma FlushNumbered(st: Buffer)
    requires Numbered(st)
    ensures Numbered(Flush(st))
  {
    TrimTwice(st.current);
  }

  lemma {:induction false} FeedAllNumbered(lines: seq<string>, chunkSize: int, overlap: int)
    ensures Numbered(FeedAll(lines, chunkSize, overlap))
    decreases |lines|
  {
    if lines != [] {
      FeedAllNumbered(lines[..|lines| - 1], chunkSize, overlap);
      FlushNumbered(FeedAll(lines[..|lines| - 1], chunkSize, overlap));
    }
  }

  // ---------------------------------------------------------------------
  // Every non-blank line ends up in some chunk

  ghost predicate InSomeChunk(chunks: seq<RawChunk>, p: string) {
    exists k :: 0 <= k < |chunks| && Contains(chunks[k].content, p)
  }

  /** A processed line is in an emitted chunk already, or still in the buffer. */
  ghost predicate Covered(st: Buffer, l: string) {
    InSomeChunk(st.chunks, Trim(l)) || Contains(st.current, l)
  }

  ghost predicate AllCovered(st: Buffer, lines: seq<string>) {
    forall j :: 0 <= j < |lines| && Trim(lines[j]) != [] ==> Covered(st, lines[j])
  }

  lemma InSomeChunkSnoc(chunks: seq<RawChunk>, c: RawChunk, p: string)
    requires InSomeChunk(chunks, p)
    ensures InSomeChunk(chunks + [c], p)
  {
    var k :| 0 <= k < |chunks| && Contains(chunks[k].content, p);
    assert (chunks + [c])[k] == chunks[k];
  }

  lemma ContainsPrefix(s: string, p: string, post: string)
    requires Contains(s, p)
    ensures Contains(s + post, p)
  {
    ContainsInConcat(s, p, "", post);
    assert "" + s + post == s + post;
  }

  lemma ContainsLine(head: string, line: string)
    ensures Contains(head + line + "\n", line)
  {
    ContainsSelf(line);
    ContainsInConcat(line, line, head, "\n");
  }

  /** A flush moves every line held in the buffer into the emitted chunk. */
  lemma FlushCovers(st: Buffer, l: string)
    requires Trim(l) != [] && Covered(st, l)
    ensures InSomeChunk(Flush(st).chunks, Trim(l))
  {
    if InSomeChunk(st.chunks, Trim(l)) {
      if Trim(st.current) != [] {
        InSomeChunkSnoc(st.chunks, RawChunk(Trim(st.current), st.chunkIndex), Trim(l));
      }
    } else {
      TrimContains(st.current, l);
      var chunks' := Flush(st).chunks;
      assert chunks'[|chunks'| - 1].content == Trim(st.current);
    }
  }

  lemma FeedCovers(st: Buffer, lines: seq<string>, line: string, chunkSize: int, overlap: int)
    requires AllCovered(st, lines)
    ensures AllCovered(Feed(st, line, chunkSize, overlap), lines + [line])
  {
    var st' := Feed(st, line, chunkSize, overlap);
    if |st.current| + |line| < chunkSize {
      AppendCovers(st, lines, line);
    } else {
      FlushStepCovers(st, lines, Overlap(st.current, overlap) + "\n", line);
    }
    ExtendCovered(st', lines, line);
  }

  lemma ExtendCovered(st: Buffer, lines: seq<string>, line: string)
    requires AllCovered(st, lines) && Contains(st.current, line)
    ensures AllCovered(st, lines + [line])
  {
    var all := lines + [line];
    assert forall j :: 0 <= j < |lines| ==> all[j] == lines[j];
    assert all[|lines|] == line;
  }

  /** Appending a line keeps what the buffer held and adds the line. */
  lemma AppendCovers(st: Buffer, lines: seq<string>, line: string)
    requires AllCovered(st, lines)
    ensures var st' := st.(current := st.current + line + "\n");
      AllCovered(st', lines) && Contains(st'.current, line)
  {
    var st' := st.(current := st.current + line + "\n");
    ContainsLine(st.current, line);
    forall j | 0 <= j < |lines| && Trim(lines[j]) != [] ensures Covered(st', lines[j]) {
      if Contains(st.current, lines[j]) {
        ContainsPrefix(st.current, lines[j], line + "\n");
        assert st.current + (line + "\n") == st'.current;
      }
    }
  }

  /** Flushing emits what the buffer held; the new buffer holds the line. */
  lemma FlushStepCovers(st: Buffer, lines: seq<string>, head: string, line: string)
    requires AllCovered(st, lines)
    ensures var st' := Flush(st).(current := head + line + "\n");
      AllCovered(st', lines) && Contains(st'.current, line)
  {
    ContainsLine(head, line);
    forall j | 0 <= j < |lines| && Trim(lines[j]) != [] ensures InSomeChunk(Flush(st).chunks, Trim(lines[j])) {
      FlushCovers(st, lines[j]);
    }
  }

  lemma {:induction false} FeedAllCovers(lines: seq<string>, chunkSize: int, overlap: int)
    ensures AllCovered(FeedAll(lines, chunkSize, overlap), lines)
    decreases |lines|
  {
    if lines != [] {
      var init := lines[..|lines| - 1];
      FeedAllCovers(init, chunkSize, overlap);
      FeedCovers(FeedAll(init, chunkSize, overlap), init, lines[|lines| - 1], chunkSize, overlap);
      assert init + [lines[|lines| - 1]] == lines;
    }
  }

  // ---------------------------------------------------------------------
  // Blank text

  lemma OverlapOfBlank(current: string, overlap: int)
    requires AllSpace(current)
    ensures AllSpace(Overlap(current, overlap))
  {
    var ps := Split(current, '\n');
    forall k | 0 <= k < |ps| ensures AllSpace(ps[k]) {
      BlankPart(current, ps[k]);
    }
    var kept := DropFront(ps, -(overlap / 50));
    forall k | 0 <= k < |kept| ensures AllSpace(kept[k]) {
      assert kept[k] == ps[|ps| - |kept| + k];
    }
    JoinAllSpace(kept, "\n");
  }

  /** A string drawn from the characters of a blank string is blank. */
  lemma BlankPart(s: string, part: string)
    requires AllSpace(s) && forall i :: 0 <= i < |part| ==> part[i] in s
    ensures AllSpace(part)
  {
    forall i | 0 <= i < |part| ensures IsSpace(part[i]) {
      var j :| 0 <= j < |s| && s[j] == part[i];
    }
  }

  lemma BlankConcat(a: string, b: string)
    requires AllSpace(a) && AllSpace(b)
    ensures AllSpace(a + b)
  {
    assert forall i :: |a| <= i < |a + b| ==> (a + b)[i] == b[i - |a|];
  }

  lemma FeedBlank(st: Buffer, line: string, chunkSize: int, overlap: int)
    requires st.chunks == [] && AllSpace(st.current) && AllSpace(line)
    ensures Feed(st, line, chunkSize, overlap).chunks == [] && AllSpace(Feed(st, line, chunkSize, overlap).current)
  {
    var r := Feed(st, line, chunkSize, overlap);
    var head := if |st.current| + |line| < chunkSize then st.current else Overlap(st.current, overlap) + "\n";
    if |st.current| + |line| >= chunkSize {
      var o := Overlap(st.current, overlap);
      OverlapOfBlank(st.current, overlap);
      BlankConcat(o, "\n");
      FlushBlank(st);
      assert r == st.(current := head + line + "\n");
    } else {
      assert r == st.(current := head + line + "\n");
    }
    BlankConcat(head, line);
    BlankConcat(head + line, "\n");
  }

  /** Flushing a blank buffer emits nothing. */
  lemma FlushBlank(st: Buffer)
    requires AllSpace(st.current)
    ensures Flush(st) == st
  {
    assert Trim(st.current) == [];
  }

  /** While only blank lines are fed, nothing is emitted and the buffer stays blank. */
  lemma {:induction false} FeedAllBlank(lines: seq<string>, chunkSize: int, overlap: int)
    requires forall j :: 0 <= j < |lines| ==> AllSpace(lines[j])
    ensures FeedAll(lines, chunkSize, overlap).chunks == [] && AllSpace(FeedAll(lines, chunkSize, overlap).current)
    decreases |lines|
  {
    if lines != [] {
      var init := lines[..|lines| - 1];
      assert forall j :: 0 <= j < |init| ==> init[j] == lines[j];
      FeedAllBlank(init, chunkSize, overlap);
      FeedBlank(FeedAll(init, chunkSize, overlap), lines[|lines| - 1], chunkSize, overlap);
    }
  }

  /** A character other than the separator lies in some piece of the split. */
  lemma {:induction false} SplitHolds(s: string, sep: char, i: nat) returns (k: nat, m: nat)
    requires i < |s| && s[i] != sep
    ensures k < |Split(s, sep)| && m < |Split(s, sep)[k]| && Split(s, sep)[k][m] == s[i]
    decreases |s|
  {
    var n := IndexOf(s, sep);
    if i < n {
      SplitHeadAt(s, sep, i);
      k, m := 0, i;
    } else {
      assert i != n;
      var rest := s[n + 1..];
      assert rest[i - n - 1] == s[i];
      var k', m' := SplitHolds(rest, sep, i - n - 1);
      SplitTailAt(s, sep, rest, k', m');
      k, m := k' + 1, m';
    }
  }

  /** A character before the first separator lies in the first piece, at its own position. */
  lemma SplitHeadAt(s: string, sep: char, i: nat)
    requires i < IndexOf(s, sep)
    ensures i < |Split(s, sep)[0]| && Split(s, sep)[0][i] == s[i]
  {
    SplitHead(s, sep);
  }

  /** Piece `k` of the split after the first separator is piece `k + 1` of the whole split. */
  lemma SplitTailAt(s: string, sep: char, rest: string, k: nat, m: nat)
    requires IndexOf(s, sep) < |s| && rest == s[IndexOf(s, sep) + 1..]
    requires k < |Split(rest, sep)| && m < |Split(rest, sep)[k]|
    ensures k + 1 < |Split(s, sep)| && m < |Split(s, sep)[k + 1]| && Split(s, sep)[k + 1][m] == Split(rest, sep)[k][m]
  {
    SplitTail(s, sep);
  }

  /** The first piece of a split runs up to the first separator. */
  lemma SplitHead(s: string, sep: char)
    ensures Split(s, sep)[0] == s[..IndexOf(s, sep)]
  {
    if IndexOf(s, sep) == |s| {
      assert s[..|s|] == s;
    }
  }

  /** After the first separator the split goes on with the rest. */
  lemma SplitTail(s: string, sep: char)
    requires IndexOf(s, sep) < |s|
    ensures Split(s, sep) == [s[..IndexOf(s, sep)]] + Split(s[IndexOf(s, sep) + 1..], sep)
  {
  }

  // ---------------------------------------------------------------------
  // The whole function

  /**
   * The chunks are numbered 0, 1, ... in order, each is trimmed and
   * non-empty, every non-blank line's trimmed text occurs in some chunk, and
   * there are no chunks exactly when the text is blank.
   */
  lemma ChunksOfMeaning(text: string, chunkSize: int, overlap: int)
    ensures var r := ChunksOf(text, chunkSize, overlap);
      && (forall k :: 0 <= k < |r| ==> r[k].index == k && r[k].content != [] && Trim(r[k].content) == r[k].content)
      && (forall l :: l in Split(text, '\n') && Trim(l) != [] ==> InSomeChunk(r, Trim(l)))
      && (r == [] <==> AllSpace(text))
  {
    var lines := Split(text, '\n');
    var st := FeedAll(lines, chunkSize, overlap);
    var r := ChunksOf(text, chunkSize, overlap);
    FeedAllNumbered(lines, chunkSize, overlap);
    FlushNumbered(st);
    FeedAllCovers(lines, chunkSize, overlap);
    forall l | l in Split(text, '\n') && Trim(l) != [] ensures InSomeChunk(r, Trim(l)) {
      var j :| 0 <= j < |lines| && lines[j] == l;
      FlushCovers(st, l);
    }
    if AllSpace(text) {
      forall j | 0 <= j < |lines| ensures AllSpace(lines[j]) {
        forall m | 0 <= m < |lines[j]| ensures IsSpace(lines[j][m]) {
          assert lines[j][m] in text;
        }
      }
      FeedAllBlank(lines, chunkSize, overlap);
    } else {
      var i :| 0 <= i < |text| && !IsSpace(text[i]);
      var k, m := SplitHolds(text, '\n', i);
      assert !AllSpace(lines[k]);
      assert lines[k] in lines;
    }
  }
}
