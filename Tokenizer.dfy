/**
 * The tokenizer shared by the index and the query side (src/chunkSearch.ts
 * and api/lib/chunkSearch.ts hold the same two functions): strip invisible
 * characters, lower-case, turn every run of non-letter/digit characters into
 * one space, split on whitespace and drop tokens of length at most one.
 */
module Tokenizer {
  import opened Text

  /** `cleanForIndex`: drop private-use and zero-width characters, then lower-case. */
  function CleanForIndex(text: string): string {
    Lower(RemoveWhere(RemoveWhere(text, IsPrivateUse), IsZeroWidth))
  }

  /** The cleaned text holds no invisible and no upper-case character. */
  lemma CleanedChars(text: string)
    ensures forall i :: 0 <= i < |CleanForIndex(text)| ==>
      !IsInvisible(CleanForIndex(text)[i]) && IsLower(CleanForIndex(text)[i])
  {
    var noPrivate := RemoveWhere(text, IsPrivateUse);
    var noZeroWidth := RemoveWhere(noPrivate, IsZeroWidth);
    RemoveWhereChars(text, IsPrivateUse);
    RemoveWhereChars(noPrivate, IsZeroWidth);
    forall i | 0 <= i < |noZeroWidth| ensures !IsPrivateUse(noZeroWidth[i]) {
      assert noZeroWidth[i] in noPrivate;
    }
  }

  /** The length of the run of non-word characters that starts `s`. */
  function NonWordRun(s: string): (n: nat)
    ensures n <= |s|
    ensures n < |s| ==> IsWordChar(s[n])
  {
    if s != [] && !IsWordChar(s[0]) then 1 + NonWordRun(s[1..]) else 0
  }

  /** The text after a run of non-word characters. */
  function DropNonWord(s: string): (r: string)
    ensures |r| <= |s| && r == s[|s| - |r|..]
    ensures r == [] || IsWordChar(r[0])
  {
    s[NonWordRun(s)..]
  }

  /** Every maximal run of characters that are neither letters nor digits becomes one space. */
  function CollapseNonWord(s: string): string
    decreases |s|
  {
    if s == [] then []
    else if IsWordChar(s[0]) then [s[0]] + CollapseNonWord(s[1..])
    else [' '] + CollapseNonWord(DropNonWord(s[1..]))
  }

  /** The collapse keeps word characters of the input and adds only spaces. */
  lemma {:induction false} CollapseNonWordChars(s: string)
    ensures forall i :: 0 <= i < |CollapseNonWord(s)| ==>
      CollapseNonWord(s)[i] == ' ' || (IsWordChar(CollapseNonWord(s)[i]) && CollapseNonWord(s)[i] in s)
    decreases |s|
  {
    if s != [] {
      var r := CollapseNonWord(s);
      if IsWordChar(s[0]) {
        CollapseNonWordChars(s[1..]);
        assert forall i :: 1 <= i < |r| ==> r[i] == CollapseNonWord(s[1..])[i - 1];
      } else {
        var rest := DropNonWord(s[1..]);
        assert forall c :: c in rest ==> c in s;
        CollapseNonWordChars(rest);
        assert forall i :: 1 <= i < |r| ==> r[i] == CollapseNonWord(rest)[i - 1];
      }
    }
  }

  /** The words longer than one character, in their order. */
  function LongOnly(ws: seq<string>): (r: seq<string>)
    ensures |r| <= |ws|
    ensures forall k :: 0 <= k < |r| ==> |r[k]| > 1 && r[k] in ws
    ensures (forall k :: 0 <= k < |ws| ==> |ws[k]| > 1) ==> r == ws
  {
    if ws == [] then []
    else if |ws[0]| > 1 then [ws[0]] + LongOnly(ws[1..])
    else LongOnly(ws[1..])
  }

  /** A term the tokenizer can produce: two or more lower-case, visible letters or digits. */
  ghost predicate IsTerm(t: string) {
    |t| >= 2 && forall c :: c in t ==> IsWordChar(c) && IsLower(c) && !IsInvisible(c)
  }

  /** `tokenize(text)`. */
  function Tokenize(text: string): seq<string> {
    LongOnly(SplitWs(CollapseNonWord(CleanForIndex(text))))
  }

  /** Every token has two or more characters, all lower-case visible letters or digits. */
  lemma TokensAreTerms(text: string)
    ensures forall k :: 0 <= k < |Tokenize(text)| ==> IsTerm(Tokenize(text)[k])
  {
    var cleaned := CleanForIndex(text);
    var normalized := CollapseNonWord(cleaned);
    var r := Tokenize(text);
    CleanedChars(text);
    CollapseNonWordChars(cleaned);
    forall k | 0 <= k < |r| ensures IsTerm(r[k]) {
      var piece := r[k];
      assert forall c :: c in piece ==> !IsSpace(c) && c in normalized;
      forall c | c in piece ensures IsWordChar(c) && IsLower(c) && !IsInvisible(c) {
        assert c != ' ';
      }
    }
  }

  // ---------------------------------------------------------------------
  // Re-tokenizing the space-joined tokens gives the same tokens.

  lemma {:induction false} CleanTermsIsIdentity(s: string)
    requires forall c :: c in s ==> !IsInvisible(c) && IsLower(c)
    ensures CleanForIndex(s) == s
    decreases |s|
  {
    RemoveNothing(s, IsPrivateUse);
    RemoveNothing(s, IsZeroWidth);
    LowerOfLower(s);
  }

  lemma {:induction false} RemoveNothing(s: string, drop: char -> bool)
    requires forall c :: c in s ==> !drop(c)
    ensures RemoveWhere(s, drop) == s
    decreases |s|
  {
    if s != [] {
      RemoveNothing(s[1..], drop);
    }
  }

  lemma LowerOfLower(s: string)
    requires forall c :: c in s ==> IsLower(c)
    ensures Lower(s) == s
  {
    forall i | 0 <= i < |s| ensures Lower(s)[i] == s[i] {
      assert s[i] in s;
    }
  }

  /** Tokens joined by single spaces survive the collapse of non-word runs unchanged. */
  lemma {:induction false} CollapseOfJoinedTerms(ts: seq<string>)
    requires forall k :: 0 <= k < |ts| ==> IsTerm(ts[k])
    ensures CollapseNonWord(Join(ts, " ")) == Join(ts, " ")
    decreases |ts|
  {
    assert forall k, i :: 0 <= k < |ts| && 0 <= i < |ts[k]| ==> IsWordChar(ts[k][i]) by {
      forall k, i | 0 <= k < |ts| && 0 <= i < |ts[k]| ensures IsWordChar(ts[k][i]) {
        assert ts[k][i] in ts[k];
      }
    }
    if |ts| == 1 {
      CollapseWordRun(ts[0], "");
      assert ts[0] + "" == ts[0];
    } else if |ts| > 1 {
      var rest := Join(ts[1..], " ");
      CollapseOfJoinedTerms(ts[1..]);
      JoinStartsWithWord(ts[1..]);
      assert Join(ts, " ") == ts[0] + (" " + rest);
      CollapseWordRun(ts[0], " " + rest);
      assert DropNonWord(rest) == rest;
      assert CollapseNonWord(" " + rest) == [' '] + CollapseNonWord(rest) by {
        assert (" " + rest)[1..] == rest;
      }
    }
  }

  lemma JoinStartsWithWord(ts: seq<string>)
    requires |ts| > 0
    requires forall k :: 0 <= k < |ts| ==> IsTerm(ts[k])
    ensures |Join(ts, " ")| > 0 && IsWordChar(Join(ts, " ")[0])
  {
    assert ts[0][0] in ts[0];
    if |ts| > 1 {
      assert Join(ts, " ") == ts[0] + " " + Join(ts[1..], " ");
    }
  }

  /** A run of word characters is copied by the collapse. */
  lemma {:induction false} CollapseWordRun(w: string, rest: string)
    requires forall i :: 0 <= i < |w| ==> IsWordChar(w[i])
    ensures CollapseNonWord(w + rest) == w + CollapseNonWord(rest)
    decreases |w|
  {
    if w != [] {
      var t := w[1..];
      assert forall i :: 0 <= i < |t| ==> t[i] == w[i + 1];
      CollapseWordRun(t, rest);
      CollapseWordRunStep(w, rest, CollapseNonWord(rest));
    } else {
      assert w + rest == rest;
    }
  }

  /** The step of `CollapseWordRun`: the first word character is copied, then the rest of the run. */
  lemma CollapseWordRunStep(w: string, rest: string, tail: string)
    requires w != [] && IsWordChar(w[0])
    requires CollapseNonWord(w[1..] + rest) == w[1..] + tail
    ensures CollapseNonWord(w + rest) == w + tail
  {
    var t := w[1..];
    ConsAppend(w, rest);
    CollapseWordStep(w[0], t + rest);
    AppendAssoc([w[0]], t, tail);
  }

  /** A non-empty sequence and what follows it, split after the first element. */
  lemma ConsAppend<T>(w: seq<T>, rest: seq<T>)
    requires w != []
    ensures w + rest == [w[0]] + (w[1..] + rest) && w == [w[0]] + w[1..]
  {
  }

  lemma CollapseWordStep(c: char, s: string)
    requires IsWordChar(c)
    ensures CollapseNonWord([c] + s) == [c] + CollapseNonWord(s)
  {
    assert ([c] + s)[1..] == s;
  }

  /** Splitting space-joined terms on whitespace gives the terms back. */
  lemma {:induction false} SplitJoinedTerms(ts: seq<string>)
    requires |ts| > 0
    requires forall k :: 0 <= k < |ts| ==> IsTerm(ts[k])
    ensures SplitWs(Join(ts, " ")) == ts
    decreases |ts|
  {
    var w := ts[0];
    TermHasNoSpace(w);
    if |ts| == 1 {
      SplitWsOfWord(w);
    } else {
      var rest := Join(ts[1..], " ");
      assert Join(ts, " ") == w + " " + rest;
      JoinStartsWithWord(ts[1..]);
      WordCharIsVisible(rest[0]);
      SplitWsStep(w, rest);
      SplitJoinedTerms(ts[1..]);
      assert ts == [w] + ts[1..];
    }
  }

  lemma TermHasNoSpace(w: string)
    requires IsTerm(w)
    ensures forall i :: 0 <= i < |w| ==> !IsSpace(w[i])
  {
    forall i | 0 <= i < |w| ensures !IsSpace(w[i]) {
      assert w[i] in w;
      WordCharIsVisible(w[i]);
    }
  }

  lemma SplitWsOfWord(w: string)
    requires forall i :: 0 <= i < |w| ==> !IsSpace(w[i])
    ensures SplitWs(w) == [w]
  {
    assert FirstSpace(w) == |w|;
  }

  /** A word, one space, then text that starts visibly: the word is the first piece. */
  lemma SplitWsStep(w: string, rest: string)
    requires forall i :: 0 <= i < |w| ==> !IsSpace(w[i])
    requires rest != [] && !IsSpace(rest[0])
    ensures SplitWs(w + " " + rest) == [w] + SplitWs(rest)
  {
    var s := w + " " + rest;
    FirstSpaceAfterWord(w, rest);
    assert s[|w|..] == " " + rest;
    assert (" " + rest)[1..] == rest;
    assert LeadingSpaces(" " + rest) == 1;
    assert s[..|w|] == w;
  }

  lemma FirstSpaceAfterWord(w: string, rest: string)
    requires forall i :: 0 <= i < |w| ==> !IsSpace(w[i])
    ensures FirstSpace(w + " " + rest) == |w|
    decreases |w|
  {
    var s := w + " " + rest;
    assert s[|w|] == ' ';
    assert forall i :: 0 <= i < |w| ==> s[i] == w[i];
  }

  /**
   * Tokenizing is idempotent: tokenizing the tokens joined by spaces gives
   * the same token sequence.
   */
  lemma TokenizeIdempotent(text: string)
    ensures Tokenize(Join(Tokenize(text), " ")) == Tokenize(text)
  {
    var ts := Tokenize(text);
    TokensAreTerms(text);
    var s := Join(ts, " ");
    assert forall c :: c in s ==> c == ' ' || (IsWordChar(c) && IsLower(c) && !IsInvisible(c)) by {
      JoinCharacters(ts);
    }
    CleanTermsIsIdentity(s);
    CollapseOfJoinedTerms(ts);
    assert Tokenize(s) == LongOnly(SplitWs(s));
    if |ts| == 0 {
      assert s == "";
      assert SplitWs("") == [""];
    } else {
      SplitJoinedTerms(ts);
      assert forall k :: 0 <= k < |ts| ==> |ts[k]| > 1;
    }
  }

  lemma {:induction false} JoinCharacters(ts: seq<string>)
    requires forall k :: 0 <= k < |ts| ==> IsTerm(ts[k])
    ensures forall c :: c in Join(ts, " ") ==> c == ' ' || (IsWordChar(c) && IsLower(c) && !IsInvisible(c))
    decreases |ts|
  {
    if |ts| > 1 {
      JoinCharacters(ts[1..]);
      assert Join(ts, " ") == ts[0] + " " + Join(ts[1..], " ");
    }
  }
}
