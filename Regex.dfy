/**
 * The fragment of JavaScript regular expressions the booster and the topic
 * backfill rules use: literals, `\s*`, an optional character `c?` and `.*`,
 * combined into alternations and tested anywhere in a string (`re.test(s)`).
 */
module Regex {
  import opened Text

  datatype Piece =
    | Lit(text: string)  // a literal run of characters
    | Spaces             // \s*
    | Opt(c: char)       // c?
    | AnyOnLine          // .*  (never crosses a line terminator)

  type Pattern = seq<Piece>

  /** The pattern matches a prefix of `s`, with backtracking over `\s*`, `c?` and `.*`. */
  predicate MatchesPrefix(s: string, p: Pattern)
    decreases |s|, |p|
  {
    if p == [] then true
    else match p[0]
      case Lit(t) => StartsWith(s, t) && MatchesPrefix(s[|t|..], p[1..])
      case Spaces => MatchesPrefix(s, p[1..]) || (s != [] && IsSpace(s[0]) && MatchesPrefix(s[1..], p))
      case Opt(c) => MatchesPrefix(s, p[1..]) || (s != [] && s[0] == c && MatchesPrefix(s[1..], p[1..]))
      case AnyOnLine => MatchesPrefix(s, p[1..]) || (s != [] && !IsLineTerminator(s[0]) && MatchesPrefix(s[1..], p))
  }

  /** `re.test(s)` for a single pattern. */
  predicate Found(s: string, p: Pattern)
    decreases |s|
  {
    MatchesPrefix(s, p) || (s != [] && Found(s[1..], p))
  }

  /** `/(a|b|...)/.test(s)`: some alternative is found. */
  predicate AnyFound(s: string, alts: seq<Pattern>) {
    alts != [] && (Found(s, alts[0]) || AnyFound(s, alts[1..]))
  }

  lemma {:induction false} AnyFoundSome(s: string, alts: seq<Pattern>)
    ensures AnyFound(s, alts) <==> exists k :: 0 <= k < |alts| && Found(s, alts[k])
    decreases |alts|
  {
    if alts != [] {
      AnyFoundSome(s, alts[1..]);
      if exists k :: 0 <= k < |alts| && Found(s, alts[k]) {
        var k :| 0 <= k < |alts| && Found(s, alts[k]);
        if k > 0 {
          assert alts[1..][k - 1] == alts[k];
        }
      }
      if exists k :: 0 <= k < |alts[1..]| && Found(s, alts[1..][k]) {
        var k :| 0 <= k < |alts[1..]| && Found(s, alts[1..][k]);
        assert alts[k + 1] == alts[1..][k];
      }
    }
  }

  /** An alternation of plain literals. */
  function Lits(words: seq<string>): (alts: seq<Pattern>)
    ensures |alts| == |words|
    ensures forall k :: 0 <= k < |words| ==> alts[k] == [Lit(words[k])]
  {
    if words == [] then [] else [[Lit(words[0])]] + Lits(words[1..])
  }

  /** A one-literal pattern is found exactly where `includes` holds. */
  lemma {:induction false} FoundLiteral(s: string, t: string)
    ensures Found(s, [Lit(t)]) <==> Contains(s, t)
    decreases |s|
  {
    assert MatchesPrefix(s, [Lit(t)]) <==> StartsWith(s, t) by {
      assert [Lit(t)][1..] == [];
    }
    if s != [] {
      FoundLiteral(s[1..], t);
    }
  }

  /**
   * `(s.match(new RegExp(w, 'g')) || []).length` for a word `w` without
   * metacharacters: the number of leftmost non-overlapping occurrences (the
   * empty pattern matches at each of the |s| + 1 positions).
   */
  function CountOccurrences(s: string, w: string): nat
    decreases |s|
  {
    if w == [] then |s| + 1
    else if |s| < |w| then 0
    else if s[..|w|] == w then 1 + CountOccurrences(s[|w|..], w)
    else CountOccurrences(s[1..], w)
  }

  /** Some occurrence is counted exactly when the word occurs at all. */
  lemma {:induction false} CountPositiveIffContains(s: string, w: string)
    requires w != []
    ensures CountOccurrences(s, w) > 0 <==> Contains(s, w)
    decreases |s|
  {
    if |s| < |w| {
      if Contains(s, w) {
        var i := ContainsWitness(s, w);
        assert false;
      }
    } else if s[..|w|] == w {
      assert StartsWith(s, w);
    } else {
      CountPositiveIffContains(s[1..], w);
      assert !StartsWith(s, w);
    }
  }

  /**
   * A pattern whose first piece is a literal starting with an upper-case
   * ASCII letter is never found in lower-cased text.
   */
  lemma {:induction false} UpperLiteralNeverFoundInLower(s: string, p: Pattern)
    requires p != [] && p[0].Lit? && p[0].text != [] && 'A' <= p[0].text[0] <= 'Z'
    ensures !Found(Lower(s), p)
    decreases |s|
  {
    var ls := Lower(s);
    var t := p[0].text;
    assert !IsLower(t[0]);
    assert !StartsWith(ls, t) by {
      if |t| <= |ls| {
        assert ls[..|t|][0] == ls[0];
        assert IsLower(ls[0]);
      }
    }
    if s != [] {
      assert Lower(s)[1..] == Lower(s[1..]);
      UpperLiteralNeverFoundInLower(s[1..], p);
    }
  }
}
