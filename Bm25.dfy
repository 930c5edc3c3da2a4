/**
 * The Okapi BM25 scorer inside `searchChunks` (src/chunkSearch.ts and
 * api/lib/chunkSearch.ts): k1 = 1.2, b = 0.75, the denominator floored at
 * 1e-6, and the per-document scores accumulated in a map over the distinct
 * query tokens. Scores are exact reals; the natural logarithm is a parameter
 * of which only `ln(x) > 0` for `x > 1` is used.
 */
module Bm25 {
  import opened Text
  import opened Tokenizer
  import opened Indexing

  const K1: real := 1.2
  const B: real := 0.75
  const Eps: real := 0.000001

  /** The only property of `Math.log` the scorer relies on. */
  ghost predicate LnPositive(ln: real -> real) {
    forall x :: x > 1.0 ==> ln(x) > 0.0
  }

  /** The distinct tokens of the query, in order of first appearance. */
  function QueryTerms(query: string): seq<string> {
    Dedup(Tokenize(query))
  }

  /** The inverse document frequency of a term found in `df` of `numDocs` documents, with `ln` the natural logarithm. */
  function Idf(ln: real -> real, numDocs: nat, df: nat): real {
    ln(1.0 + ((numDocs - df) as real + 0.5) / (df as real + 0.5))
  }

  /** The length of document `d`, or 0 when there is no such document. */
  function DocLen(ix: Index, d: nat): nat {
    if d < |ix.docLengths| then ix.docLengths[d] else 0
  }

  /** The BM25 denominator: the term frequency plus `k1` scaled by the document length relative to the average (at least 1). */
  function Denom(ix: Index, tf: nat, dl: nat): real {
    tf as real + K1 * (1.0 - B + B * (dl as real / RealMax(1.0, ix.avgDocLen)))
  }

  /** The BM25 weight of one term in one document; the denominator is kept at least one millionth. */
  function Weight(idf: real, tf: nat, denom: real): real {
    idf * ((tf as real * (K1 + 1.0)) / RealMax(Eps, denom))
  }

  /** What query term `t` adds to document `d`'s score: zero when `d` is not in its posting list. */
  function TermScore(ix: Index, ln: real -> real, t: string, d: nat): real {
    if t in ix.postings && d in ix.postings[t] then
      var plist := ix.postings[t];
      Weight(Idf(ln, ix.numDocs, |plist|), plist[d], Denom(ix, plist[d], DocLen(ix, d)))
    else 0.0
  }

  /** The BM25 score of document `d` for the query terms `terms`. */
  function Score(ix: Index, ln: real -> real, terms: seq<string>, d: nat): real {
    if terms == [] then 0.0
    else Score(ix, ln, terms[..|terms| - 1], d) + TermScore(ix, ln, terms[|terms| - 1], d)
  }

  /** The documents in the posting list of some query term. */
  function Touched(ix: Index, terms: seq<string>): set<nat> {
    if terms == [] then {}
    else Touched(ix, terms[..|terms| - 1]) + PostingList(ix.postings, terms[|terms| - 1]).Keys
  }

  /** The accumulated score of document `d`, 0 when it has none. */
  function ScoreOf(scores: map<nat, real>, d: nat): real {
    if d in scores then scores[d] else 0.0
  }

  // ---------------------------------------------------------------------
  // The accumulation

  /** The score map after term `t` has been added for the documents `ks` of its posting list. */
  ghost function Bump(scores: map<nat, real>, ix: Index, ln: real -> real, t: string, ks: set<nat>): map<nat, real> {
    map d | d in scores.Keys + ks :: ScoreOf(scores, d) + (if d in ks then TermScore(ix, ln, t, d) else 0.0)
  }

  /** The score map after the terms `terms`, one posting list at a time. */
  ghost function Accumulated(ix: Index, ln: real -> real, terms: seq<string>): map<nat, real> {
    if terms == [] then map[]
    else
      var t := terms[|terms| - 1];
      Bump(Accumulated(ix, ln, terms[..|terms| - 1]), ix, ln, t, PostingList(ix.postings, t).Keys)
  }

  lemma BumpNothing(scores: map<nat, real>, ix: Index, ln: real -> real, t: string)
    ensures Bump(scores, ix, ln, t, {}) == scores
  {
  }

  lemma BumpStep(scores: map<nat, real>, ix: Index, ln: real -> real, t: string, done: set<nat>, d: nat,
                 current: map<nat, real>, score: real)
    requires d !in done && current == Bump(scores, ix, ln, t, done) && score == TermScore(ix, ln, t, d)
    ensures current[d := ScoreOf(current, d) + score] == Bump(scores, ix, ln, t, done + {d})
  {
  }

  /** One `plist.forEach`: add term `t`'s contribution to every document of its posting list. */
  method AddTerm(scores: map<nat, real>, ix: Index, ln: real -> real, t: string) returns (scores': map<nat, real>)
    ensures scores' == Bump(scores, ix, ln, t, PostingList(ix.postings, t).Keys)
  {
    scores' := scores;
    BumpNothing(scores, ix, ln, t);
    var plist := PostingList(ix.postings, t);
    var pending := plist.Keys;
    assert plist.Keys - pending == {};
    if pending != {} {
      var idf := Idf(ln, ix.numDocs, |plist|);
      while pending != {}
        invariant pending <= plist.Keys
        invariant scores' == Bump(scores, ix, ln, t, plist.Keys - pending)
        decreases pending
      {
        var d :| d in pending;
        var tf := plist[d];
        var dl := DocLen(ix, d);
        var score := Weight(idf, tf, Denom(ix, tf, dl));
        BumpStep(scores, ix, ln, t, plist.Keys - pending, d, scores', score);
        scores' := scores'[d := ScoreOf(scores', d) + score];
        assert plist.Keys - pending + {d} == plist.Keys - (pending - {d});
        pending := pending - {d};
      }
    }
    assert plist.Keys - pending == plist.Keys;
  }

  /**
   * The BM25 loop of `searchChunks`: the documents with a score are those in
   * some query term's posting list, and each holds its BM25 score.
   */
  method ScoreQuery(ix: Index, ln: real -> real, terms: seq<string>) returns (scores: map<nat, real>)
    ensures scores.Keys == Touched(ix, terms)
    ensures forall d :: ScoreOf(scores, d) == Score(ix, ln, terms, d)
  {
    scores := map[];
    for i := 0 to |terms|
      invariant scores == Accumulated(ix, ln, terms[..i])
    {
      scores := AddTerm(scores, ix, ln, terms[i]);
      assert terms[..i + 1][..i] == terms[..i];
    }
    assert terms[..|terms|] == terms;
    AccumulatedMeaning(ix, ln, terms);
  }

  /** The accumulated map is keyed by the touched documents and holds their scores. */
  lemma {:induction false} AccumulatedMeaning(ix: Index, ln: real -> real, terms: seq<string>)
    ensures Accumulated(ix, ln, terms).Keys == Touched(ix, terms)
    ensures forall d :: ScoreOf(Accumulated(ix, ln, terms), d) == Score(ix, ln, terms, d)
    decreases |terms|
  {
    if terms != [] {
      var init := terms[..|terms| - 1];
      var t := terms[|terms| - 1];
      AccumulatedMeaning(ix, ln, init);
      var prev := Accumulated(ix, ln, init);
      forall d ensures ScoreOf(Accumulated(ix, ln, terms), d) == Score(ix, ln, terms, d) {
        if d !in PostingList(ix.postings, t).Keys {
          assert TermScore(ix, ln, t, d) == 0.0;
        }
      }
    }
  }

  // ---------------------------------------------------------------------
  // Properties of the score

  /** A document in no query term's posting list scores 0. */
  lemma {:induction false} UntouchedScoresZero(ix: Index, ln: real -> real, terms: seq<string>, d: nat)
    requires d !in Touched(ix, terms)
    ensures Score(ix, ln, terms, d) == 0.0
    decreases |terms|
  {
    if terms != [] {
      UntouchedScoresZero(ix, ln, terms[..|terms| - 1], d);
    }
  }

  /** With `df <= N` the idf is positive. */
  lemma IdfPositive(ln: real -> real, numDocs: nat, df: nat)
    requires LnPositive(ln) && df <= numDocs
    ensures Idf(ln, numDocs, df) > 0.0
  {
    var q := ((numDocs - df) as real + 0.5) / (df as real + 0.5);
    assert q > 0.0;
    assert 1.0 + q > 1.0;
  }

  /** The denominator is at least k1 * (1 - b) = 0.3, so the 1e-6 floor never applies. */
  lemma DenomAboveFloor(ix: Index, tf: nat, dl: nat)
    ensures Denom(ix, tf, dl) >= 0.3
    ensures RealMax(Eps, Denom(ix, tf, dl)) == Denom(ix, tf, dl)
  {
    var m := RealMax(1.0, ix.avgDocLen);
    var r := dl as real / m;
    assert r >= 0.0 by {
      assert m >= 1.0;
    }
  }

  /** A posting with a positive idf contributes a positive amount. */
  lemma WeightPositive(idf: real, tf: nat, ix: Index, dl: nat)
    requires idf > 0.0 && tf > 0
    ensures Weight(idf, tf, Denom(ix, tf, dl)) > 0.0
  {
    DenomAboveFloor(ix, tf, dl);
    var denom := Denom(ix, tf, dl);
    var q := (tf as real * (K1 + 1.0)) / denom;
    assert q > 0.0;
  }

  /** For a fixed document length the contribution does not decrease with the term frequency. */
  lemma WeightMonotone(idf: real, tf1: nat, tf2: nat, ix: Index, dl: nat)
    requires idf >= 0.0 && tf1 <= tf2
    ensures Weight(idf, tf1, Denom(ix, tf1, dl)) <= Weight(idf, tf2, Denom(ix, tf2, dl))
  {
    DenomAboveFloor(ix, tf1, dl);
    DenomAboveFloor(ix, tf2, dl);
    var c := Denom(ix, 0, dl);
    var x1 := tf1 as real;
    var x2 := tf2 as real;
    assert Denom(ix, tf1, dl) == x1 + c;
    assert Denom(ix, tf2, dl) == x2 + c;
    FractionMonotone(x1, x2, c);
    var f1 := (x1 * (K1 + 1.0)) / (x1 + c);
    var f2 := (x2 * (K1 + 1.0)) / (x2 + c);
    assert f1 == (K1 + 1.0) * (x1 / (x1 + c));
    assert f2 == (K1 + 1.0) * (x2 / (x2 + c));
    assert f1 <= f2;
    assert idf * f1 <= idf * f2;
  }

  /** x / (x + c) grows with x for c > 0. */
  lemma FractionMonotone(x1: real, x2: real, c: real)
    requires 0.0 <= x1 <= x2 && c > 0.0
    ensures x1 / (x1 + c) <= x2 / (x2 + c)
  {
    assert x1 * (x2 + c) <= x2 * (x1 + c);
  }

  /** Every term contributes a non-negative amount when each posting list has at most N documents. */
  lemma TermScoreNonNegative(ix: Index, ln: real -> real, t: string, d: nat)
    requires LnPositive(ln)
    requires t in ix.postings ==> |ix.postings[t]| <= ix.numDocs
    ensures TermScore(ix, ln, t, d) >= 0.0
    ensures t in ix.postings && d in ix.postings[t] && ix.postings[t][d] > 0 ==> TermScore(ix, ln, t, d) > 0.0
  {
    if t in ix.postings && d in ix.postings[t] {
      var plist := ix.postings[t];
      IdfPositive(ln, ix.numDocs, |plist|);
      if plist[d] > 0 {
        WeightPositive(Idf(ln, ix.numDocs, |plist|), plist[d], ix, DocLen(ix, d));
      } else {
        assert Weight(Idf(ln, ix.numDocs, |plist|), 0, Denom(ix, 0, DocLen(ix, d))) == 0.0;
      }
    }
  }

  /** On a built index every BM25 score is non-negative. */
  lemma {:induction false} ScoreNonNegative(docs: seq<string>, ix: Index, ln: real -> real, terms: seq<string>, d: nat)
    requires IndexFor(docs, ix) && LnPositive(ln)
    ensures Score(ix, ln, terms, d) >= 0.0
    decreases |terms|
  {
    if terms != [] {
      var t := terms[|terms| - 1];
      ScoreNonNegative(docs, ix, ln, terms[..|terms| - 1], d);
      if t in ix.postings {
        DocumentFrequencyBounds(docs, ix, t);
      }
      TermScoreNonNegative(ix, ln, t, d);
    }
  }

  /**
   * On a built index a document holding some query term scores above 0:
   * its posting has tf > 0 and a positive idf.
   */
  lemma {:induction false} ScorePositiveWhenTouched(docs: seq<string>, ix: Index, ln: real -> real, terms: seq<string>, d: nat)
    requires IndexFor(docs, ix) && LnPositive(ln)
    requires d in Touched(ix, terms)
    ensures Score(ix, ln, terms, d) > 0.0
    decreases |terms|
  {
    var init := terms[..|terms| - 1];
    var t := terms[|terms| - 1];
    ScoreNonNegative(docs, ix, ln, init, d);
    if d in Touched(ix, init) {
      ScorePositiveWhenTouched(docs, ix, ln, init, d);
      if t in ix.postings {
        DocumentFrequencyBounds(docs, ix, t);
      }
      TermScoreNonNegative(ix, ln, t, d);
    } else {
      assert t in ix.postings && d in ix.postings[t];
      DocumentFrequencyBounds(docs, ix, t);
      PostingIffOccurs(docs, ix, t, d);
      TermScoreNonNegative(ix, ln, t, d);
    }
  }

  /** The query terms are the distinct tokens of the query, each once. */
  lemma QueryTermsDistinct(query: string)
    ensures forall i, j :: 0 <= i < j < |QueryTerms(query)| ==> QueryTerms(query)[i] != QueryTerms(query)[j]
    ensures forall t :: t in QueryTerms(query) <==> t in Tokenize(query)
  {
    DedupElements(Tokenize(query));
  }
}
