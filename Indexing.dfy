/**
 * `buildBM25Index` (src/chunkSearch.ts and api/lib/chunkSearch.ts): the
 * postings term -> (document -> term frequency), the token count of every
 * document, their mean and the number of documents.
 */
module Indexing {
  import opened Text
  import opened Tokenizer

  datatype Index = Index(
    postings: map<string, map<nat, nat>>,
    docLengths: seq<nat>,
    avgDocLen: real,
    numDocs: nat)

  /** How often each token occurs in `toks`. */
  ghost function Counts(toks: seq<string>): map<string, nat> {
    map t | t in toks :: multiset(toks)[t]
  }

  /** The token list of every document, in order. */
  function TokenLists(docs: seq<string>): (r: seq<seq<string>>)
    ensures |r| == |docs|
  {
    if docs == [] then [] else TokenLists(docs[..|docs| - 1]) + [Tokenize(docs[|docs| - 1])]
  }

  lemma {:induction false} TokenListsAt(docs: seq<string>, i: nat)
    requires i < |docs|
    ensures TokenLists(docs)[i] == Tokenize(docs[i])
    decreases |docs|
  {
    var init := docs[..|docs| - 1];
    assert TokenLists(docs) == TokenLists(init) + [Tokenize(docs[|docs| - 1])];
    if i < |init| {
      TokenListsAt(init, i);
      assert init[i] == docs[i];
    }
  }

  /** The posting list of `t`, empty when `t` has none. */
  function PostingList(P: map<string, map<nat, nat>>, t: string): map<nat, nat> {
    if t in P then P[t] else map[]
  }

  /** The postings after document `d`, with term frequencies `tf`, has been recorded. */
  ghost function AddColumn(P: map<string, map<nat, nat>>, d: nat, tf: map<string, nat>): map<string, map<nat, nat>> {
    map t | t in P.Keys + tf.Keys :: if t in tf then PostingList(P, t)[d := tf[t]] else P[t]
  }

  /** The postings of the documents whose token lists are `tokss`, one document after the other. */
  ghost function PostingsSpec(tokss: seq<seq<string>>): map<string, map<nat, nat>>
    decreases |tokss|
  {
    if tokss == [] then map[]
    else
      var n := |tokss| - 1;
      AddColumn(PostingsSpec(tokss[..n]), n, Counts(tokss[n]))
  }

  /** The length of every token list. */
  function Lengths(tokss: seq<seq<string>>): (r: seq<nat>)
    ensures |r| == |tokss|
    ensures forall i :: 0 <= i < |tokss| ==> r[i] == |tokss[i]|
  {
    if tokss == [] then [] else Lengths(tokss[..|tokss| - 1]) + [|tokss[|tokss| - 1]|]
  }

  /** `ix` is the index of the documents whose token lists are `tokss`. */
  ghost predicate IndexOver(tokss: seq<seq<string>>, ix: Index) {
    && ix.numDocs == |tokss|
    && ix.docLengths == Lengths(tokss)
    && ix.postings == PostingsSpec(tokss)
    && ix.avgDocLen == Sum(ix.docLengths) as real / Max(1, |tokss|) as real
  }

  /** `ix` is the index `buildBM25Index` returns for the documents `docs`. */
  ghost predicate IndexFor(docs: seq<string>, ix: Index) {
    IndexOver(TokenLists(docs), ix)
  }

  lemma CountsSnoc(s: seq<string>, x: string)
    ensures Counts(s + [x]) == Counts(s)[x := (if x in Counts(s) then Counts(s)[x] else 0) + 1]
  {
    assert multiset(s + [x]) == multiset(s) + multiset{x};
    var a := Counts(s + [x]);
    var b := Counts(s)[x := (if x in Counts(s) then Counts(s)[x] else 0) + 1];
    forall t ensures t in a <==> t in b {
      assert t in s + [x] <==> t in s || t == x;
    }
  }

  /** The term-frequency map of one document: each token adds one to its count. */
  method TermFrequencies(tokens: seq<string>) returns (tf: map<string, nat>)
    ensures tf == Counts(tokens)
  {
    tf := map[];
    for k := 0 to |tokens|
      invariant tf == Counts(tokens[..k])
    {
      var tok := tokens[k];
      var prev := if tok in tf then tf[tok] else 0;
      assert tokens[..k + 1] == tokens[..k] + [tok];
      CountsSnoc(tokens[..k], tok);
      tf := tf[tok := prev + 1];
    }
    assert tokens[..|tokens|] == tokens;
  }

  /** The entries of `tf` at the keys `ks`. */
  ghost function Restrict(tf: map<string, nat>, ks: set<string>): map<string, nat> {
    map t | t in ks && t in tf :: tf[t]
  }

  /** Recording `plist.set(d, count)` for one more term adds that term's entry to the column. */
  lemma AddColumnStep(P: map<string, map<nat, nat>>, d: nat, tf: map<string, nat>, done: set<string>, term: string)
    requires term in tf && term !in done
    ensures var Q := AddColumn(P, d, Restrict(tf, done));
      AddColumn(P, d, Restrict(tf, done + {term})) == Q[term := PostingList(Q, term)[d := tf[term]]]
  {
    var A := Restrict(tf, done);
    var B := Restrict(tf, done + {term});
    assert B == A[term := tf[term]];
    var Q := AddColumn(P, d, A);
    var R := AddColumn(P, d, B);
    assert PostingList(Q, term) == PostingList(P, term);
    assert R.Keys == Q.Keys + {term};
    forall x | x in R.Keys ensures R[x] == Q[term := PostingList(Q, term)[d := tf[term]]][x] {
      if x != term {
        assert x in B <==> x in A;
      }
    }
  }

  /**
   * The body of the `chunks.forEach` callback for document `idx` once its
   * tokens are known: count the terms, then add one posting per distinct term.
   */
  method AddDocument(P: map<string, map<nat, nat>>, idx: nat, tokens: seq<string>)
    returns (P': map<string, map<nat, nat>>)
    ensures P' == AddColumn(P, idx, Counts(tokens))
  {
    var tf := TermFrequencies(tokens);
    P' := P;
    var pending := tf.Keys;
    ghost var done: set<string> := {};
    RestrictNothing(P, idx, tf);
    while pending != {}
      invariant done + pending == tf.Keys && done !! pending
      invariant P' == AddColumn(P, idx, Restrict(tf, done))
      decreases |pending|
    {
      var term :| term in pending;
      AddColumnStep(P, idx, tf, done, term);
      var plist := PostingList(P', term);
      P' := P'[term := plist[idx := tf[term]]];
      done := done + {term};
      pending := pending - {term};
    }
    RestrictAll(tf, done);
  }

  lemma RestrictNothing(P: map<string, map<nat, nat>>, d: nat, tf: map<string, nat>)
    ensures AddColumn(P, d, Restrict(tf, {})) == P
  {
    assert Restrict(tf, {}) == map[];
  }

  lemma RestrictAll(tf: map<string, nat>, ks: set<string>)
    requires ks == tf.Keys
    ensures Restrict(tf, ks) == tf
  {
  }

  /** The sum of the document lengths, before averaging. */
  method Total(a: array<nat>) returns (total: nat)
    ensures total == Sum(a[..])
  {
    total := 0;
    for i := 0 to a.Length
      invariant total == Sum(a[..i])
    {
      assert a[..i + 1][..i] == a[..i];
      total := total + a[i];
    }
    assert a[..a.Length] == a[..];
  }

  /** `buildBM25Index(chunks)` over the chunk contents. */
  method BuildIndex(docs: seq<string>) returns (ix: Index)
    ensures IndexFor(docs, ix)
    ensures docs == [] ==> ix.avgDocLen == 0.0
  {
    var postings: map<string, map<nat, nat>> := map[];
    var docLengths := new nat[|docs|](_ => 0);
    ghost var tokss: seq<seq<string>> := [];
    for idx := 0 to |docs|
      invariant tokss == TokenLists(docs[..idx])
      invariant docLengths[..idx] == Lengths(tokss)
      invariant postings == PostingsSpec(tokss)
    {
      postings, tokss := RecordDocument(docs, idx, docLengths, postings, tokss);
    }
    assert docs[..|docs|] == docs;
    var total := Total(docLengths);
    var numDocs := |docs|;
    ix := Index(postings, docLengths[..], total as real / Max(1, numDocs) as real, numDocs);
  }

  /** The `chunks.forEach` callback for document `idx`: its length, then its postings. */
  method RecordDocument(docs: seq<string>, idx: nat, docLengths: array<nat>,
                        postings: map<string, map<nat, nat>>, ghost tokss: seq<seq<string>>)
    returns (postings': map<string, map<nat, nat>>, ghost tokss': seq<seq<string>>)
    requires idx < |docs| == docLengths.Length
    requires tokss == TokenLists(docs[..idx])
    requires docLengths[..idx] == Lengths(tokss)
    requires postings == PostingsSpec(tokss)
    modifies docLengths
    ensures tokss' == TokenLists(docs[..idx + 1])
    ensures docLengths[..idx + 1] == Lengths(tokss')
    ensures postings' == PostingsSpec(tokss')
  {
    var tokens := Tokenize(docs[idx]);
    IndexStep(docs, idx, tokss, tokens);
    SetLength(docLengths, idx, |tokens|);
    postings' := AddDocument(postings, idx, tokens);
    tokss' := tokss + [tokens];
  }

  /** `docLengths[idx] = n`, seen from the prefix already filled in. */
  method SetLength(docLengths: array<nat>, idx: nat, n: nat)
    requires idx < docLengths.Length
    modifies docLengths
    ensures docLengths[..idx + 1] == old(docLengths[..idx]) + [n]
  {
    docLengths[idx] := n;
    assert docLengths[..idx + 1] == docLengths[..idx] + [docLengths[idx]];
  }

  /** One more document extends both the token lists and the postings. */
  lemma IndexStep(docs: seq<string>, idx: nat, tokss: seq<seq<string>>, tokens: seq<string>)
    requires idx < |docs| && tokss == TokenLists(docs[..idx]) && tokens == Tokenize(docs[idx])
    ensures TokenLists(docs[..idx + 1]) == tokss + [tokens]
    ensures Lengths(tokss + [tokens]) == Lengths(tokss) + [|tokens|]
    ensures PostingsSpec(tokss + [tokens]) == AddColumn(PostingsSpec(tokss), idx, Counts(tokens))
  {
    assert docs[..idx + 1][..idx] == docs[..idx];
    assert (tokss + [tokens])[..idx] == tokss;
  }

  // ---------------------------------------------------------------------
  // What the postings hold.

  /**
   * Term `t` has a posting for document `i` exactly when `t` is one of its
   * tokens; the posting holds the number of occurrences, and no posting
   * list is empty.
   */
  lemma PostingsSpecMeaning(tokss: seq<seq<string>>, t: string, i: nat)
    ensures var P := PostingsSpec(tokss);
      (t in P && i in P[t]) <==> (i < |tokss| && t in tokss[i])
    ensures var P := PostingsSpec(tokss);
      t in P && i in P[t] ==> P[t][i] == multiset(tokss[i])[t]
    ensures var P := PostingsSpec(tokss);
      t in P ==> |P[t]| > 0
  {
    PostingsSpecHas(tokss, t, i);
    PostingsSpecCount(tokss, t, i);
    PostingsSpecNonEmpty(tokss, t);
  }

  lemma {:induction false} PostingsSpecHas(tokss: seq<seq<string>>, t: string, i: nat)
    ensures var P := PostingsSpec(tokss);
      (t in P && i in P[t]) <==> (i < |tokss| && t in tokss[i])
    decreases |tokss|
  {
    if tokss != [] {
      var n := |tokss| - 1;
      var init := tokss[..n];
      PostingsSpecHas(init, t, i);
      assert i < n ==> init[i] == tokss[i];
      var P0 := PostingsSpec(init);
      var tf := Counts(tokss[n]);
      var P := PostingsSpec(tokss);
      assert P == AddColumn(P0, n, tf);
      if t in tf {
        assert t in tokss[n];
      }
    }
  }

  lemma {:induction false} PostingsSpecCount(tokss: seq<seq<string>>, t: string, i: nat)
    ensures var P := PostingsSpec(tokss);
      t in P && i in P[t] ==> i < |tokss| && P[t][i] == multiset(tokss[i])[t]
    decreases |tokss|
  {
    if tokss != [] {
      var n := |tokss| - 1;
      var init := tokss[..n];
      PostingsSpecCount(init, t, i);
      PostingsSpecHas(init, t, n);
      var P0 := PostingsSpec(init);
      var tf := Counts(tokss[n]);
      var P := PostingsSpec(tokss);
      assert P == AddColumn(P0, n, tf);
      if i < n {
        assert init[i] == tokss[i];
      } else if t in P && i in P[t] && i == n {
        assert t in tf && tf[t] == multiset(tokss[n])[t];
      }
    }
  }

  lemma {:induction false} PostingsSpecNonEmpty(tokss: seq<seq<string>>, t: string)
    ensures var P := PostingsSpec(tokss);
      t in P ==> |P[t]| > 0
    decreases |tokss|
  {
    if tokss != [] {
      var n := |tokss| - 1;
      var init := tokss[..n];
      PostingsSpecNonEmpty(init, t);
      var P0 := PostingsSpec(init);
      var tf := Counts(tokss[n]);
      var P := PostingsSpec(tokss);
      assert P == AddColumn(P0, n, tf);
      if t in tf {
        assert n in P[t];
      }
    }
  }

  // ---------------------------------------------------------------------
  // The postings of a document add up to its length.

  ghost function Pick(s: set<string>): string
    requires s != {}
  {
    var x :| x in s; x
  }

  /** The sum of the values of `m` at the keys `ks`. */
  ghost function SumOver(m: map<string, nat>, ks: set<string>): nat
    requires ks <= m.Keys
    decreases ks
  {
    if ks == {} then 0
    else
      var k := Pick(ks);
      m[k] + SumOver(m, ks - {k})
  }

  /** The sum of the values of a finite map. */
  ghost function MapSum(m: map<string, nat>): nat {
    SumOver(m, m.Keys)
  }

  lemma {:induction false} SumOverRemove(m: map<string, nat>, ks: set<string>, k: string)
    requires ks <= m.Keys && k in ks
    ensures SumOver(m, ks) == m[k] + SumOver(m, ks - {k})
    decreases ks
  {
    var j := Pick(ks);
    if j != k {
      SumOverRemove(m, ks - {j}, k);
      SumOverRemove(m, ks - {k}, j);
      assert ks - {j} - {k} == ks - {k} - {j};
    }
  }

  lemma {:induction false} SumOverAgree(m1: map<string, nat>, m2: map<string, nat>, ks: set<string>)
    requires ks <= m1.Keys && ks <= m2.Keys
    requires forall k :: k in ks ==> m1[k] == m2[k]
    ensures SumOver(m1, ks) == SumOver(m2, ks)
    decreases ks
  {
    if ks != {} {
      SumOverAgree(m1, m2, ks - {Pick(ks)});
    }
  }

  /** The occurrence counts of a token sequence add up to its length. */
  lemma {:induction false} CountsSum(toks: seq<string>)
    ensures MapSum(Counts(toks)) == |toks|
    decreases |toks|
  {
    if toks != [] {
      var s := toks[..|toks| - 1];
      var x := toks[|toks| - 1];
      assert toks == s + [x];
      CountsSum(s);
      var c := Counts(s);
      CountsSnoc(s, x);
      var c' := Counts(toks);
      SumOverRemove(c', c'.Keys, x);
      SumOverAgree(c', c, c'.Keys - {x});
      if x in c {
        SumOverRemove(c, c.Keys, x);
        assert c'.Keys - {x} == c.Keys - {x};
      } else {
        assert c'.Keys - {x} == c.Keys;
      }
    }
  }

  /** Document `i`'s column of the postings: term -> tf. */
  ghost function Column(P: map<string, map<nat, nat>>, i: nat): map<string, nat> {
    map t | t in P && i in P[t] :: P[t][i]
  }

  /** Document `i`'s column of the postings is exactly its term-frequency map. */
  lemma ColumnIsCounts(tokss: seq<seq<string>>, i: nat)
    requires i < |tokss|
    ensures Column(PostingsSpec(tokss), i) == Counts(tokss[i])
  {
    var col := Column(PostingsSpec(tokss), i);
    var cnt := Counts(tokss[i]);
    forall t ensures t in col <==> t in cnt {
      PostingsSpecMeaning(tokss, t, i);
    }
    forall t | t in col ensures col[t] == cnt[t] {
      PostingsSpecMeaning(tokss, t, i);
    }
  }

  /** Summed over all terms, the postings of document `i` equal `docLengths[i]`, its token count. */
  lemma PostingsSumToLength(docs: seq<string>, ix: Index, i: nat)
    requires IndexFor(docs, ix) && i < |docs|
    ensures MapSum(Column(ix.postings, i)) == ix.docLengths[i] == |Tokenize(docs[i])|
  {
    ColumnIsCounts(TokenLists(docs), i);
    TokenListsAt(docs, i);
    CountsSum(Tokenize(docs[i]));
  }

  /**
   * A posting for term `t` and document `i` exists exactly when `t` is a
   * token of document `i`, and then holds its number of occurrences.
   */
  lemma PostingIffOccurs(docs: seq<string>, ix: Index, t: string, i: nat)
    requires IndexFor(docs, ix)
    ensures (t in ix.postings && i in ix.postings[t]) <==> (i < |docs| && t in Tokenize(docs[i]))
    ensures t in ix.postings && i in ix.postings[t] ==>
      ix.postings[t][i] == multiset(Tokenize(docs[i]))[t] > 0
  {
    PostingsSpecMeaning(TokenLists(docs), t, i);
    if i < |docs| {
      TokenListsAt(docs, i);
    }
  }

  /** The document ids 0 .. n-1. */
  ghost function Range(n: nat): (r: set<nat>)
    ensures forall i :: i in r <==> 0 <= i < n
    ensures |r| == n
  {
    if n == 0 then {} else
      var r := Range(n - 1);
      assert n - 1 !in r;
      r + {n - 1}
  }

  lemma {:induction false} SubsetSize(a: set<nat>, b: set<nat>)
    requires a <= b
    ensures |a| <= |b|
    decreases b
  {
    if b != {} {
      var x :| x in b;
      SubsetSize(a - {x}, b - {x});
    }
  }

  /** Every posting list of the specification names between 1 and |tokss| documents. */
  lemma PostingSizes(tokss: seq<seq<string>>, t: string)
    requires t in PostingsSpec(tokss)
    ensures 0 < |PostingsSpec(tokss)[t]| <= |tokss|
  {
    var ks := PostingsSpec(tokss)[t].Keys;
    PostingsSpecMeaning(tokss, t, 0);
    forall i | i in ks ensures i in Range(|tokss|) {
      PostingsSpecMeaning(tokss, t, i);
    }
    SubsetSize(ks, Range(|tokss|));
  }

  /** Every posting list is non-empty and no longer than the corpus: 0 < df <= N. */
  lemma DocumentFrequencyBounds(docs: seq<string>, ix: Index, t: string)
    requires IndexFor(docs, ix) && t in ix.postings
    ensures 0 < |ix.postings[t]| <= ix.numDocs
  {
    PostingSizes(TokenLists(docs), t);
  }
}
