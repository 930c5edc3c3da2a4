/**
 * The result selector of `searchChunks` (src/chunkSearch.ts and
 * api/lib/chunkSearch.ts): scored chunks sorted by descending score, the
 * dynamic threshold, the cut to `maxResults`, the key-deduplicated backfill
 * and the top-two fallback.
 */
module Ranking {
  import opened Text
  import opened Corpus

  /** `{ chunk, score }`. */
  datatype Scored = Scored(chunk: Chunk, score: real)

  // ---------------------------------------------------------------------
  // A stable sort on the score, highest score first

  ghost predicate SortedDesc(s: seq<Scored>) {
    forall i, j :: 0 <= i < j < |s| ==> s[i].score >= s[j].score
  }

  /** Put `x` in front of the first element that does not score above it. */
  function Insert(x: Scored, t: seq<Scored>): seq<Scored> {
    if t == [] || t[0].score <= x.score then [x] + t else [t[0]] + Insert(x, t[1..])
  }

  /** The order `Array.prototype.sort` produces with this comparator (it is stable). */
  function SortDesc(s: seq<Scored>): seq<Scored> {
    if s == [] then [] else Insert(s[0], SortDesc(s[1..]))
  }

  /** The elements of `s` that have score `v`, in order. */
  ghost function WithScore(s: seq<Scored>, v: real): seq<Scored> {
    if s == [] then [] else (if s[0].score == v then [s[0]] else []) + WithScore(s[1..], v)
  }

  /** Inserting keeps every element exactly as often and adds `x` once. */
  lemma {:induction false} InsertMultiset(x: Scored, t: seq<Scored>)
    ensures multiset(Insert(x, t)) == multiset{x} + multiset(t)
    ensures |Insert(x, t)| == |t| + 1
    decreases |t|
  {
    if t != [] && t[0].score > x.score {
      InsertMultiset(x, t[1..]);
      assert t == [t[0]] + t[1..];
    }
  }

  /** A bound on the scores of `x` and of `t` bounds the scores after inserting. */
  lemma {:induction false} InsertBounded(x: Scored, t: seq<Scored>, b: real)
    requires x.score <= b
    requires forall k :: 0 <= k < |t| ==> t[k].score <= b
    ensures forall k :: 0 <= k < |Insert(x, t)| ==> Insert(x, t)[k].score <= b
    decreases |t|
  {
    if t != [] && t[0].score > x.score {
      InsertBounded(x, t[1..], b);
    }
  }

  lemma {:induction false} InsertSorted(x: Scored, t: seq<Scored>)
    requires SortedDesc(t)
    ensures SortedDesc(Insert(x, t))
    decreases |t|
  {
    if t != [] && t[0].score > x.score {
      InsertSorted(x, t[1..]);
      InsertBounded(x, t[1..], t[0].score);
    }
  }

  /** Sorting orders by descending score and keeps every element exactly as often. */
  lemma {:induction false} SortDescFacts(s: seq<Scored>)
    ensures SortedDesc(SortDesc(s))
    ensures multiset(SortDesc(s)) == multiset(s)
    ensures |SortDesc(s)| == |s|
    decreases |s|
  {
    if s != [] {
      SortDescFacts(s[1..]);
      InsertSorted(s[0], SortDesc(s[1..]));
      InsertMultiset(s[0], SortDesc(s[1..]));
      assert s == [s[0]] + s[1..];
    }
  }

  lemma {:induction false} InsertWithScore(x: Scored, t: seq<Scored>, v: real)
    ensures WithScore(Insert(x, t), v) == (if x.score == v then [x] else []) + WithScore(t, v)
    decreases |t|
  {
    if t == [] || t[0].score <= x.score {
      assert ([x] + t)[1..] == t;
    } else {
      InsertWithScore(x, t[1..], v);
      InsertWithScoreStep(x, t, v);
    }
  }

  /** One step of `InsertWithScore`: `x` passes an element that scores above it. */
  lemma InsertWithScoreStep(x: Scored, t: seq<Scored>, v: real)
    requires t != [] && t[0].score > x.score
    requires WithScore(Insert(x, t[1..]), v) == (if x.score == v then [x] else []) + WithScore(t[1..], v)
    ensures WithScore(Insert(x, t), v) == (if x.score == v then [x] else []) + WithScore(t, v)
  {
    var u := Insert(x, t[1..]);
    assert Insert(x, t) == [t[0]] + u;
    assert ([t[0]] + u)[1..] == u;
    if t[0].score == v {
      assert WithScore(Insert(x, t), v) == [t[0]] + WithScore(u, v);
    } else {
      assert WithScore(Insert(x, t), v) == WithScore(u, v);
    }
  }

  /** Stability: the elements of each score keep their original relative order. */
  lemma {:induction false} SortDescStable(s: seq<Scored>, v: real)
    ensures WithScore(SortDesc(s), v) == WithScore(s, v)
    decreases |s|
  {
    if s != [] {
      SortDescStable(s[1..], v);
      InsertWithScore(s[0], SortDesc(s[1..]), v);
    }
  }

  /** Sorting a list that is already in descending order changes nothing. */
  lemma {:induction false} SortDescOfSorted(s: seq<Scored>)
    requires SortedDesc(s)
    ensures SortDesc(s) == s
    decreases |s|
  {
    if s != [] {
      SortDescOfSorted(s[1..]);
      assert s == [s[0]] + s[1..];
    }
  }

  /** Sorting twice is sorting once. */
  lemma SortDescIdempotent(s: seq<Scored>)
    ensures SortDesc(SortDesc(s)) == SortDesc(s)
  {
    SortDescFacts(s);
    SortDescOfSorted(SortDesc(s));
  }

  // ---------------------------------------------------------------------
  // Filters on the score, and the chunks of a scored list

  /** `item.score >= t` or `item.score > t`. */
  datatype Cut = AtLeast(bound: real) | Above(bound: real)

  predicate Passes(x: Scored, cut: Cut) {
    match cut
    case AtLeast(t) => x.score >= t
    case Above(t) => x.score > t
  }

  /** The scored items that pass the cut, in their order. */
  function Filter(s: seq<Scored>, cut: Cut): (r: seq<Scored>)
    ensures |r| <= |s|
    ensures forall k :: 0 <= k < |r| ==> Passes(r[k], cut) && r[k] in s
  {
    if s == [] then [] else (if Passes(s[0], cut) then [s[0]] else []) + Filter(s[1..], cut)
  }

  /**
   * On a list sorted by descending score the filter keeps exactly the
   * longest prefix whose elements pass the cut.
   */
  lemma {:induction false} FilterOfSortedIsPrefix(s: seq<Scored>, cut: Cut)
    requires SortedDesc(s)
    ensures Filter(s, cut) == s[..|Filter(s, cut)|]
    ensures forall j :: |Filter(s, cut)| <= j < |s| ==> !Passes(s[j], cut)
    decreases |s|
  {
    if s != [] {
      FilterOfSortedIsPrefix(s[1..], cut);
      var r := Filter(s[1..], cut);
      if Passes(s[0], cut) {
        assert s[..|r| + 1] == [s[0]] + s[1..][..|r|];
      } else {
        forall j | 0 <= j < |s| ensures !Passes(s[j], cut) {
          assert s[0].score >= s[j].score;
        }
        if r != [] {
          assert false;
        }
      }
    }
  }

  /** The chunks of a scored list, scores dropped. */
  function ChunksOf(s: seq<Scored>): (r: seq<Chunk>)
    ensures |r| == |s|
    ensures forall k :: 0 <= k < |s| ==> r[k] == s[k].chunk
  {
    if s == [] then [] else [s[0].chunk] + ChunksOf(s[1..])
  }

  lemma ChunksOfPrefix(s: seq<Scored>, n: nat)
    requires n <= |s|
    ensures ChunksOf(s[..n]) == ChunksOf(s)[..n]
  {
  }

  /** The score of the first sorted item, 0 for an empty list. */
  function TopScore(sorted: seq<Scored>): real {
    if |sorted| > 0 then sorted[0].score else 0.0
  }

  lemma TopScoreIsMaximum(sorted: seq<Scored>)
    requires SortedDesc(sorted)
    ensures forall k :: 0 <= k < |sorted| ==> sorted[k].score <= TopScore(sorted)
  {
  }

  // ---------------------------------------------------------------------
  // The dynamic threshold

  /** A query of at most two distinct tokens counts as short. */
  predicate IsShort(termCount: nat) {
    termCount <= 2
  }

  /** The minimum score, lowered by 10 (but not below 20) for a short query. */
  function MinScoreAdjusted(termCount: nat, minScore: int): (m: int)
    ensures IsShort(termCount) ==> m >= 20 && m >= minScore - 10 && (m == 20 || m == minScore - 10)
    ensures !IsShort(termCount) ==> m == minScore
  {
    if IsShort(termCount) then Max(20, minScore - 10) else minScore
  }

  /** `Math.floor(topScore * alpha)` with `alpha` 0.4 for short queries and 0.5 otherwise. */
  function ScaledTop(topScore: real, termCount: nat): (f: int)
    ensures var alpha := if IsShort(termCount) then 0.4 else 0.5;
      f as real <= topScore * alpha < f as real + 1.0
  {
    (topScore * (if IsShort(termCount) then 0.4 else 0.5)).Floor
  }

  /** The dynamic threshold: the adjusted minimum, or the top score scaled by `alpha` and rounded down, whichever is larger. */
  function Threshold(topScore: real, termCount: nat, minScore: int): (th: real)
    ensures th >= MinScoreAdjusted(termCount, minScore) as real
    ensures th >= ScaledTop(topScore, termCount) as real
    ensures th == MinScoreAdjusted(termCount, minScore) as real || th == ScaledTop(topScore, termCount) as real
  {
    RealMax(MinScoreAdjusted(termCount, minScore) as real, ScaledTop(topScore, termCount) as real)
  }

  /**
   * The best-scored chunk clears the threshold exactly when its score is
   * non-negative and reaches the adjusted minimum (a non-negative top score
   * is never below its own scaled floor).
   */
  lemma TopClearsThreshold(topScore: real, termCount: nat, minScore: int)
    requires topScore >= 0.0
    ensures topScore >= Threshold(topScore, termCount, minScore)
        <==> topScore >= MinScoreAdjusted(termCount, minScore) as real
  {
    var f := ScaledTop(topScore, termCount);
    assert f as real <= topScore;
  }

  // ---------------------------------------------------------------------
  // The selection before backfill

  /** The sorted items scoring at least the threshold, at most `maxResults` of them. */
  function Selected(sorted: seq<Scored>, th: real, maxResults: int): seq<Scored> {
    Take(Filter(sorted, AtLeast(th)), maxResults)
  }

  /**
   * The selection is a prefix of the sorted list, no longer than
   * `maxResults`, every element of it reaches the threshold, and when it is
   * shorter than `maxResults` no further element does.
   */
  lemma SelectedMeaning(sorted: seq<Scored>, th: real, maxResults: int)
    requires SortedDesc(sorted)
    ensures var r := Selected(sorted, th, maxResults);
      && r == sorted[..|r|]
      && (maxResults >= 0 ==> |r| <= maxResults)
      && (forall k :: 0 <= k < |r| ==> r[k].score >= th)
      && (|r| < maxResults ==> forall j :: |r| <= j < |sorted| ==> sorted[j].score < th)
  {
    FilterOfSortedIsPrefix(sorted, AtLeast(th));
    var f := Filter(sorted, AtLeast(th));
    var r := Selected(sorted, th, maxResults);
    assert r == f[..|r|];
  }

  // ---------------------------------------------------------------------
  // The fallback: the top positive chunks

  /** The first two items of the sorted list with a positive score. */
  function TopPositive(sorted: seq<Scored>): seq<Scored> {
    Take(Filter(sorted, Above(0.0)), 2)
  }

  /**
   * The fallback holds at most two chunks, all with a positive score; they
   * are the first positive ones of the sorted list, and no positive chunk
   * left out scores above any of them.
   */
  lemma TopPositiveMeaning(sorted: seq<Scored>)
    requires SortedDesc(sorted)
    ensures var r := TopPositive(sorted);
      && |r| <= 2
      && r == sorted[..|r|]
      && (forall k :: 0 <= k < |r| ==> r[k].score > 0.0)
      && (forall k, j :: 0 <= k < |r| && |r| <= j < |sorted| ==> sorted[j].score <= r[k].score)
      && (|r| < 2 ==> forall j :: |r| <= j < |sorted| ==> sorted[j].score <= 0.0)
  {
    FilterOfSortedIsPrefix(sorted, Above(0.0));
    var f := Filter(sorted, Above(0.0));
    var r := TopPositive(sorted);
    assert r == f[..|r|];
  }

  /**
   * The src fallback sorts the (already sorted, hence aliased) list again;
   * that gives the same chunks as the api fallback that does not.
   */
  lemma ResortedFallbackIsSame(sorted: seq<Scored>)
    requires SortedDesc(sorted)
    ensures Take(SortDesc(Filter(sorted, Above(0.0))), 2) == TopPositive(sorted)
  {
    FilterOfSortedIsPrefix(sorted, Above(0.0));
    var f := Filter(sorted, Above(0.0));
    assert SortedDesc(f) by {
      assert forall i, j :: 0 <= i < j < |f| ==> f[i] == sorted[i] && f[j] == sorted[j];
    }
    SortDescOfSorted(f);
  }

  // ---------------------------------------------------------------------
  // Backfill: append chunks whose key is not yet present, up to `maxResults`

  /** `${c.metadata.pdfUrl}-${c.index}`: a missing URL prints as `undefined`. */
  function Key(c: Chunk): string {
    (if c.metadata.pdfUrl.Some? then c.metadata.pdfUrl.value else "undefined") + "-" + IntToString(c.index)
  }

  /** The set of keys of the chunks. */
  function KeySet(s: seq<Chunk>): (ks: set<string>)
    ensures forall i :: 0 <= i < |s| ==> Key(s[i]) in ks
  {
    set c | c in s :: Key(c)
  }

  lemma KeySetSnoc(s: seq<Chunk>, c: Chunk)
    ensures KeySet(s + [c]) == KeySet(s) + {Key(c)}
  {
    assert forall d :: d in s + [c] <==> d in s || d == c;
  }

  /** One step of `extra.forEach`: push `c` when its key is new and there is room. */
  function Admit(r: seq<Chunk>, c: Chunk, maxResults: int): seq<Chunk> {
    if Key(c) !in KeySet(r) && |r| < maxResults then r + [c] else r
  }

  /** `relevant` after every chunk of `extra` has been offered, in order. */
  function Backfill(relevant: seq<Chunk>, extra: seq<Chunk>, maxResults: int): seq<Chunk>
    decreases |extra|
  {
    if extra == [] then relevant
    else Admit(Backfill(relevant, extra[..|extra| - 1], maxResults), extra[|extra| - 1], maxResults)
  }

  /** The `seen` set and the `extra.forEach` loop of one backfill block. */
  method AppendUnseen(relevant: seq<Chunk>, extra: seq<Chunk>, maxResults: int) returns (r: seq<Chunk>)
    ensures r == Backfill(relevant, extra, maxResults)
  {
    var seen := KeySet(relevant);
    r := relevant;
    for k := 0 to |extra|
      invariant r == Backfill(relevant, extra[..k], maxResults)
      invariant seen == KeySet(r)
    {
      var c := extra[k];
      var key := Key(c);
      assert extra[..k + 1][..k] == extra[..k];
      if key !in seen && |r| < maxResults {
        KeySetSnoc(r, c);
        seen := seen + {key};
        r := r + [c];
      }
    }
    assert extra[..|extra|] == extra;
  }

  /**
   * Backfill only appends: the earlier results stay in place, at most
   * `maxResults` chunks result unless there were more already, every
   * appended chunk comes from `extra` and its key was not present before it.
   */
  lemma BackfillMeaning(relevant: seq<Chunk>, extra: seq<Chunk>, maxResults: int)
    ensures var r := Backfill(relevant, extra, maxResults);
      && |r| >= |relevant| && r[..|relevant|] == relevant
      && (|relevant| <= maxResults ==> |r| <= maxResults)
      && (|relevant| >= maxResults ==> r == relevant)
      && (forall j :: |relevant| <= j < |r| ==> r[j] in extra && Key(r[j]) !in KeySet(r[..j]))
  {
    BackfillGrows(relevant, extra, maxResults);
    BackfillFresh(relevant, extra, maxResults);
  }

  lemma {:induction false} BackfillGrows(relevant: seq<Chunk>, extra: seq<Chunk>, maxResults: int)
    ensures var r := Backfill(relevant, extra, maxResults);
      && |r| >= |relevant| && r[..|relevant|] == relevant
      && (|relevant| <= maxResults ==> |r| <= maxResults)
      && (|relevant| >= maxResults ==> r == relevant)
    decreases |extra|
  {
    if extra != [] {
      BackfillGrows(relevant, extra[..|extra| - 1], maxResults);
      var p := Backfill(relevant, extra[..|extra| - 1], maxResults);
      assert (p + [extra[|extra| - 1]])[..|relevant|] == p[..|relevant|];
    }
  }

  lemma {:induction false} BackfillFresh(relevant: seq<Chunk>, extra: seq<Chunk>, maxResults: int)
    ensures var r := Backfill(relevant, extra, maxResults);
      forall j :: |relevant| <= j < |r| ==> r[j] in extra && Key(r[j]) !in KeySet(r[..j])
    decreases |extra|
  {
    if extra != [] {
      var init := extra[..|extra| - 1];
      var c := extra[|extra| - 1];
      BackfillFresh(relevant, init, maxResults);
      var p := Backfill(relevant, init, maxResults);
      var r := Backfill(relevant, extra, maxResults);
      BackfillGrows(relevant, init, maxResults);
      forall j | |relevant| <= j < |r| ensures r[j] in extra && Key(r[j]) !in KeySet(r[..j]) {
        if j < |p| {
          assert r[..|p|] == p;
          assert r[j] == p[j] && r[..j] == p[..j];
          assert p[j] in init;
        } else {
          assert r == p + [c] && r[..j] == p;
        }
      }
    }
  }

  /**
   * When every chunk from position `base` on comes from `pool` with a fresh
   * key, backfilling from `pool` keeps it so.
   */
  lemma BackfillStaysFresh(p: seq<Chunk>, extra: seq<Chunk>, maxResults: int, base: nat, pool: seq<Chunk>)
    requires base <= |p|
    requires forall j :: base <= j < |p| ==> p[j] in pool && Key(p[j]) !in KeySet(p[..j])
    requires forall k :: 0 <= k < |extra| ==> extra[k] in pool
    ensures var r := Backfill(p, extra, maxResults);
      forall j :: base <= j < |r| ==> r[j] in pool && Key(r[j]) !in KeySet(r[..j])
  {
    BackfillGrows(p, extra, maxResults);
    BackfillFresh(p, extra, maxResults);
    var r := Backfill(p, extra, maxResults);
    forall j | base <= j < |r| ensures r[j] in pool && Key(r[j]) !in KeySet(r[..j]) {
      if j < |p| {
        assert r[..j] == r[..|p|][..j];
        assert r[j] == r[..|p|][j];
      } else {
        var k :| 0 <= k < |extra| && extra[k] == r[j];
      }
    }
  }
}
