/**
 * String and sequence helpers with the meaning JavaScript gives them:
 * the `\s` / `trim()` whitespace class, `split`, `join`, `slice`,
 * `includes`, `Set` insertion order and number-to-string formatting.
 */
module Text {

  datatype Option<+T> = None | Some(value: T)

  /** An optional string field, empty when missing. */
  function OrEmpty(o: Option<string>): string {
    if o.Some? then o.value else ""
  }

  /** An optional string, or the default `d` when it is missing or empty. */
  function OrElse(o: Option<string>, d: string): (r: string)
    ensures o.Some? && o.value != "" ==> r == o.value
    ensures (o.None? || o.value == "") ==> r == d
  {
    if o.Some? && o.value != "" then o.value else d
  }

  /** A present, non-empty string: JavaScript truthiness of a string field. */
  predicate Truthy(o: Option<string>) {
    o.Some? && o.value != ""
  }

  function Max(a: int, b: int): int { if a < b then b else a }
  function Min(a: int, b: int): int { if a < b then a else b }
  function RealMax(a: real, b: real): real { if a < b then b else a }

  // ---------------------------------------------------------------------
  // Character classes

  /** JavaScript WhiteSpace and LineTerminator: the class `\s` and what `trim()` removes. */
  predicate IsSpace(c: char) {
    c == '\t' || c == '\n' || c == '\U{000B}' || c == '\U{000C}' || c == '\r' || c == ' '
    || c == '\U{00A0}' || c == '\U{1680}' || ('\U{2000}' <= c <= '\U{200A}')
    || c == '\U{2028}' || c == '\U{2029}' || c == '\U{202F}' || c == '\U{205F}'
    || c == '\U{3000}' || c == '\U{FEFF}'
  }

  /** The characters `.` does not match in a JavaScript regular expression. */
  predicate IsLineTerminator(c: char) {
    c == '\n' || c == '\r' || c == '\U{2028}' || c == '\U{2029}'
  }

  /** The private-use block U+E000..U+F8FF. */
  predicate IsPrivateUse(c: char) {
    '\U{E000}' <= c <= '\U{F8FF}'
  }

  /** Zero-width space, non-joiner, joiner and the byte-order mark. */
  predicate IsZeroWidth(c: char) {
    c == '\U{200B}' || c == '\U{200C}' || c == '\U{200D}' || c == '\U{FEFF}'
  }

  predicate IsInvisible(c: char) {
    IsPrivateUse(c) || IsZeroWidth(c)
  }

  /**
   * Stand-in for `\p{L}\p{N}`: ASCII letters and digits, the Latin-1 letters
   * and digits, Hangul jamo and syllables, and the CJK unified ideographs.
   */
  predicate IsWordChar(c: char) {
    ('a' <= c <= 'z') || ('A' <= c <= 'Z') || ('0' <= c <= '9')
    || c == '\U{00AA}' || c == '\U{00B2}' || c == '\U{00B3}' || c == '\U{00B5}'
    || c == '\U{00B9}' || c == '\U{00BA}' || ('\U{00BC}' <= c <= '\U{00BE}')
    || ('\U{00C0}' <= c <= '\U{00D6}') || ('\U{00D8}' <= c <= '\U{00F6}') || ('\U{00F8}' <= c <= '\U{00FF}')
    || ('\U{1100}' <= c <= '\U{11FF}') || ('\U{3131}' <= c <= '\U{318E}')
    || ('\U{4E00}' <= c <= '\U{9FFF}') || ('\U{AC00}' <= c <= '\U{D7A3}')
  }

  lemma WordCharIsVisible(c: char)
    requires IsWordChar(c)
    ensures !IsSpace(c) && !IsInvisible(c)
  {
  }

  /** Stand-in for `toLowerCase` on one character: ASCII upper case only. */
  function LowerChar(c: char): (r: char)
    ensures r == c || ('A' <= c <= 'Z' && 'a' <= r <= 'z')
  {
    if 'A' <= c <= 'Z' then (c as int + 32) as char else c
  }

  predicate IsLower(c: char) {
    LowerChar(c) == c
  }

  function Lower(s: string): (r: string)
    ensures |r| == |s|
    ensures forall i :: 0 <= i < |r| ==> r[i] == LowerChar(s[i]) && IsLower(r[i])
  {
    if s == [] then [] else [LowerChar(s[0])] + Lower(s[1..])
  }

  /** `s.replace(/[...]/g, '')` for a character class given as a predicate. */
  function RemoveWhere(s: string, drop: char -> bool): string {
    if s == [] then []
    else if drop(s[0]) then RemoveWhere(s[1..], drop)
    else [s[0]] + RemoveWhere(s[1..], drop)
  }

  /** Removal keeps exactly the characters `drop` spares, and no others. */
  lemma {:induction false} RemoveWhereChars(s: string, drop: char -> bool)
    ensures |RemoveWhere(s, drop)| <= |s|
    ensures forall i :: 0 <= i < |RemoveWhere(s, drop)| ==>
      !drop(RemoveWhere(s, drop)[i]) && RemoveWhere(s, drop)[i] in s
    ensures forall c :: c in s && !drop(c) ==> c in RemoveWhere(s, drop)
    decreases |s|
  {
    if s != [] {
      RemoveWhereChars(s[1..], drop);
      var r := RemoveWhere(s, drop);
      var r' := RemoveWhere(s[1..], drop);
      if !drop(s[0]) {
        assert forall i :: 1 <= i < |r| ==> r[i] == r'[i - 1];
      }
      forall c | c in s && !drop(c) ensures c in r {
        if c != s[0] {
          assert c in s[1..];
        }
      }
    }
  }

  // ---------------------------------------------------------------------
  // trim()

  ghost predicate AllSpace(s: string) {
    forall i :: 0 <= i < |s| ==> IsSpace(s[i])
  }

  function LeadingSpaces(s: string): (n: nat)
    ensures n <= |s|
    ensures forall i :: 0 <= i < n ==> IsSpace(s[i])
    ensures n < |s| ==> !IsSpace(s[n])
  {
    if s != [] && IsSpace(s[0]) then 1 + LeadingSpaces(s[1..]) else 0
  }

  function TrailingSpaces(s: string): (n: nat)
    ensures n <= |s|
    ensures forall i :: |s| - n <= i < |s| ==> IsSpace(s[i])
    ensures n < |s| ==> !IsSpace(s[|s| - 1 - n])
  {
    if s != [] && IsSpace(s[|s| - 1]) then 1 + TrailingSpaces(s[..|s| - 1]) else 0
  }

  function TrimStart(s: string): string {
    s[LeadingSpaces(s)..]
  }

  function TrimEnd(s: string): string {
    s[..|s| - TrailingSpaces(s)]
  }

  /** `s.trim()`: the slice of `s` between its leading and trailing whitespace. */
  function Trim(s: string): (r: string)
    ensures |r| <= |s|
    ensures r == [] || (!IsSpace(r[0]) && !IsSpace(r[|r| - 1]))
    ensures r == [] <==> AllSpace(s)
    ensures var a := LeadingSpaces(s); a + |r| <= |s| && r == s[a..a + |r|]
  {
    var t := TrimStart(s);
    var r := TrimEnd(t);
    assert AllSpace(s) ==> LeadingSpaces(s) == |s|;
    r
  }

  /** What `trim()` drops at the end is whitespace. */
  lemma TrimTail(s: string)
    ensures forall i :: LeadingSpaces(s) + |Trim(s)| <= i < |s| ==> IsSpace(s[i])
  {
    var a := LeadingSpaces(s);
    var t := s[a..];
    var n := TrailingSpaces(t);
    assert Trim(s) == t[..|t| - n];
    forall i | a + |Trim(s)| <= i < |s| ensures IsSpace(s[i]) {
      assert s[i] == t[i - a];
    }
  }

  /** `trim()` of a string framed by whitespace returns the frame's content. */
  lemma TrimFrame(a: string, m: string, b: string)
    requires AllSpace(a) && AllSpace(b)
    requires m != [] && !IsSpace(m[0]) && !IsSpace(m[|m| - 1])
    ensures Trim(a + m + b) == m
  {
    var s := a + m + b;
    var r := Trim(s);
    assert forall i :: 0 <= i < |a| ==> IsSpace(s[i]);
    assert !IsSpace(s[|a|]);
    assert LeadingSpaces(s) == |a|;
    assert forall i :: |a| + |m| <= i < |s| ==> IsSpace(s[i]);
    assert !IsSpace(s[|a| + |m| - 1]);
    assert |r| == |m|;
    assert s[|a|..|a| + |m|] == m;
  }

  // ---------------------------------------------------------------------
  // includes()

  predicate StartsWith(s: string, p: string) {
    |p| <= |s| && s[..|p|] == p
  }

  /** `s.includes(p)`. */
  predicate Contains(s: string, p: string)
    decreases |s|
  {
    StartsWith(s, p) || (s != [] && Contains(s[1..], p))
  }

  ghost predicate OccursAt(s: string, p: string, i: int) {
    0 <= i && i + |p| <= |s| && s[i..i + |p|] == p
  }

  lemma {:induction false} ContainsAt(s: string, p: string, i: int)
    requires OccursAt(s, p, i)
    ensures Contains(s, p)
    decreases i
  {
    if i == 0 {
      assert s[..|p|] == s[0..|p|];
    } else {
      assert s[1..][i - 1..i - 1 + |p|] == s[i..i + |p|];
      ContainsAt(s[1..], p, i - 1);
    }
  }

  lemma {:induction false} ContainsWitness(s: string, p: string) returns (i: nat)
    requires Contains(s, p)
    ensures OccursAt(s, p, i)
    decreases |s|
  {
    if StartsWith(s, p) {
      i := 0;
      assert s[0..|p|] == s[..|p|];
    } else {
      var j := ContainsWitness(s[1..], p);
      i := j + 1;
      assert s[1..][j..j + |p|] == s[i..i + |p|];
    }
  }

  lemma ContainsInConcat(s: string, p: string, pre: string, post: string)
    requires Contains(s, p)
    ensures Contains(pre + s + post, p)
  {
    var i := ContainsWitness(s, p);
    var t := pre + s + post;
    assert t[|pre| + i..|pre| + i + |p|] == s[i..i + |p|];
    ContainsAt(t, p, |pre| + i);
  }

  lemma ContainsSelf(s: string)
    ensures Contains(s, s)
  {
    assert s[0..|s|] == s;
    ContainsAt(s, s, 0);
  }

  /** Both halves of a concatenation occur in it. */
  lemma ContainsParts(a: string, b: string)
    ensures Contains(a + b, a) && Contains(a + b, b)
  {
    ContainsSelf(a);
    ContainsSelf(b);
    ContainsInConcat(a, a, "", b);
    ContainsInConcat(b, b, a, "");
    assert "" + a + b == a + b && a + b + "" == a + b;
  }

  /** An occurrence of an occurrence is an occurrence. */
  lemma ContainsTrans(s: string, p: string, q: string)
    requires Contains(s, p) && Contains(p, q)
    ensures Contains(s, q)
  {
    var i := ContainsWitness(s, p);
    var j := ContainsWitness(p, q);
    SliceOfSlice(s, i, i + |p|, j, j + |q|);
    ContainsAt(s, q, i + j);
  }

  /**
   * If `l` occurs in `s` and `l` is not blank, then `l.trim()` occurs in
   * `s.trim()` (which is then not blank either).
   */
  lemma TrimContains(s: string, l: string)
    requires Contains(s, l)
    requires Trim(l) != []
    ensures Contains(Trim(s), Trim(l)) && Trim(s) != []
  {
    var i := ContainsWitness(s, l);
    var lo := TrimOfOccurrence(s, l, i);
    var k := TrimKeeps(s, lo, lo + |Trim(l)|);
    ContainsAt(Trim(s), Trim(l), k);
  }

  /** Where `l.trim()` sits in `s` when `l` occurs at `i`. */
  lemma TrimOfOccurrence(s: string, l: string, i: int) returns (lo: int)
    requires OccursAt(s, l, i) && Trim(l) != []
    ensures OccursAt(s, Trim(l), lo)
    ensures !IsSpace(s[lo]) && !IsSpace(s[lo + |Trim(l)| - 1])
  {
    var tl := Trim(l);
    var a := LeadingSpaces(l);
    lo := i + a;
    var hi := lo + |tl|;
    SliceOfSlice(s, i, i + |l|, a, a + |tl|);
    assert l == s[i..i + |l|];
    assert tl == l[a..a + |tl|];
    assert tl == s[lo..hi];
    assert tl[0] == s[lo] && tl[|tl| - 1] == s[hi - 1];
  }

  /** `trim` introduces no character. */
  lemma TrimKeepsOut(s: string, ch: char)
    requires ch !in s
    ensures ch !in Trim(s)
  {
    var r := Trim(s);
    var lo := LeadingSpaces(s);
    forall k | 0 <= k < |r| ensures r[k] != ch {
      assert r[k] == s[lo + k];
    }
  }

  /** A stretch of `s` that starts and ends with a visible character survives `trim`. */
  lemma TrimKeeps(s: string, lo: int, hi: int) returns (k: int)
    requires 0 <= lo < hi <= |s|
    requires !IsSpace(s[lo]) && !IsSpace(s[hi - 1])
    ensures OccursAt(Trim(s), s[lo..hi], k)
  {
    var ts := Trim(s);
    var A := LeadingSpaces(s);
    TrimTail(s);
    assert A <= lo;
    assert hi <= A + |ts|;
    k := lo - A;
    SliceOfSlice(s, A, A + |ts|, k, hi - A);
  }

  lemma SliceOfSlice(s: string, i: int, j: int, k: int, m: int)
    requires 0 <= i <= j <= |s| && 0 <= k <= m <= j - i
    ensures s[i..j][k..m] == s[i + k..i + m]
  {
    assert forall t :: 0 <= t < m - k ==> s[i..j][k..m][t] == s[i + k + t];
  }

  // ---------------------------------------------------------------------
  // split and join

  function IndexOf(s: string, c: char): (i: nat)
    ensures i <= |s|
    ensures i < |s| ==> s[i] == c
    ensures forall k :: 0 <= k < i ==> s[k] != c
  {
    if s == [] || s[0] == c then 0 else 1 + IndexOf(s[1..], c)
  }

  /** `s.split(sep)` for a one-character separator. */
  function Split(s: string, sep: char): (r: seq<string>)
    ensures |r| > 0
    ensures forall k, i :: 0 <= k < |r| && 0 <= i < |r[k]| ==> r[k][i] != sep && r[k][i] in s
    decreases |s|
  {
    var i := IndexOf(s, sep);
    if i == |s| then [s] else [s[..i]] + Split(s[i + 1..], sep)
  }

  /** `parts.join(sep)`. */
  function Join(parts: seq<string>, sep: string): string {
    if |parts| == 0 then ""
    else if |parts| == 1 then parts[0]
    else parts[0] + sep + Join(parts[1..], sep)
  }

  lemma {:induction false} JoinSplit(s: string, sep: char)
    ensures Join(Split(s, sep), [sep]) == s
    decreases |s|
  {
    var i := IndexOf(s, sep);
    if i < |s| {
      JoinSplit(s[i + 1..], sep);
      assert s == s[..i] + [sep] + s[i + 1..];
    }
  }

  lemma {:induction false} JoinAllSpace(parts: seq<string>, sep: string)
    requires AllSpace(sep)
    requires forall k :: 0 <= k < |parts| ==> AllSpace(parts[k])
    ensures AllSpace(Join(parts, sep))
    decreases |parts|
  {
    if |parts| > 1 {
      JoinAllSpace(parts[1..], sep);
    }
  }

  /** Every part occurs in the joined string. */
  lemma {:induction false} JoinHolds(parts: seq<string>, sep: string, k: nat)
    requires k < |parts|
    ensures Contains(Join(parts, sep), parts[k])
    decreases k
  {
    if |parts| == 1 {
      ContainsSelf(parts[0]);
    } else if k == 0 {
      ContainsSelf(parts[0]);
      ContainsInConcat(parts[0], parts[0], "", sep + Join(parts[1..], sep));
      assert "" + parts[0] + (sep + Join(parts[1..], sep)) == Join(parts, sep);
    } else {
      JoinHolds(parts[1..], sep, k - 1);
      ContainsInConcat(Join(parts[1..], sep), parts[k], parts[0] + sep, "");
      assert parts[0] + sep + Join(parts[1..], sep) + "" == Join(parts, sep);
    }
  }

  function FirstSpace(s: string): (i: nat)
    ensures i <= |s|
    ensures i < |s| ==> IsSpace(s[i])
    ensures forall k :: 0 <= k < i ==> !IsSpace(s[k])
  {
    if s == [] || IsSpace(s[0]) then 0 else 1 + FirstSpace(s[1..])
  }

  /** `s.split(/\s+/)`: pieces between maximal whitespace runs, empty pieces kept. */
  function SplitWs(s: string): (r: seq<string>)
    ensures |r| > 0
    ensures forall k, i :: 0 <= k < |r| && 0 <= i < |r[k]| ==> !IsSpace(r[k][i]) && r[k][i] in s
    decreases |s|
  {
    var i := FirstSpace(s);
    if i == |s| then [s]
    else
      var rest := s[i..];
      var j := LeadingSpaces(rest);
      assert j > 0;
      [s[..i]] + SplitWs(rest[j..])
  }

  // ---------------------------------------------------------------------
  // slice

  /** The end index that JavaScript's `slice(0, end)` uses on a sequence of length `len`. */
  function SliceEnd(len: nat, end: int): (e: nat)
    ensures e <= len
    ensures 0 <= end ==> e == Min(end, len)
    ensures end < 0 ==> e == Max(len + end, 0)
  {
    if end < 0 then (if len + end < 0 then 0 else len + end)
    else if end > len then len else end
  }

  /** `s.slice(0, end)`. */
  function Take<T>(s: seq<T>, end: int): (r: seq<T>)
    ensures |r| <= |s| && r == s[..|r|]
    ensures 0 <= end ==> |r| == Min(end, |s|)
  {
    s[..SliceEnd(|s|, end)]
  }

  /** `s.slice(start)`: a negative start counts from the end. */
  function DropFront<T>(s: seq<T>, start: int): (r: seq<T>)
    ensures |r| <= |s| && r == s[|s| - |r|..]
    ensures start < 0 ==> |r| == Min(-start, |s|)
    ensures start >= 0 ==> |r| == Max(|s| - start, 0)
  {
    if start < 0 then s[(if |s| + start < 0 then 0 else |s| + start)..]
    else if start > |s| then [] else s[start..]
  }

  // ---------------------------------------------------------------------
  // Set insertion order

  /** `Array.from(new Set(s))`: first occurrences, in order. */
  function Dedup<T(==)>(s: seq<T>): seq<T> {
    if s == [] then []
    else
      var p := Dedup(s[..|s| - 1]);
      if s[|s| - 1] in p then p else p + [s[|s| - 1]]
  }

  /** The deduplicated sequence holds each element of `s` exactly once and nothing else. */
  lemma {:induction false} DedupElements<T>(s: seq<T>)
    ensures forall x :: x in Dedup(s) <==> x in s
    ensures forall i, j :: 0 <= i < j < |Dedup(s)| ==> Dedup(s)[i] != Dedup(s)[j]
    ensures |Dedup(s)| <= |s|
    decreases |s|
  {
    if s != [] {
      var init := s[..|s| - 1];
      DedupElements(init);
      assert s == init + [s[|s| - 1]];
    }
  }

  lemma PrefixOfSnoc<T>(s: seq<T>, x: T)
    ensures (s + [x])[..|s|] == s && (s + [x])[|s|] == x
  {
  }

  lemma TakeSnoc<T>(s: seq<T>, i: nat)
    requires i < |s|
    ensures s[..i + 1] == s[..i] + [s[i]]
  {
  }

  /** Appending the next element of `all` to a prefix of it. */
  lemma TakeNext<T>(all: seq<T>, s: seq<T>, x: T)
    requires |s| < |all| && s == all[..|s|] && x == all[|s|]
    ensures s + [x] == all[..|s| + 1]
  {
    TakeSnoc(all, |s|);
  }

  lemma TakeDrop<T>(s: seq<T>, n: nat)
    requires n <= |s|
    ensures s[..n] + s[n..] == s
  {
  }

  lemma AppendAssoc<T>(a: seq<T>, b: seq<T>, c: seq<T>)
    ensures a + (b + c) == (a + b) + c
  {
  }

  /** `set.add(x)` on the insertion-ordered contents of a set. */
  lemma DedupSnoc<T>(s: seq<T>, x: T)
    ensures Dedup(s + [x]) == if x in Dedup(s) then Dedup(s) else Dedup(s) + [x]
  {
    assert (s + [x])[..|s|] == s;
  }

  // ---------------------------------------------------------------------
  // Sums and numbers

  function Sum(s: seq<nat>): nat {
    if s == [] then 0 else Sum(s[..|s| - 1]) + s[|s| - 1]
  }

  function DigitChar(d: nat): (c: char)
    requires d < 10
    ensures '0' <= c <= '9'
  {
    (48 + d) as char
  }

  /** Decimal digits of a natural number, as `${n}` prints it. */
  function NatToString(n: nat): (r: string)
    ensures |r| > 0
    ensures forall i :: 0 <= i < |r| ==> '0' <= r[i] <= '9'
  {
    if n < 10 then [DigitChar(n)] else NatToString(n / 10) + [DigitChar(n % 10)]
  }

  /** `${i}` for an integer. */
  function IntToString(i: int): (r: string)
    ensures |r| > 0
  {
    if i < 0 then "-" + NatToString(-i) else NatToString(i)
  }
}
