/** The few Python string operations the tool panel relies on: ASCII
    `lower`, slicing with clamped bounds, `in` on strings, and the
    non-overlapping, left-to-right `count`, `replace` and `split`. */
module Strings {

  /** `str.lower` restricted to ASCII letters. */
  function LowerChar(c: char): char {
    if 'A' <= c <= 'Z' then (c as int + 32) as char else c
  }

  predicate IsUpper(c: char) {
    'A' <= c <= 'Z'
  }

  /** No upper-case ASCII letter occurs in `s`. */
  predicate IsLower(s: string) {
    forall i :: 0 <= i < |s| ==> !IsUpper(s[i])
  }

  function Lower(s: string): (r: string)
    ensures |r| == |s|
    ensures IsLower(r)
    ensures forall i :: 0 <= i < |s| && !IsUpper(s[i]) ==> r[i] == s[i]
    ensures forall i :: 0 <= i < |s| && IsUpper(s[i]) ==> r[i] as int == s[i] as int + 32
  {
    seq(|s|, i requires 0 <= i < |s| => LowerChar(s[i]))
  }

  /** Lower-casing twice is lower-casing once, and leaves a lower-case text
      alone. */
  lemma LowerIdempotent(s: string)
    ensures Lower(Lower(s)) == Lower(s)
    ensures IsLower(s) ==> Lower(s) == s
  {
  }

  /** Python's `s[lo:hi]` for non-negative bounds: both are clamped to the
      length, and a reversed range is empty. */
  function Slice(s: string, lo: nat, hi: nat): (r: string)
    ensures |r| <= |s|
    ensures lo <= hi <= |s| ==> r == s[lo..hi]
    ensures |s| <= lo || hi <= lo ==> r == ""
    ensures lo < |s| && lo < hi ==> |r| > 0 && r[0] == s[lo]
  {
    var h := if hi <= |s| then hi else |s|;
    if h <= lo then "" else s[lo..h]
  }

  /** `s[:n] == p` with `n == len(p)` is a prefix test. */
  lemma SliceIsPrefixTest(s: string, p: string)
    ensures Slice(s, 0, |p|) == p <==> p <= s
  {
  }

  /** `p` occurs in `s` at index `i`. */
  predicate OccursAt(s: string, p: string, i: nat) {
    i + |p| <= |s| && s[i..i + |p|] == p
  }

  /** Python's `p in s`, scanning from the left. */
  function Contains(s: string, p: string): bool
    decreases |s|
  {
    if p <= s then true
    else if |s| == 0 then false
    else Contains(s[1..], p)
  }

  /** The scan finds `p` exactly when it occurs at some index. */
  lemma {:induction false} ContainsIff(s: string, p: string)
    ensures Contains(s, p) <==> exists i: nat :: OccursAt(s, p, i)
    decreases |s|
  {
    OccursAtStart(s, p);
    if |s| > 0 && !(p <= s) {
      ContainsIff(s[1..], p);
      forall i: nat | i > 0 ensures OccursAt(s, p, i) <==> OccursAt(s[1..], p, i - 1) {
        OccursShift(s, p, i);
      }
      if Contains(s[1..], p) {
        var i: nat :| OccursAt(s[1..], p, i);
        assert OccursAt(s, p, i + 1);
      }
    }
  }

  lemma OccursAtStart(s: string, p: string)
    ensures OccursAt(s, p, 0) <==> p <= s
  {
  }

  /** An occurrence after the first character is one in the tail. */
  lemma OccursShift(s: string, p: string, i: nat)
    requires |s| > 0 && i > 0
    ensures OccursAt(s, p, i) <==> OccursAt(s[1..], p, i - 1)
  {
    if i + |p| <= |s| {
      assert s[1..][i - 1..i - 1 + |p|] == s[i..i + |p|];
    }
  }

  /** The empty text occurs in every text, so an empty search matches all. */
  lemma EmptyIsContained(s: string)
    ensures Contains(s, "")
  {
  }

  /** Occurrence is transitive: a text inside a text inside `s` is in `s`. */
  lemma ContainsTransitive(s: string, m: string, p: string)
    requires Contains(s, m) && Contains(m, p)
    ensures Contains(s, p)
  {
    ContainsIff(s, m);
    ContainsIff(m, p);
    var i: nat :| OccursAt(s, m, i);
    var j: nat :| OccursAt(m, p, j);
    forall k | 0 <= k < |p| ensures s[i + j + k] == p[k] {
      assert p[k] == m[j..j + |p|][k] == m[j + k];
      assert m[j + k] == s[i..i + |m|][j + k];
    }
    assert s[i + j..i + j + |p|] == p;
    assert OccursAt(s, p, i + j);
    ContainsIff(s, p);
  }

  /** Lower-casing maps an occurrence to an occurrence. */
  lemma LowerKeepsOccurrence(s: string, p: string, i: nat)
    requires OccursAt(s, p, i)
    ensures OccursAt(Lower(s), Lower(p), i)
  {
    assert Lower(s)[i..i + |p|] == Lower(p);
  }

  /** Python's `s.count(p)` for a non-empty `p`: occurrences found from the
      left, each search resuming after the previous match. */
  function Count(s: string, p: string): nat
    requires |p| > 0
    decreases |s|
  {
    if |s| < |p| then 0
    else if p <= s then 1 + Count(s[|p|..], p)
    else Count(s[1..], p)
  }

  /** Something is counted exactly when the text occurs. */
  lemma {:induction false} CountPositiveIffContains(s: string, p: string)
    requires |p| > 0
    ensures Count(s, p) > 0 <==> Contains(s, p)
    decreases |s|
  {
    if |s| < |p| {
      if Contains(s, p) {
        ContainsIff(s, p);
        assert false;
      }
    } else if !(p <= s) {
      CountPositiveIffContains(s[1..], p);
    }
  }

  /** Counting one character counts every occurrence of it. */
  lemma {:induction false} CountSingle(s: string, c: char)
    ensures Count(s, [c]) == multiset(s)[c]
    decreases |s|
  {
    if |s| == 0 {
    } else {
      CountSingle(s[1..], c);
      assert s == [s[0]] + s[1..];
      assert [c] <= s <==> s[0] == c;
    }
  }

  /** Python's `s.replace(p, q)` for a non-empty `p`: every occurrence found
      from the left, without overlap, becomes `q`. */
  function Replace(s: string, p: string, q: string): string
    requires |p| > 0
    decreases |s|
  {
    if |s| < |p| then s
    else if p <= s then q + Replace(s[|p|..], p, q)
    else [s[0]] + Replace(s[1..], p, q)
  }

  /** The result grows or shrinks by the length difference once per counted
      occurrence. */
  lemma {:induction false} ReplaceLength(s: string, p: string, q: string)
    requires |p| > 0
    ensures |Replace(s, p, q)| == |s| + Count(s, p) * (|q| - |p|)
    decreases |s|
  {
    if |s| < |p| {
    } else if p <= s {
      ReplaceLength(s[|p|..], p, q);
      assert |s[|p|..]| == |s| - |p|;
      assert (1 + Count(s[|p|..], p)) * (|q| - |p|) == (|q| - |p|) + Count(s[|p|..], p) * (|q| - |p|);
    } else {
      ReplaceLength(s[1..], p, q);
    }
  }

  /** Every character of the result comes from the text or the replacement. */
  lemma {:induction false} ReplaceChars(s: string, p: string, q: string)
    requires |p| > 0
    ensures forall ch :: ch in Replace(s, p, q) ==> ch in s || ch in q
    decreases |s|
  {
    if |s| < |p| {
    } else if p <= s {
      ReplaceChars(s[|p|..], p, q);
      forall ch | ch in s[|p|..] ensures ch in s {
        var k :| 0 <= k < |s[|p|..]| && s[|p|..][k] == ch;
        assert s[|p| + k] == ch;
      }
    } else {
      ReplaceChars(s[1..], p, q);
      forall ch | ch in s[1..] ensures ch in s {
        var k :| 0 <= k < |s[1..]| && s[1..][k] == ch;
        assert s[1 + k] == ch;
      }
    }
  }

  /** A text that lacks any one character of the pattern has no occurrence
      of it and is left alone. */
  lemma {:induction false} ReplaceMissingChar(s: string, p: string, q: string, k: nat)
    requires k < |p| && p[k] !in s
    ensures Replace(s, p, q) == s
    decreases |s|
  {
    if |s| < |p| {
    } else {
      assert s[k] in s;
      assert !(p <= s);
      ReplaceMissingChar(s[1..], p, q, k);
      assert s == [s[0]] + s[1..];
    }
  }

  /** A text that starts with the pattern, followed by a rest lacking one of
      the pattern's characters, has only that leading occurrence replaced. */
  lemma ReplaceLeading(p: string, t: string, q: string, k: nat)
    requires k < |p| && p[k] !in t
    ensures Replace(p + t, p, q) == q + t
  {
    ReplaceMissingChar(t, p, q, k);
    assert (p + t)[..|p|] == p && (p + t)[|p|..] == t;
  }

  /** Replacing a final character that occurs nowhere before it changes
      only that character. */
  lemma ReplaceFinalChar(s: string, c: char, d: char)
    requires c !in s
    ensures Replace(s + [c], [c], [d]) == s + [d]
  {
    ReplaceCharMaps(s + [c], c, d);
    var r := Replace(s + [c], [c], [d]);
    forall i | 0 <= i < |s| + 1
      ensures r[i] == (s + [d])[i]
    {
      if i < |s| {
        assert (s + [c])[i] == s[i];
        assert s[i] in s;
      }
    }
  }

  /** Replacing one character by another is a character-by-character map. */
  lemma {:induction false} ReplaceCharMaps(s: string, c: char, d: char)
    ensures var r := Replace(s, [c], [d]);
            |r| == |s| && forall i :: 0 <= i < |s| ==> r[i] == if s[i] == c then d else s[i]
    decreases |s|
  {
    if |s| == 0 {
    } else {
      ReplaceCharMaps(s[1..], c, d);
      if [c] <= s {
        assert s[0] == c;
      }
    }
  }

  /** Replacing a single character by another removes it. */
  lemma {:induction false} ReplaceCharRemoves(s: string, c: char, d: char)
    requires c != d
    ensures c !in Replace(s, [c], [d])
    decreases |s|
  {
    if |s| == 0 {
    } else {
      ReplaceCharRemoves(s[1..], c, d);
    }
  }

  /** Python's `s.split(c)` on a one-character separator: the pieces between
      separators, always at least one. */
  function Split(s: string, c: char): (r: seq<string>)
    ensures |r| >= 1
    decreases |s|
  {
    if |s| == 0 then [""]
    else
      var rest := Split(s[1..], c);
      if s[0] == c then [""] + rest else [[s[0]] + rest[0]] + rest[1..]
  }

  /** `c.join(parts)`. */
  function Join(parts: seq<string>, c: char): string
    requires |parts| >= 1
    decreases |parts|
  {
    if |parts| == 1 then parts[0] else parts[0] + [c] + Join(parts[1..], c)
  }

  /** No piece holds the separator. */
  lemma {:induction false} SplitPiecesHaveNoSeparator(s: string, c: char)
    ensures forall k :: 0 <= k < |Split(s, c)| ==> c !in Split(s, c)[k]
    decreases |s|
  {
    if |s| > 0 {
      SplitPiecesHaveNoSeparator(s[1..], c);
    }
  }

  /** There is one piece more than there are separators. */
  lemma {:induction false} SplitCount(s: string, c: char)
    ensures |Split(s, c)| == multiset(s)[c] + 1
    decreases |s|
  {
    if |s| > 0 {
      SplitCount(s[1..], c);
      assert s == [s[0]] + s[1..];
    }
  }

  /** Joining the pieces gives the text back. */
  lemma {:induction false} JoinSplit(s: string, c: char)
    ensures Join(Split(s, c), c) == s
    decreases |s|
  {
    if |s| > 0 {
      JoinSplit(s[1..], c);
      var rest := Split(s[1..], c);
      if s[0] == c {
        assert Split(s, c)[1..] == rest;
      } else {
        JoinFirst(rest, c, [s[0]]);
        assert s == [s[0]] + s[1..];
      }
    }
  }

  /** Prepending to the first piece prepends to the joined text. */
  lemma JoinFirst(parts: seq<string>, c: char, h: string)
    requires |parts| >= 1
    ensures Join([h + parts[0]] + parts[1..], c) == h + Join(parts, c)
  {
    if |parts| > 1 {
      assert ([h + parts[0]] + parts[1..])[1..] == parts[1..];
    }
  }

  /** A separator-free head is split off as one piece. */
  lemma {:induction false} SplitAfterPiece(p: string, c: char, t: string)
    requires c !in p
    ensures Split(p + [c] + t, c) == [p] + Split(t, c)
    ensures Split(p, c) == [p]
    decreases |p|
  {
    if |p| > 0 {
      assert (p + [c] + t)[1..] == p[1..] + [c] + t;
      SplitAfterPiece(p[1..], c, t);
      assert [p[0]] + p[1..] == p;
    }
  }

  /** A non-empty sequence is its first element and the rest. */
  lemma FirstSplit<T>(s: seq<T>)
    requires |s| > 0
    ensures [s[0]] + s[1..] == s
  {
  }

  /** Splitting separator-free pieces after joining them gives them back. */
  lemma {:induction false} SplitJoin(parts: seq<string>, c: char)
    requires |parts| >= 1
    requires forall k :: 0 <= k < |parts| ==> c !in parts[k]
    ensures Split(Join(parts, c), c) == parts
    decreases |parts|
  {
    SplitAfterPiece(parts[0], c, "");
    if |parts| > 1 {
      SplitJoin(parts[1..], c);
      SplitAfterPiece(parts[0], c, Join(parts[1..], c));
      FirstSplit(parts);
    }
  }
}
