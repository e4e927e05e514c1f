/** String primitives shared by the form validator and the LaTeX formatter:
    counting a character, searching for a substring, the greedy prefix a
    character class matches, and JavaScript's global `replace` with a literal
    pattern. */
module Strings {

  predicate StartsWith(s: string, p: string) {
    |p| <= |s| && s[..|p|] == p
  }

  predicate EndsWith(s: string, p: string) {
    |p| <= |s| && s[|s| - |p|..] == p
  }

  /** `p` occurs in `s` starting at index `i`. */
  predicate OccursAt(s: string, p: string, i: int) {
    0 <= i && i + |p| <= |s| && s[i..i + |p|] == p
  }

  /** `(s.match(/c/g) || []).length`: how often `c` occurs in `s`. */
  function CountChar(s: string, c: char): (n: nat)
    ensures n == multiset(s)[c]
  {
    if s == [] then 0
    else
      assert s == [s[0]] + s[1..];
      (if s[0] == c then 1 else 0) + CountChar(s[1..], c)
  }

  /** A text framed by `prefix` and `suffix` starts with the one and ends
      with the middle and the other, and has their lengths' sum. */
  lemma Framed(prefix: string, middle: string, suffix: string)
    ensures StartsWith(prefix + middle + suffix, prefix)
    ensures EndsWith(prefix + middle + suffix, middle + suffix)
    ensures |prefix + middle + suffix| == |prefix| + |middle| + |suffix|
  {
    var s := prefix + middle + suffix;
    assert s[..|prefix|] == prefix;
    assert s[|s| - |middle + suffix|..] == middle + suffix;
  }

  /** `s.includes(p)`. */
  function Includes(s: string, p: string): (b: bool)
    ensures b <==> exists i :: OccursAt(s, p, i)
    decreases |s|
  {
    if StartsWith(s, p) then
      assert OccursAt(s, p, 0);
      true
    else if s == [] then false
    else
      OccursAtShift(s, p);
      Includes(s[1..], p)
  }

  /** The occurrences in `s[1..]` are those in `s` after index 0, shifted by one. */
  lemma OccursAtShift(s: string, p: string)
    requires s != []
    ensures forall i :: OccursAt(s[1..], p, i) ==> OccursAt(s, p, i + 1)
    ensures forall i :: OccursAt(s, p, i) && i > 0 ==> OccursAt(s[1..], p, i - 1)
  {
    forall i | OccursAt(s[1..], p, i)
      ensures OccursAt(s, p, i + 1)
    {
      TailSlice(s, i, i + |p|);
    }
    forall i | OccursAt(s, p, i) && i > 0
      ensures OccursAt(s[1..], p, i - 1)
    {
      TailSlice(s, i - 1, i - 1 + |p|);
    }
  }

  lemma TailSlice(s: string, lo: int, hi: int)
    requires 0 <= lo <= hi < |s|
    ensures s[1..][lo..hi] == s[lo + 1..hi + 1]
  {
  }

  /** The length of the longest prefix of `s` whose characters all satisfy
      `p`: what a greedy `[...]*` matches at the start of `s`. */
  function SpanLength(s: string, p: char -> bool): (n: nat)
    ensures n <= |s|
    ensures forall i :: 0 <= i < n ==> p(s[i])
    ensures n < |s| ==> !p(s[n])
  {
    if s == [] || !p(s[0]) then 0 else 1 + SpanLength(s[1..], p)
  }

  /** `s.replace(/pat/g, rep)` for a pattern without metacharacters: the
      occurrences of `pat` are found from left to right without overlapping,
      each is replaced by `rep`, and the inserted text is never searched again. */
  function ReplaceAll(s: string, pat: string, rep: string): string
    requires pat != []
    decreases |s|
  {
    if s == [] then []
    else if StartsWith(s, pat) then rep + ReplaceAll(s[|pat|..], pat, rep)
    else [s[0]] + ReplaceAll(s[1..], pat, rep)
  }

  /** A text without an occurrence of the pattern comes back unchanged. */
  lemma {:induction false} ReplaceAllNoOccurrence(s: string, pat: string, rep: string)
    requires pat != []
    requires !Includes(s, pat)
    ensures ReplaceAll(s, pat, rep) == s
    decreases |s|
  {
    if s != [] {
      assert !OccursAt(s, pat, 0);
      assert forall i :: OccursAt(s[1..], pat, i) ==> OccursAt(s, pat, i + 1);
      ReplaceAllNoOccurrence(s[1..], pat, rep);
    }
  }

  /** A text that lacks some character of the pattern comes back unchanged. */
  lemma {:induction false} ReplaceAllAbsent(s: string, pat: string, rep: string, c: char)
    requires pat != [] && c in pat && c !in s
    ensures ReplaceAll(s, pat, rep) == s
    decreases |s|
  {
    if s != [] {
      ReplaceAllAbsent(s[1..], pat, rep, c);
    }
  }

  /** Every character of the result comes from the replacement or from the
      input, and a one-character pattern leaves none of its character behind. */
  lemma {:induction false} ReplaceAllChars(s: string, pat: string, rep: string, c: char)
    requires pat != []
    requires c in ReplaceAll(s, pat, rep)
    ensures c in rep || (c in s && pat != [c])
    decreases |s|
  {
    if s == [] {
    } else if StartsWith(s, pat) {
      if c !in rep {
        ReplaceAllChars(s[|pat|..], pat, rep, c);
      }
    } else if c != s[0] || pat == [c] {
      assert pat == [c] ==> s[0] != c;
      ReplaceAllChars(s[1..], pat, rep, c);
    }
  }

  /** A character that neither the pattern nor the replacement contains
      occurs as often after the replacement as before it. */
  lemma {:induction false} ReplaceAllKeepsCount(s: string, pat: string, rep: string, c: char)
    requires pat != []
    requires c !in pat && c !in rep
    ensures CountChar(ReplaceAll(s, pat, rep), c) == CountChar(s, c)
    decreases |s|
  {
    if s == [] {
    } else if StartsWith(s, pat) {
      ReplaceAllKeepsCount(s[|pat|..], pat, rep, c);
      assert s == pat + s[|pat|..];
      assert multiset(pat)[c] == 0 && multiset(rep)[c] == 0;
    } else {
      ReplaceAllKeepsCount(s[1..], pat, rep, c);
      assert s == [s[0]] + s[1..];
    }
  }

  /** No occurrence of `pat` in `a + b` begins inside `a` and ends inside `b`. */
  predicate NoOccurrenceAcross(a: string, b: string, pat: string) {
    forall i :: 0 <= i < |a| < i + |pat| ==> !OccursAt(a + b, pat, i)
  }

  /** Dropping the first `k` characters of `a` keeps the boundary clear. */
  lemma NoOccurrenceAcrossDrop(a: string, b: string, pat: string, k: nat)
    requires k <= |a|
    requires NoOccurrenceAcross(a, b, pat)
    ensures NoOccurrenceAcross(a[k..], b, pat)
  {
    var a' := a[k..];
    assert a' + b == (a + b)[k..];
    forall i | 0 <= i < |a'| < i + |pat|
      ensures !OccursAt(a' + b, pat, i)
    {
      assert !OccursAt(a + b, pat, i + k);
    }
  }

  /** Where no occurrence straddles the boundary, replacing in `a + b` is
      replacing in `a` and in `b` separately. */
  lemma {:induction false} ReplaceAllAppend(a: string, b: string, pat: string, rep: string)
    requires pat != []
    requires NoOccurrenceAcross(a, b, pat)
    ensures ReplaceAll(a + b, pat, rep) == ReplaceAll(a, pat, rep) + ReplaceAll(b, pat, rep)
    decreases |a|
  {
    if a == [] {
      assert a + b == b;
    } else if StartsWith(a + b, pat) {
      assert OccursAt(a + b, pat, 0);
      assert |pat| <= |a|;
      assert StartsWith(a, pat) by {
        assert a[..|pat|] == (a + b)[..|pat|];
      }
      assert (a + b)[|pat|..] == a[|pat|..] + b;
      NoOccurrenceAcrossDrop(a, b, pat, |pat|);
      ReplaceAllAppend(a[|pat|..], b, pat, rep);
    } else {
      assert (a + b)[1..] == a[1..] + b;
      NoOccurrenceAcrossDrop(a, b, pat, 1);
      ReplaceAllAppend(a[1..], b, pat, rep);
    }
  }

  /** An occurrence of `pat` that does not overlap an earlier one is
      replaced by exactly `rep`. */
  lemma ReplaceAllAt(a: string, b: string, pat: string, rep: string)
    requires pat != []
    requires NoOccurrenceAcross(a, pat + b, pat)
    ensures ReplaceAll(a + pat + b, pat, rep) == ReplaceAll(a, pat, rep) + rep + ReplaceAll(b, pat, rep)
  {
    assert a + pat + b == a + (pat + b);
    ReplaceAllAppend(a, pat + b, pat, rep);
    assert (pat + b)[|pat|..] == b;
    assert StartsWith(pat + b, pat);
  }
}
