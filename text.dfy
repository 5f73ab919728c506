/** String primitives with the meaning Python gives them: the whitespace set of
    str.isspace(), the line boundaries of str.splitlines(), str.strip(),
    str.startswith, the `in` substring test and str.replace(old, ""). */
module Text {

  /** The 29 characters for which Python's str.isspace() is true; str.strip()
      and str.split() with no argument use exactly this set. */
  predicate IsSpace(c: char) {
    || c == ' '
    || ('\t' <= c <= '\r')
    || ('\U{1C}' <= c <= '\U{1F}')
    || c == '\U{85}' || c == '\U{A0}' || c == '\U{1680}'
    || ('\U{2000}' <= c <= '\U{200A}')
    || c == '\U{2028}' || c == '\U{2029}'
    || c == '\U{202F}' || c == '\U{205F}' || c == '\U{3000}'
  }

  /** The line boundaries of Python's str.splitlines(). */
  predicate IsLineBreak(c: char) {
    || c == '\n' || c == '\r' || c == '\U{B}' || c == '\U{C}'
    || c == '\U{1C}' || c == '\U{1D}' || c == '\U{1E}'
    || c == '\U{85}' || c == '\U{2028}' || c == '\U{2029}'
  }

  predicate NoSpace(s: string) {
    forall i :: 0 <= i < |s| ==> !IsSpace(s[i])
  }

  predicate NoLineBreak(s: string) {
    forall i :: 0 <= i < |s| ==> !IsLineBreak(s[i])
  }

  /** `a` can be obtained from `b` by deleting characters. */
  ghost predicate IsSubsequence(a: string, b: string)
    decreases |b|
  {
    || a == []
    || (b != [] && ((a[0] == b[0] && IsSubsequence(a[1..], b[1..])) || IsSubsequence(a, b[1..])))
  }

  lemma {:induction false} SubsequenceRefl(s: string)
    ensures IsSubsequence(s, s)
    decreases |s|
  {
    if s != [] {
      SubsequenceRefl(s[1..]);
    }
  }

  /** Deleting a prefix of the larger string keeps the relation. */
  lemma {:induction false} SubsequenceOfSuffix(a: string, b: string, k: nat)
    requires k <= |b| && IsSubsequence(a, b[k..])
    ensures IsSubsequence(a, b)
    decreases k
  {
    if k > 0 {
      assert b[1..][k - 1..] == b[k..];
      SubsequenceOfSuffix(a, b[1..], k - 1);
    }
  }

  /** The characters of `s` that satisfy `keep`, in order. */
  function Filter(s: string, keep: char -> bool): (r: string)
    ensures |r| <= |s|
    ensures forall i :: 0 <= i < |r| ==> keep(r[i])
  {
    if s == [] then [] else (if keep(s[0]) then [s[0]] else []) + Filter(s[1..], keep)
  }

  lemma {:induction false} FilterConcat(a: string, b: string, keep: char -> bool)
    ensures Filter(a + b, keep) == Filter(a, keep) + Filter(b, keep)
    decreases |a|
  {
    if a != [] {
      var head := if keep(a[0]) then [a[0]] else [];
      assert (a + b)[0] == a[0] && (a + b)[1..] == a[1..] + b;
      assert Filter(a + b, keep) == head + Filter(a[1..] + b, keep);
      FilterConcat(a[1..], b, keep);
    } else {
      assert a + b == b;
    }
  }

  /** Filtering keeps a string whose every character passes. */
  lemma {:induction false} FilterKeepsAll(s: string, keep: char -> bool)
    requires forall i :: 0 <= i < |s| ==> keep(s[i])
    ensures Filter(s, keep) == s
    decreases |s|
  {
    if s != [] {
      FilterKeepsAll(s[1..], keep);
    }
  }

  /** Filtering drops a string whose every character fails. */
  lemma {:induction false} FilterDropsAll(s: string, keep: char -> bool)
    requires forall i :: 0 <= i < |s| ==> !keep(s[i])
    ensures Filter(s, keep) == []
    decreases |s|
  {
    if s != [] {
      FilterDropsAll(s[1..], keep);
    }
  }

  lemma {:induction false} FilterSubsequence(s: string, keep: char -> bool)
    ensures IsSubsequence(Filter(s, keep), s)
    decreases |s|
  {
    if s != [] {
      FilterSubsequence(s[1..], keep);
      var r := Filter(s, keep);
      if keep(s[0]) {
        assert r[0] == s[0] && r[1..] == Filter(s[1..], keep);
      } else {
        assert r == Filter(s[1..], keep);
      }
    }
  }

  predicate NotSpace(c: char) {
    !IsSpace(c)
  }

  /** Python's str.lstrip(): drop leading whitespace. */
  function StripLeft(s: string): (r: string)
    ensures |r| <= |s| && r == s[|s| - |r|..]
    ensures r == [] || !IsSpace(r[0])
  {
    if s != [] && IsSpace(s[0]) then StripLeft(s[1..]) else s
  }

  /** What lstrip() drops is whitespace. */
  lemma {:induction false} StripLeftDropsSpace(s: string)
    ensures forall i :: 0 <= i < |s| - |StripLeft(s)| ==> IsSpace(s[i])
    decreases |s|
  {
    if s != [] && IsSpace(s[0]) {
      StripLeftDropsSpace(s[1..]);
      forall i | 1 <= i < |s| - |StripLeft(s)| ensures IsSpace(s[i]) {
        assert s[i] == s[1..][i - 1];
      }
    }
  }

  /** Python's str.rstrip(): drop trailing whitespace. */
  function StripRight(s: string): (r: string)
    ensures |r| <= |s| && r == s[..|r|]
    ensures r == [] || !IsSpace(r[|r| - 1])
  {
    if s != [] && IsSpace(s[|s| - 1]) then StripRight(s[..|s| - 1]) else s
  }

  /** What rstrip() drops is whitespace. */
  lemma {:induction false} StripRightDropsSpace(s: string)
    ensures forall i :: |StripRight(s)| <= i < |s| ==> IsSpace(s[i])
    decreases |s|
  {
    if s != [] && IsSpace(s[|s| - 1]) {
      StripRightDropsSpace(s[..|s| - 1]);
      forall i | |StripRight(s)| <= i < |s| - 1 ensures IsSpace(s[i]) {
        assert s[i] == s[..|s| - 1][i];
      }
    }
  }

  /** No whitespace at either end. */
  predicate IsStripped(s: string) {
    s == [] || (!IsSpace(s[0]) && !IsSpace(s[|s| - 1]))
  }

  /** Python's str.strip(): whitespace dropped at both ends. */
  function Strip(s: string): (r: string)
    ensures IsStripped(r)
  {
    StripRight(StripLeft(s))
  }

  /** The strip of `s` is the contiguous slice of it that starts where
      the leading whitespace ends. */
  lemma StripIsSlice(s: string)
    ensures var a, r := |s| - |StripLeft(s)|, Strip(s);
      a + |r| <= |s| && r == s[a..a + |r|]
  {
    var t := StripLeft(s);
    var r := StripRight(t);
    var a := |s| - |t|;
    assert t == s[a..];
    assert r == t[..|r|];
    forall i | 0 <= i < |r| ensures r[i] == s[a + i] {
      assert r[i] == t[i];
    }
  }

  /** What the strip leaves out of `s`, on either side, is whitespace. */
  lemma StripDropsSpace(s: string)
    ensures var a, r := |s| - |StripLeft(s)|, Strip(s);
      && (forall i :: 0 <= i < a ==> IsSpace(s[i]))
      && (forall i :: a + |r| <= i < |s| ==> IsSpace(s[i]))
  {
    var t := StripLeft(s);
    var r := StripRight(t);
    var a := |s| - |t|;
    assert t == s[a..];
    StripLeftDropsSpace(s);
    StripRightDropsSpace(t);
    forall i | a + |r| <= i < |s| ensures IsSpace(s[i]) {
      assert s[i] == t[i - a];
    }
  }

  /** A string without whitespace at either end is its own strip. */
  lemma StripStripped(s: string)
    requires IsStripped(s)
    ensures Strip(s) == s
  {
  }

  /** Leading whitespace does not change the strip. */
  lemma {:induction false} StripLeadingSpace(c: char, s: string)
    requires IsSpace(c)
    ensures Strip([c] + s) == Strip(s)
  {
    assert ([c] + s)[1..] == s;
  }

  /** Python's str.startswith. */
  predicate StartsWith(s: string, p: string) {
    |p| <= |s| && s[..|p|] == p
  }

  /** Python's substring test `p in s`, scanning each start position. */
  predicate Contains(s: string, p: string)
    decreases |s|
  {
    StartsWith(s, p) || (s != [] && Contains(s[1..], p))
  }

  /** A string in which some character of `p` never occurs does not contain
      `p`. */
  lemma {:induction false} MissingCharNotContained(s: string, p: string, k: nat)
    requires k < |p| && forall i :: 0 <= i < |s| ==> s[i] != p[k]
    ensures !Contains(s, p)
    decreases |s|
  {
    assert !StartsWith(s, p) by {
      if |p| <= |s| {
        assert s[..|p|][k] == s[k] != p[k];
      }
    }
    if s != [] {
      MissingCharNotContained(s[1..], p, k);
    }
  }

  /** Python's s.replace(pat, ""): occurrences found left to right without
      overlap in the ORIGINAL string are deleted; the result is not rescanned,
      so deleting can join two halves into a new occurrence. */
  function RemoveAll(s: string, pat: string): (r: string)
    ensures |r| <= |s|
    decreases |s|
  {
    if pat == [] || |s| < |pat| then s
    else if s[..|pat|] == pat then RemoveAll(s[|pat|..], pat)
    else [s[0]] + RemoveAll(s[1..], pat)
  }

  /** A text without the pattern is left as it is. */
  lemma {:induction false} RemoveAllAbsent(s: string, pat: string)
    requires !Contains(s, pat)
    ensures RemoveAll(s, pat) == s
    decreases |s|
  {
    if pat != [] && |pat| <= |s| {
      assert !StartsWith(s, pat);
      RemoveAllAbsent(s[1..], pat);
    }
  }

  /** A text containing the pattern is at least as long as the pattern. */
  lemma {:induction false} ContainsLength(s: string, p: string)
    requires Contains(s, p)
    ensures |p| <= |s|
    decreases |s|
  {
    if !StartsWith(s, p) {
      ContainsLength(s[1..], p);
    }
  }

  /** When the pattern occurs, at least one occurrence is deleted. */
  lemma {:induction false} RemoveAllShortens(s: string, pat: string)
    requires pat != [] && Contains(s, pat)
    ensures |RemoveAll(s, pat)| + |pat| <= |s|
    decreases |s|
  {
    ContainsLength(s, pat);
    if s[..|pat|] != pat {
      assert !StartsWith(s, pat);
      RemoveAllShortens(s[1..], pat);
    }
  }

  /** No occurrence at the front: the first character is kept. */
  lemma RemoveAllSkip(s: string, pat: string)
    requires pat != [] && |pat| <= |s| && !StartsWith(s, pat)
    ensures RemoveAll(s, pat) == [s[0]] + RemoveAll(s[1..], pat)
  {
  }

  /** An occurrence at k > 0 with none ending before it, seen from `s[1..]`. */
  lemma ShiftOccurrence(s: string, pat: string, k: nat)
    requires pat != [] && 0 < k && k + |pat| <= |s| && s[k..k + |pat|] == pat
    requires !Contains(s[..k + |pat| - 1], pat)
    ensures s[1..][k - 1..k - 1 + |pat|] == pat
    ensures !Contains(s[1..][..k - 1 + |pat| - 1], pat)
    ensures !StartsWith(s, pat)
  {
    ShiftSlice(s, k, |pat|);
    NoEarlierOccurrence(s, pat, s[..k + |pat| - 1]);
  }

  lemma ShiftSlice(s: string, k: nat, n: nat)
    requires 0 < k && k + n <= |s|
    ensures s[1..][k - 1..k - 1 + n] == s[k..k + n]
  {
  }

  /** A prefix of `s`, at least as long as `pat`, without `pat` in it: `s`
      does not start with `pat`, and neither does the prefix of `s[1..]`. */
  lemma NoEarlierOccurrence(s: string, pat: string, x: string)
    requires |pat| <= |x| && 0 < |x| <= |s| && x == s[..|x|] && !Contains(x, pat)
    ensures !Contains(s[1..][..|x| - 1], pat)
    ensures !StartsWith(s, pat)
  {
    assert !StartsWith(x, pat) && !Contains(x[1..], pat);
    assert x[1..] == s[1..][..|x| - 1];
    assert x[..|pat|] == s[..|pat|];
  }

  /** The scan keeps everything before the first occurrence of the pattern,
      deletes that occurrence and goes on after it. The occurrence at k is
      the first when no occurrence ends before it. */
  lemma {:induction false} RemoveAllFirst(s: string, pat: string, k: nat)
    requires pat != [] && k + |pat| <= |s| && s[k..k + |pat|] == pat
    requires !Contains(s[..k + |pat| - 1], pat)
    ensures RemoveAll(s, pat) == s[..k] + RemoveAll(s[k + |pat|..], pat)
    decreases k
  {
    if k == 0 {
      assert s[..|pat|] == s[0..|pat|];
      assert RemoveAll(s, pat) == RemoveAll(s[|pat|..], pat);
      assert s[..0] == [];
    } else {
      var t := s[1..];
      ShiftOccurrence(s, pat, k);
      RemoveAllSkip(s, pat);
      RemoveAllFirst(t, pat, k - 1);
      assert t[k - 1 + |pat|..] == s[k + |pat|..];
      PrependFirst(s, RemoveAll(s, pat), RemoveAll(t, pat), RemoveAll(s[k + |pat|..], pat), k);
    }
  }

  /** Gluing step of RemoveAllFirst, stated without RemoveAll. */
  lemma PrependFirst(s: string, whole: string, tail: string, rest: string, k: nat)
    requires 0 < k <= |s|
    requires whole == [s[0]] + tail && tail == s[1..][..k - 1] + rest
    ensures whole == s[..k] + rest
  {
    assert [s[0]] + s[1..][..k - 1] == s[..k];
  }

  lemma {:induction false} RemoveAllSubsequence(s: string, pat: string)
    ensures IsSubsequence(RemoveAll(s, pat), s)
    decreases |s|
  {
    if pat == [] || |s| < |pat| {
      SubsequenceRefl(s);
    } else if s[..|pat|] == pat {
      RemoveAllSubsequence(s[|pat|..], pat);
      SubsequenceOfSuffix(RemoveAll(s, pat), s, |pat|);
    } else {
      RemoveAllSubsequence(s[1..], pat);
      assert ([s[0]] + RemoveAll(s[1..], pat))[1..] == RemoveAll(s[1..], pat);
    }
  }

  /** Index of the first line boundary of `s`, or |s| when there is none. */
  function FirstBreak(s: string): (k: nat)
    ensures k <= |s|
    ensures forall i :: 0 <= i < k ==> !IsLineBreak(s[i])
    ensures k < |s| ==> IsLineBreak(s[k])
  {
    if s == [] || IsLineBreak(s[0]) then 0 else 1 + FirstBreak(s[1..])
  }

  /** Python's str.splitlines(): "\r\n" is one boundary and a boundary at the
      very end does not open an empty last line. */
  function SplitLines(s: string): (lines: seq<string>)
    ensures forall i :: 0 <= i < |lines| ==> NoLineBreak(lines[i])
    decreases |s|
  {
    if s == [] then []
    else
      var k := FirstBreak(s);
      if k == |s| then [s]
      else
        var next := if s[k] == '\r' && k + 1 < |s| && s[k + 1] == '\n' then k + 2 else k + 1;
        [s[..k]] + SplitLines(s[next..])
  }

  /** Python's "\n".join(lines). */
  function JoinLines(lines: seq<string>): string
  {
    if |lines| == 0 then ""
    else if |lines| == 1 then lines[0]
    else lines[0] + "\n" + JoinLines(lines[1..])
  }

  lemma {:induction false} FirstBreakAt(a: string, b: string)
    requires NoLineBreak(a)
    requires b == [] || IsLineBreak(b[0])
    ensures FirstBreak(a + b) == |a|
    decreases |a|
  {
    if a != [] {
      assert (a + b)[1..] == a[1..] + b;
      FirstBreakAt(a[1..], b);
    }
  }

  /** Splitting undoes joining with "\n", provided no line holds a boundary
      and the last line is not empty (a trailing "\n" opens no line). */
  lemma {:induction false} SplitJoinLines(lines: seq<string>)
    requires forall i :: 0 <= i < |lines| ==> NoLineBreak(lines[i])
    requires lines == [] || lines[|lines| - 1] != []
    ensures SplitLines(JoinLines(lines)) == lines
    decreases |lines|
  {
    if |lines| == 1 {
      FirstBreakAt(lines[0], []);
      assert lines[0] + [] == lines[0];
    } else if |lines| > 1 {
      var rest := JoinLines(lines[1..]);
      var k := |lines[0]|;
      var s := lines[0] + ("\n" + rest);
      assert JoinLines(lines) == s;
      FirstBreakAt(lines[0], "\n" + rest);
      assert s[k] == '\n';
      assert s[..k] == lines[0];
      assert s[k + 1..] == rest;
      assert SplitLines(s) == [lines[0]] + SplitLines(rest);
      SplitJoinLines(lines[1..]);
      assert [lines[0]] + lines[1..] == lines;
    }
  }
}
