/** The handful of Python `str` operations the scraper relies on, over
    `string` (a sequence of Unicode scalar values, as Python's `str` is a
    sequence of code points). */
module Text {
  import opened Wrappers

  /** Python's `str.isspace()`: the characters `str.strip()` removes. */
  predicate IsSpace(c: char) {
    || c == ' '
    || ('\t' <= c <= '\r')
    || ('\U{1C}' <= c <= '\U{1F}')
    || c == '\U{85}' || c == '\U{A0}' || c == '\U{1680}'
    || ('\U{2000}' <= c <= '\U{200A}')
    || c == '\U{2028}' || c == '\U{2029}' || c == '\U{202F}' || c == '\U{205F}'
    || c == '\U{3000}'
  }

  /** The first position at or after `i` that does not hold white space. */
  function SkipSpace(s: string, i: nat): (n: nat)
    requires i <= |s|
    ensures i <= n <= |s|
    ensures forall k :: i <= k < n ==> IsSpace(s[k])
    ensures n == |s| || !IsSpace(s[n])
    decreases |s| - i
  {
    if i < |s| && IsSpace(s[i]) then SkipSpace(s, i + 1) else i
  }

  /** The end of `s[lo..j]` once its trailing white space is dropped. */
  function SkipSpaceBack(s: string, lo: nat, j: nat): (n: nat)
    requires lo <= j <= |s|
    ensures lo <= n <= j
    ensures forall k :: n <= k < j ==> IsSpace(s[k])
    ensures n == lo || !IsSpace(s[n - 1])
    decreases j
  {
    if j > lo && IsSpace(s[j - 1]) then SkipSpaceBack(s, lo, j - 1) else j
  }

  /** `s.strip()`: `s` without its leading and trailing white space. */
  function Strip(s: string): (r: string)
    ensures r == [] || (!IsSpace(r[0]) && !IsSpace(r[|r| - 1]))
    ensures forall c :: c in r ==> c in s
    ensures (s == [] || (!IsSpace(s[0]) && !IsSpace(s[|s| - 1]))) ==> r == s
  {
    var a := SkipSpace(s, 0);
    var b := SkipSpaceBack(s, a, |s|);
    s[a..b]
  }

  /** Every character of `s` is white space. */
  predicate AllSpace(s: string) {
    forall k :: 0 <= k < |s| ==> IsSpace(s[k])
  }

  /** Stripping removes exactly the white space padding around a word. */
  lemma StripPadded(pre: string, x: string, post: string)
    requires AllSpace(pre) && AllSpace(post)
    requires x == [] || (!IsSpace(x[0]) && !IsSpace(x[|x| - 1]))
    ensures Strip(pre + x + post) == x
  {
    var s := pre + x + post;
    var a := SkipSpace(s, 0);
    assert forall k :: 0 <= k < |pre| ==> s[k] == pre[k];
    assert forall k :: |pre| + |x| <= k < |s| ==> s[k] == post[k - |pre| - |x|];
    if x == [] {
      assert a == |s|;
    } else {
      assert s[|pre|] == x[0] && s[|pre| + |x| - 1] == x[|x| - 1];
      assert a == |pre|;
      assert SkipSpaceBack(s, a, |s|) == |pre| + |x|;
      assert s[|pre|..|pre| + |x|] == x;
    }
  }

  /** Lower-casing of one character; only the ASCII letters are mapped. */
  function LowerChar(c: char): char {
    if 'A' <= c <= 'Z' then (c as int + 32) as char else c
  }

  /** `s.lower()`, restricted to ASCII letters. */
  function Lower(s: string): (r: string)
    ensures |r| == |s|
    ensures forall i :: 0 <= i < |s| ==> r[i] == LowerChar(s[i])
  {
    seq(|s|, i requires 0 <= i < |s| => LowerChar(s[i]))
  }

  /** An occurrence of a word without upper-case ASCII letters survives lower-casing. */
  lemma LowerKeepsLowerCaseOccurrence(s: string, k: string, i: int)
    requires OccursAt(s, k, i)
    requires forall j :: 0 <= j < |k| ==> !('A' <= k[j] <= 'Z')
    ensures OccursAt(Lower(s), k, i)
  {
  }

  /** Lower-casing works part by part. */
  lemma LowerConcat(a: string, b: string)
    ensures Lower(a + b) == Lower(a) + Lower(b)
  {
  }

  /** An occurrence inside a part is an occurrence in the whole. */
  lemma OccursWithin(a: string, s: string, b: string, k: string, i: int)
    requires OccursAt(s, k, i)
    ensures OccursAt(a + s + b, k, |a| + i)
  {
    assert (a + s + b)[|a| + i..|a| + i + |k|] == s[i..i + |k|];
  }

  /** `s.startswith(p)`. */
  predicate StartsWith(s: string, p: string) {
    |p| <= |s| && s[..|p|] == p
  }

  /** `s.endswith(p)`. */
  predicate EndsWith(s: string, p: string) {
    |p| <= |s| && s[|s| - |p|..] == p
  }

  /** `k` occurs in `s` starting at index `i`. */
  predicate OccursAt(s: string, k: string, i: int) {
    0 <= i && i + |k| <= |s| && s[i..i + |k|] == k
  }

  /** A word placed between two texts occurs right after the first. */
  lemma OccursBetween(a: string, k: string, b: string)
    ensures OccursAt(a + k + b, k, |a|)
  {
    assert (a + k + b)[|a|..|a| + |k|] == k;
  }

  /** `k` occurs somewhere in `s`: the meaning of Python's `k in s`. */
  ghost predicate Occurs(s: string, k: string) {
    exists i :: OccursAt(s, k, i)
  }

  lemma OccursShift(s: string, k: string)
    requires |s| > 0
    ensures forall j :: 1 <= j ==> (OccursAt(s, k, j) <==> OccursAt(s[1..], k, j - 1))
  {
  }

  /** `s.find(k)` as an option: the first index at which `k` occurs. */
  function FindFirst(s: string, k: string): (r: Option<nat>)
    ensures r.Some? ==> OccursAt(s, k, r.value)
    ensures r.Some? ==> forall j :: 0 <= j < r.value ==> !OccursAt(s, k, j)
    ensures r.None? ==> forall j :: !OccursAt(s, k, j)
    decreases |s|
  {
    if |k| > |s| then None
    else if s[..|k|] == k then Some(0)
    else
      OccursShift(s, k);
      match FindFirst(s[1..], k)
      case None => None
      case Some(i) => Some(i + 1)
  }

  /** Python's `k in s` on strings. */
  function Contains(s: string, k: string): (b: bool)
    ensures b <==> Occurs(s, k)
  {
    FindFirst(s, k).Some?
  }

  /** `s.index(c)` as an option: the first position of character `c`. */
  function FirstIndexOf(s: string, c: char): (r: Option<nat>)
    ensures r.None? <==> c !in s
    ensures r.Some? ==> r.value < |s| && s[r.value] == c
    ensures r.Some? ==> forall k :: 0 <= k < r.value ==> s[k] != c
    decreases |s|
  {
    if |s| == 0 then None
    else if s[0] == c then Some(0)
    else
      match FirstIndexOf(s[1..], c)
      case None => None
      case Some(i) => Some(i + 1)
  }

  /** `s.rindex(c)` as an option: the last position of character `c`. */
  function LastIndexOf(s: string, c: char): (r: Option<nat>)
    ensures r.None? <==> c !in s
    ensures r.Some? ==> r.value < |s| && s[r.value] == c
    ensures r.Some? ==> forall k :: r.value < k < |s| ==> s[k] != c
    decreases |s|
  {
    if |s| == 0 then None
    else if s[|s| - 1] == c then Some(|s| - 1)
    else
      assert s == s[..|s| - 1] + [s[|s| - 1]];
      LastIndexOf(s[..|s| - 1], c)
  }

  /** `s.replace(a, b)` for single characters. */
  function ReplaceChar(s: string, a: char, b: char): (r: string)
    ensures |r| == |s|
    ensures a != b ==> a !in r
    ensures forall i :: 0 <= i < |s| && s[i] != a ==> r[i] == s[i]
    ensures forall i :: 0 <= i < |s| && s[i] == a ==> r[i] == b
  {
    seq(|s|, i requires 0 <= i < |s| => if s[i] == a then b else s[i])
  }

  lemma ReplaceAbsentChar(s: string, a: char, b: char)
    requires a !in s
    ensures ReplaceChar(s, a, b) == s
  {
  }

  /** `sep.join(parts)`. */
  function Join(parts: seq<string>, sep: string): (r: string)
    ensures parts == [] ==> r == ""
    ensures |parts| == 1 ==> r == parts[0]
    decreases |parts|
  {
    if |parts| == 0 then ""
    else if |parts| == 1 then parts[0]
    else parts[0] + sep + Join(parts[1..], sep)
  }

  /** Splits `s` at every occurrence of the non-empty separator `sep`; the
      empty string splits into no parts. This is the inverse of `Join` on
      parts that are non-empty and free of the separator's first character. */
  function Split(s: string, sep: string): seq<string>
    requires |sep| > 0
    decreases |s|
  {
    if s == [] then []
    else
      match FindFirst(s, sep)
      case None => [s]
      case Some(i) => [s[..i]] + Split(s[i + |sep|..], sep)
  }

  /** In `t + sep + rest`, the first separator is the one right after `t`
      when `t` does not contain the separator's first character. */
  lemma FirstSeparatorAfterPart(t: string, sep: string, rest: string)
    requires |sep| > 0 && sep[0] !in t
    ensures FindFirst(t + sep + rest, sep) == Some(|t|)
  {
    var s := t + sep + rest;
    assert OccursAt(s, sep, |t|) by {
      assert s[|t|..|t| + |sep|] == sep;
    }
    forall j | 0 <= j < |t|
      ensures !OccursAt(s, sep, j)
    {
      assert s[j] == t[j];
      if j + |sep| <= |s| {
        assert s[j..j + |sep|][0] == s[j];
      }
    }
  }

  lemma {:induction false} SplitJoin(parts: seq<string>, sep: string)
    requires |sep| > 0
    requires forall i :: 0 <= i < |parts| ==> parts[i] != [] && sep[0] !in parts[i]
    ensures Split(Join(parts, sep), sep) == parts
    decreases |parts|
  {
    if |parts| == 0 {
    } else if |parts| == 1 {
      var t := parts[0];
      forall j
        ensures !OccursAt(t, sep, j)
      {
        if 0 <= j && j + |sep| <= |t| {
          assert t[j..j + |sep|][0] == t[j];
        }
      }
    } else {
      var t := parts[0];
      var rest := Join(parts[1..], sep);
      FirstSeparatorAfterPart(t, sep, rest);
      var s := t + sep + rest;
      assert s[..|t|] == t;
      assert s[|t| + |sep|..] == rest;
      SplitJoin(parts[1..], sep);
      assert parts == [t] + parts[1..];
    }
  }
}
