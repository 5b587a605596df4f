/** Character classes and the few operations of the JavaScript string library that the
    tracker and the two request handlers use. A string is a sequence of Unicode scalar
    values. */
module Strings {

  /** The code points JavaScript counts as white space: the WhiteSpace and
      LineTerminator productions, the set used both by `String.prototype.trim` and by
      the `\s` class of a regular expression. */
  predicate IsSpace(c: char) {
    || c == '\t' || c == '\n' || c == '\U{000B}' || c == '\U{000C}' || c == '\r' || c == ' '
    || c == '\U{00A0}' || c == '\U{1680}' || ('\U{2000}' <= c <= '\U{200A}')
    || c == '\U{2028}' || c == '\U{2029}' || c == '\U{202F}' || c == '\U{205F}'
    || c == '\U{3000}' || c == '\U{FEFF}'
  }

  predicate AllSpace(s: string) {
    forall i :: 0 <= i < |s| ==> IsSpace(s[i])
  }

  /** `k` occurs in `s` starting at index `i`. */
  predicate OccursAt(s: string, k: string, i: int) {
    0 <= i && i + |k| <= |s| && s[i..i + |k|] == k
  }

  /** `s.startsWith(p)`. */
  predicate StartsWith(s: string, p: string) {
    |p| <= |s| && s[..|p|] == p
  }

  /** `s.includes(k)`: `k` occurs somewhere in `s`. */
  predicate Includes(s: string, k: string) {
    exists i :: 0 <= i <= |s| - |k| && OccursAt(s, k, i)
  }

  /** Where `k` occurs at `i`, each of its characters is found at its offset from `i`. */
  lemma OccursAtChar(s: string, k: string, i: int, m: int)
    requires OccursAt(s, k, i) && 0 <= m < |k|
    ensures s[i + m] == k[m]
  {
    assert s[i..i + |k|][m] == s[i + m];
  }

  /** A string lacking one of the characters of `k` does not include `k`. */
  lemma LacksCharNotIncluded(s: string, k: string, m: int)
    requires 0 <= m < |k| && forall j :: 0 <= j < |s| ==> s[j] != k[m]
    ensures !Includes(s, k)
  {
    forall i | 0 <= i <= |s| - |k| ensures !OccursAt(s, k, i) {
      if OccursAt(s, k, i) {
        OccursAtChar(s, k, i, m);
      }
    }
  }

  /** The index of the first character at or after `i` that is not white space, or
      `|s|` when there is none. */
  function SkipSpace(s: string, i: nat): (n: nat)
    requires i <= |s|
    ensures i <= n <= |s|
    ensures forall k :: i <= k < n ==> IsSpace(s[k])
    ensures n == |s| || !IsSpace(s[n])
    decreases |s| - i
  {
    if i < |s| && IsSpace(s[i]) then SkipSpace(s, i + 1) else i
  }

  /** The index just after the last character before `j`, and at or after `lo`, that is
      not white space, or `lo` when there is none. */
  function SkipSpaceBack(s: string, lo: nat, j: nat): (n: nat)
    requires lo <= j <= |s|
    ensures lo <= n <= j
    ensures forall k :: n <= k < j ==> IsSpace(s[k])
    ensures n == lo || !IsSpace(s[n - 1])
    decreases j
  {
    if lo < j && IsSpace(s[j - 1]) then SkipSpaceBack(s, lo, j - 1) else j
  }

  /** `s.trim()`: the middle of `s` left once white space is cut from both ends; `i` is
      where the leading white space ends. */
  function Trim(s: string): (r: string)
    ensures var i := SkipSpace(s, 0);
            && i + |r| <= |s| && r == s[i..i + |r|]
            && AllSpace(s[..i]) && AllSpace(s[i + |r|..])
    ensures r == [] || (!IsSpace(r[0]) && !IsSpace(r[|r| - 1]))
  {
    var i := SkipSpace(s, 0);
    var j := SkipSpaceBack(s, i, |s|);
    SpaceAround(s, i, j);
    s[i..j]
  }

  /** Where only white space precedes `i` and follows `j`, and neither end of `s[i..j]`
      is white space, those facts hold of the slices too. */
  lemma SpaceAround(s: string, i: nat, j: nat)
    requires i <= j <= |s|
    requires forall k :: 0 <= k < i ==> IsSpace(s[k])
    requires forall k :: j <= k < |s| ==> IsSpace(s[k])
    requires i == |s| || !IsSpace(s[i])
    requires j == i || !IsSpace(s[j - 1])
    ensures AllSpace(s[..i]) && AllSpace(s[j..])
    ensures s[i..j] == [] || (!IsSpace(s[i..j][0]) && !IsSpace(s[i..j][j - i - 1]))
  {
    assert forall k :: 0 <= k < i ==> s[..i][k] == s[k];
    assert forall k :: 0 <= k < |s| - j ==> s[j..][k] == s[j + k];
  }

  /** Concatenation is associative; stated once for the proofs that regroup it. */
  lemma AppendAssoc<T>(x: seq<T>, y: seq<T>, z: seq<T>)
    ensures (x + y) + z == x + (y + z)
  {
  }

  /** A trimmed string is empty exactly when the original held nothing but white space;
      this is the sense of the handlers' `!name` test after trimming. */
  lemma TrimEmptyIffAllSpace(s: string)
    ensures Trim(s) == [] <==> AllSpace(s)
  {
    var r := Trim(s);
    var i := SkipSpace(s, 0);
    if r == [] {
      forall k | 0 <= k < |s| ensures IsSpace(s[k]) {
        SpaceOnEitherSide(s, i, k);
      }
    } else {
      assert r[0] == s[i];
    }
  }

  lemma SpaceOnEitherSide(s: string, i: int, k: int)
    requires 0 <= i <= |s| && 0 <= k < |s| && AllSpace(s[..i]) && AllSpace(s[i..])
    ensures IsSpace(s[k])
  {
    if k < i { assert s[..i][k] == s[k]; } else { assert s[i..][k - i] == s[k]; }
  }
}
