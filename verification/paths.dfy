/** The path helpers of the static-site worker (src/worker.ts): `ext`, `join`, and the
    normalisation of a request path into an object key. */
module Paths {
  import opened Options
  import opened Strings

  predicate AsciiAlnum(c: char) {
    ('a' <= c <= 'z') || ('A' <= c <= 'Z') || ('0' <= c <= '9')
  }

  function LowerChar(c: char): char {
    if 'A' <= c <= 'Z' then (c as int + 32) as char else c
  }

  /** `toLowerCase()` on a string of ASCII characters. */
  function Lower(s: string): (r: string)
    ensures |r| == |s|
    ensures forall i :: 0 <= i < |s| ==> r[i] == LowerChar(s[i])
  {
    if s == [] then [] else [LowerChar(s[0])] + Lower(s[1..])
  }

  /** The length of the longest suffix of `p` made of ASCII letters and digits. */
  function AlnumSuffix(p: string): (n: nat)
    ensures n <= |p|
    ensures forall j :: |p| - n <= j < |p| ==> AsciiAlnum(p[j])
    ensures n < |p| ==> !AsciiAlnum(p[|p| - n - 1])
  {
    if p == [] || !AsciiAlnum(p[|p| - 1]) then 0
    else
      var n := AlnumSuffix(p[..|p| - 1]);
      assert forall j :: |p| - 1 - n <= j < |p| - 1 ==> p[j] == p[..|p| - 1][j];
      1 + n
  }

  /** The pattern `\.[a-z0-9]+$` (case-insensitive) matches `p` at index `i`: a dot
      followed by one or more ASCII letters or digits running to the end. */
  predicate ExtensionAt(p: string, i: int) {
    0 <= i < |p| - 1 && p[i] == '.' && forall j :: i < j < |p| ==> AsciiAlnum(p[j])
  }

  /** The pattern can match only where the run of letters and digits that ends `p`
      begins, right after a dot. */
  lemma ExtensionAtLastDot(p: string, k: int)
    requires ExtensionAt(p, k)
    ensures k == |p| - AlnumSuffix(p) - 1
  {
    var n := AlnumSuffix(p);
    assert !AsciiAlnum(p[k]);
    assert n <= |p| - 1 - k;
    assert n >= |p| - 1 - k;
  }

  /** `ext(p)`: the lower-cased match of `\.[a-z0-9]+$`, or "" when there is none. The
      pattern can only match at the last dot of `p`, so there is at most one match. */
  function Ext(p: string): (r: string)
    ensures r == [] <==> forall i :: !ExtensionAt(p, i)
    ensures forall i :: ExtensionAt(p, i) ==> r == Lower(p[i..])
  {
    var n := AlnumSuffix(p);
    var i := |p| - n - 1;
    assert forall k :: ExtensionAt(p, k) ==> k == i by {
      forall k | ExtensionAt(p, k) ensures k == i {
        ExtensionAtLastDot(p, k);
      }
    }
    if 0 < n < |p| && p[i] == '.' then
      assert ExtensionAt(p, i);
      Lower(p[i..])
    else
      ""
  }

  /** An extension is a dot followed by lower-case letters and digits only. */
  lemma ExtShape(p: string)
    ensures var r := Ext(p);
            r == [] || (|r| >= 2 && r[0] == '.' && forall k :: 1 <= k < |r| ==> AsciiAlnum(r[k]) && !('A' <= r[k] <= 'Z'))
  {
    var r := Ext(p);
    if r != [] {
      var i :| ExtensionAt(p, i);
      assert r == Lower(p[i..]);
      assert r[0] == LowerChar(p[i..][0]);
      forall k | 1 <= k < |r| ensures AsciiAlnum(r[k]) && !('A' <= r[k] <= 'Z') {
        assert r[k] == LowerChar(p[i..][k]) && p[i..][k] == p[i + k];
        assert AsciiAlnum(p[i + k]);
      }
    }
  }

  lemma {:induction false} AlnumSuffixAfterSeparator(dir: string, name: string)
    requires |name| >= 1 && !AsciiAlnum(name[0])
    ensures AlnumSuffix(dir + name) == AlnumSuffix(name)
    decreases |name|
  {
    var p := dir + name;
    assert p[|p| - 1] == name[|name| - 1];
    if AsciiAlnum(name[|name| - 1]) {
      assert p[..|p| - 1] == dir + name[..|name| - 1];
      AlnumSuffixAfterSeparator(dir, name[..|name| - 1]);
    }
  }

  /** The extension of a key does not depend on the directories above it. */
  lemma ExtIgnoresDirectories(dir: string, name: string)
    requires |name| >= 1 && name[0] == '/'
    ensures Ext(dir + name) == Ext(name)
  {
    var p := dir + name;
    AlnumSuffixAfterSeparator(dir, name);
    var n := AlnumSuffix(name);
    assert n < |name|;
    var i := |name| - n - 1;
    assert p[|dir| + i] == name[i];
    assert p[|dir| + i..] == name[i..];
    assert Ext(p) == if 0 < n && p[|dir| + i] == '.' then Lower(p[|dir| + i..]) else "";
    assert Ext(name) == if 0 < n && name[i] == '.' then Lower(name[i..]) else "";
  }

  predicate AllSlashes(s: string) {
    forall i :: 0 <= i < |s| ==> s[i] == '/'
  }

  /** `s.replace(/\/+$/, "")`. */
  function DropTrailingSlashes(s: string): (r: string)
    ensures |r| <= |s| && r == s[..|r|] && AllSlashes(s[|r|..])
    ensures r == [] || r[|r| - 1] != '/'
  {
    if s != [] && s[|s| - 1] == '/' then
      var r := DropTrailingSlashes(s[..|s| - 1]);
      assert s[..|s| - 1][..|r|] == s[..|r|];
      assert forall i :: |r| <= i < |s| - 1 ==> s[..|s| - 1][i] == s[i];
      r
    else s
  }

  /** `s.replace(/^\/+/, "")`. */
  function DropLeadingSlashes(s: string): (r: string)
    ensures |r| <= |s| && r == s[|s| - |r|..] && AllSlashes(s[..|s| - |r|])
    ensures r == [] || r[0] != '/'
  {
    if s != [] && s[0] == '/' then
      var r := DropLeadingSlashes(s[1..]);
      var n := |s| - |r|;
      assert s[1..][n - 1..] == s[n..];
      assert forall j :: 1 <= j < n ==> s[..n][j] == s[1..][..n - 1][j - 1];
      r
    else s
  }

  /** `join(prefix, key)`: the prefix up to its run of trailing slashes, one slash, and
      the key after its run of leading slashes. */
  function Join(prefix: string, key: string): (r: string)
    ensures exists m, n ::
              && 0 <= m <= |prefix| && AllSlashes(prefix[m..]) && (m == 0 || prefix[m - 1] != '/')
              && 0 <= n <= |key| && AllSlashes(key[..n]) && (n == |key| || key[n] != '/')
              && r == prefix[..m] + "/" + key[n..]
  {
    var a, b := DropTrailingSlashes(prefix), DropLeadingSlashes(key);
    var m, n := |a|, |key| - |b|;
    assert prefix[..m] == a && key[n..] == b;
    assert AllSlashes(prefix[m..]) && (m == 0 || prefix[m - 1] != '/');
    assert AllSlashes(key[..n]) && (n == |key| || key[n] != '/');
    a + "/" + b
  }

  /** Slashes at the seam are absorbed: one more slash at the end of the prefix or at the
      start of the key gives the same joined key. */
  lemma JoinAbsorbsSlashes(prefix: string, key: string)
    ensures Join(prefix + "/", key) == Join(prefix, key)
    ensures Join(prefix, "/" + key) == Join(prefix, key)
  {
    assert (prefix + "/")[..|prefix + "/"| - 1] == prefix;
    assert ("/" + key)[1..] == key;
  }

  /** The joined key depends only on the prefix without its trailing slashes and the key
      without its leading ones. */
  lemma JoinOfTrimmedParts(prefix: string, key: string)
    ensures Join(DropTrailingSlashes(prefix), DropLeadingSlashes(key)) == Join(prefix, key)
  {
    var a, b := DropTrailingSlashes(prefix), DropLeadingSlashes(key);
    assert DropTrailingSlashes(a) == a;
    assert DropLeadingSlashes(b) == b;
  }

  predicate EndsWithSlash(s: string) {
    |s| > 0 && s[|s| - 1] == '/'
  }

  const IndexFile: string := "index.html"

  /** `"index.html"` holds a single dot. */
  lemma IndexFileHasOneDot(j: int)
    requires 0 <= j < |IndexFile| && IndexFile[j] == '.'
    ensures j == 5
  {
  }

  /** Appending `index.html` after a slash cannot create a `..`. */
  lemma AppendIndexKeepsDots(path: string)
    requires EndsWithSlash(path)
    ensures Includes(path + IndexFile, "..") <==> Includes(path, "..")
  {
    var s := path + IndexFile;
    if exists i :: OccursAt(s, "..", i) {
      var i :| OccursAt(s, "..", i);
      assert s[i] == s[i..i + 2][0] == '.' && s[i + 1] == s[i..i + 2][1] == '.';
      assert i + 2 <= |path| by {
        if |path| <= i {
          assert s[i] == IndexFile[i - |path|] && s[i + 1] == IndexFile[i + 1 - |path|];
          IndexFileHasOneDot(i - |path|);
          IndexFileHasOneDot(i + 1 - |path|);
        }
      }
      assert path[i..i + 2] == s[i..i + 2];
      assert OccursAt(path, "..", i);
    }
    if exists i :: OccursAt(path, "..", i) {
      var i :| OccursAt(path, "..", i);
      assert s[i..i + 2] == path[i..i + 2];
      assert OccursAt(s, "..", i);
    }
  }

  /** The key normalisation of `fetch`: "/" names "/index.html", a path ending in a slash
      names the `index.html` of that directory, and a key containing ".." is refused. */
  function NormaliseKey(path: string): (r: Option<string>)
    ensures r.None? <==> Includes(path, "..")
    ensures r.Some? ==> !EndsWithSlash(r.value)
    ensures r.Some? ==> r.value == if EndsWithSlash(path) then path + IndexFile else path
  {
    var key := if path == "/" then "/index.html" else path;
    var key := if EndsWithSlash(key) then key + IndexFile else key;
    assert EndsWithSlash(path) ==> (Includes(path + IndexFile, "..") <==> Includes(path, "..")) by {
      if EndsWithSlash(path) {
        AppendIndexKeepsDots(path);
      }
    }
    assert "/" + IndexFile == "/index.html";
    if Includes(key, "..") then None else Some(key)
  }

  /** A normalised key normalises to itself. */
  lemma NormaliseKeyIdempotent(path: string)
    requires NormaliseKey(path).Some?
    ensures NormaliseKey(NormaliseKey(path).value) == NormaliseKey(path)
  {
    var key := NormaliseKey(path).value;
    if EndsWithSlash(path) {
      AppendIndexKeepsDots(path);
    }
  }
}
