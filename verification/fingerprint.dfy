/** `createErrorFingerprint` (src/error-tracker.ts): the error's name, ':', its message,
    ':', and a canonical serialisation of the optional context. The context is a
    JavaScript object whose values are strings; it is modelled as its list of properties
    in insertion order. It is serialised by `JSON.stringify` with the sorted key list as
    replacer, so the properties come out in key order whatever order they were added in. */
module Fingerprint {
  import opened Options
  import opened Strings

  /** An `Error` value: `error.name`, `error.message` and the optional `error.stack`. */
  datatype JsError = JsError(name: string, message: string, stack: Option<string>)

  /** One property of the context object: its key and its string value. */
  type Property = (string, string)

  /** The context object's properties in insertion order. */
  type Context = seq<Property>

  /** No key appears twice, as in any JavaScript object. */
  predicate DistinctKeys(c: Context) {
    forall i, j :: 0 <= i < j < |c| ==> c[i].0 != c[j].0
  }

  // ---------------------------------------------------------------------------------
  // Key order: the default order of `Array.prototype.sort` on strings, lexicographic
  // with a proper prefix first.

  predicate Before(a: string, b: string)
    decreases |a|
  {
    if a == [] then b != []
    else if b == [] then false
    else a[0] < b[0] || (a[0] == b[0] && Before(a[1..], b[1..]))
  }

  lemma {:induction false} BeforeAsymmetric(a: string, b: string)
    ensures !(Before(a, b) && Before(b, a))
    decreases |a|
  {
    if a != [] && b != [] && a[0] == b[0] {
      BeforeAsymmetric(a[1..], b[1..]);
    }
  }

  lemma {:induction false} BeforeTransitive(a: string, b: string, c: string)
    requires Before(a, b) && Before(b, c)
    ensures Before(a, c)
    decreases |a|
  {
    if a != [] && a[0] == b[0] && b[0] == c[0] {
      BeforeTransitive(a[1..], b[1..], c[1..]);
    }
  }

  lemma {:induction false} BeforeTotal(a: string, b: string)
    requires a != b
    ensures Before(a, b) || Before(b, a)
    decreases |a|
  {
    if a != [] && b != [] && a[0] == b[0] {
      assert a == [a[0]] + a[1..] && b == [b[0]] + b[1..];
      BeforeTotal(a[1..], b[1..]);
    }
  }

  /** The keys strictly increase along the sequence. */
  predicate KeysAscending(c: Context) {
    forall i, j :: 0 <= i < j < |c| ==> Before(c[i].0, c[j].0)
  }

  /** Places `p` in front of the first property whose key comes after its own. */
  function InsertByKey(p: Property, c: Context): (r: Context)
    ensures multiset(r) == multiset(c) + multiset{p}
  {
    if c == [] || Before(p.0, c[0].0) then [p] + c
    else
      assert c == [c[0]] + c[1..];
      [c[0]] + InsertByKey(p, c[1..])
  }

  /** Inserting a property with a new key into a key-ascending list keeps it ascending. */
  lemma {:induction false} InsertByKeyAscending(p: Property, c: Context)
    requires KeysAscending(c)
    requires forall q :: q in c ==> q.0 != p.0
    ensures KeysAscending(InsertByKey(p, c))
  {
    var r := InsertByKey(p, c);
    if c == [] || Before(p.0, c[0].0) {
      forall j | 1 < j < |r| ensures Before(r[0].0, r[j].0) {
        BeforeTransitive(p.0, c[0].0, c[j - 1].0);
      }
    } else {
      var tail := InsertByKey(p, c[1..]);
      assert c[0] in c;
      BeforeTotal(c[0].0, p.0);
      InsertByKeyAscending(p, c[1..]);
      forall j | 0 < j < |r| ensures Before(r[0].0, r[j].0) {
        assert r[j] == tail[j - 1];
        assert r[j] in multiset(tail);
        if r[j] != p {
          assert r[j] in multiset(c[1..]);
          var m :| 0 <= m < |c[1..]| && c[1..][m] == r[j];
          assert c[m + 1] == r[j];
        }
      }
    }
  }

  /** The context's properties in key order: what `Object.keys(context).sort()` makes
      `JSON.stringify` emit. */
  function SortKeys(c: Context): (r: Context)
    ensures multiset(r) == multiset(c)
    ensures DistinctKeys(c) ==> KeysAscending(r)
  {
    if c == [] then []
    else
      var tail := SortKeys(c[1..]);
      assert c == [c[0]] + c[1..];
      DistinctKeysTail(c, tail);
      assert DistinctKeys(c) ==> KeysAscending(InsertByKey(c[0], tail)) by {
        if DistinctKeys(c) {
          InsertByKeyAscending(c[0], tail);
        }
      }
      InsertByKey(c[0], tail)
  }

  /** With distinct keys, the properties after the first, in any order, have distinct
      keys other than the first one's. */
  lemma DistinctKeysTail(c: Context, tail: Context)
    requires c != [] && multiset(tail) == multiset(c[1..])
    ensures DistinctKeys(c) ==> DistinctKeys(c[1..]) && forall q :: q in tail ==> q.0 != c[0].0
  {
    if DistinctKeys(c) {
      forall q | q in tail ensures q.0 != c[0].0 {
        assert q in multiset(c[1..]);
        var m :| 0 <= m < |c[1..]| && c[1..][m] == q;
        assert c[m + 1] == q;
      }
      assert forall i, j :: 0 <= i < j < |c[1..]| ==> c[1..][i] == c[i + 1] && c[1..][j] == c[j + 1];
    }
  }

  lemma TailMultiset(s: Context)
    requires s != []
    ensures multiset(s[1..]) == multiset(s) - multiset{s[0]}
  {
    assert s == [s[0]] + s[1..];
  }

  /** In a key-ascending list the head has the least key, so two such lists holding the
      same properties start with the same one. */
  lemma AscendingSameHead(a: Context, b: Context)
    requires KeysAscending(a) && KeysAscending(b)
    requires multiset(a) == multiset(b)
    requires a != []
    ensures b != [] && a[0] == b[0]
  {
    assert a[0] in multiset(b);
    var j :| 0 <= j < |b| && b[j] == a[0];
    assert b[0] in multiset(a);
    var i :| 0 <= i < |a| && a[i] == b[0];
    if i != 0 && j != 0 {
      assert Before(a[0].0, b[0].0);
      assert Before(b[0].0, a[0].0);
      BeforeAsymmetric(a[0].0, b[0].0);
    }
  }

  /** Two key-ascending lists with the same properties are the same list. */
  lemma {:induction false} AscendingUnique(a: Context, b: Context)
    requires KeysAscending(a) && KeysAscending(b)
    requires multiset(a) == multiset(b)
    ensures a == b
  {
    if a == [] {
      assert |multiset(b)| == 0;
    } else {
      AscendingSameHead(a, b);
      TailMultiset(a);
      TailMultiset(b);
      assert KeysAscending(a[1..]) && KeysAscending(b[1..]);
      AscendingUnique(a[1..], b[1..]);
      assert a == [a[0]] + a[1..] && b == [b[0]] + b[1..];
    }
  }

  // ---------------------------------------------------------------------------------
  // JSON text of a string-valued object.

  function HexDigit(n: int): char
    requires 0 <= n < 16
  {
    "0123456789abcdef"[n]
  }

  /** How `JSON.stringify` writes one character inside a string literal: the two-character
      escapes for '"', '\\' and five control characters, `\u00xx` with lower-case hex
      digits for the other control characters, and the character itself otherwise. */
  function EscapeChar(c: char): string {
    if c == '"' then ['\\', '"']
    else if c == '\\' then ['\\', '\\']
    else if c == '\U{0008}' then ['\\', 'b']
    else if c == '\t' then ['\\', 't']
    else if c == '\n' then ['\\', 'n']
    else if c == '\U{000C}' then ['\\', 'f']
    else if c == '\r' then ['\\', 'r']
    else if c < ' ' then ['\\', 'u', '0', '0', HexDigit(c as int / 16), HexDigit(c as int % 16)]
    else [c]
  }

  function Escape(s: string): string {
    if s == [] then [] else EscapeChar(s[0]) + Escape(s[1..])
  }

  /** A JSON string literal. */
  function Quote(s: string): string {
    ['"'] + Escape(s) + ['"']
  }

  /** `"key":"value"`. */
  function Member(p: Property): string {
    Quote(p.0) + [':'] + Quote(p.1)
  }

  /** The members separated by ',', then the closing '}'. */
  function Members(c: Context): (r: string)
    ensures |r| >= 1 && r[|r| - 1] == '}'
  {
    if c == [] then "}"
    else Member(c[0]) + (if |c| == 1 then "}" else [','] + Members(c[1..]))
  }

  /** `JSON.stringify` of an object whose properties come in the order `c`. */
  function Stringify(c: Context): string {
    ['{'] + Members(c)
  }

  /** The serialisation the fingerprint ends with: empty without a context, otherwise
      the JSON text of the context with its keys in sorted order. */
  function Canon(context: Option<Context>): (r: string)
    ensures r == [] <==> context.None?
    ensures context.Some? ==> |r| >= 2 && r[0] == '{' && r[|r| - 1] == '}'
  {
    match context
    case None => ""
    case Some(c) => Stringify(SortKeys(c))
  }

  /** `createErrorFingerprint(error, context)`. */
  function CreateFingerprint(error: JsError, context: Option<Context>): (r: string)
    ensures |r| > |error.name| + |error.message| + 1
    ensures r[..|error.name| + |error.message| + 2] == error.name + ":" + error.message + ":"
    ensures r[|r| - 1] == ':' <==> context.None?
  {
    error.name + ":" + error.message + ":" + Canon(context)
  }

  // ---------------------------------------------------------------------------------
  // The serialisation can be read back, so distinct contexts give distinct texts.

  lemma HexDigitInjective(m: int, n: int)
    requires 0 <= m < 16 && 0 <= n < 16
    ensures HexDigit(m) == HexDigit(n) ==> m == n
  {
  }

  lemma EscapeCharShape(c: char)
    ensures |EscapeChar(c)| == 1 || |EscapeChar(c)| == 2 || |EscapeChar(c)| == 6
    ensures EscapeChar(c)[0] != '"'
    ensures |EscapeChar(c)| == 1 <==> EscapeChar(c)[0] != '\\'
    ensures |EscapeChar(c)| == 6 <==> |EscapeChar(c)| > 1 && EscapeChar(c)[1] == 'u'
  {
  }

  lemma EscapeCharInjective(x: char, y: char)
    requires EscapeChar(x) == EscapeChar(y)
    ensures x == y
  {
    if x < ' ' && y < ' ' && |EscapeChar(x)| == 6 {
      HexDigitInjective(x as int / 16, y as int / 16);
      HexDigitInjective(x as int % 16, y as int % 16);
    }
  }

  /** No escape is a proper prefix of another: the first two characters fix the length. */
  lemma EscapeCharPrefixFree(x: char, y: char, u: string, v: string)
    requires EscapeChar(x) + u == EscapeChar(y) + v
    ensures x == y && u == v
  {
    var ex, ey := EscapeChar(x), EscapeChar(y);
    EscapeCharShape(x);
    EscapeCharShape(y);
    assert (ex + u)[0] == ex[0] && (ey + v)[0] == ey[0];
    if |ex| > 1 && |ey| > 1 {
      assert (ex + u)[1] == ex[1] && (ey + v)[1] == ey[1];
    }
    assert |ex| == |ey|;
    assert ex == (ex + u)[..|ex|] == (ey + v)[..|ey|] == ey;
    EscapeCharInjective(x, y);
    assert u == (ex + u)[|ex|..] == (ey + v)[|ey|..] == v;
  }

  /** An escaped string never starts with '"', so a '"' right after it is its first
      character only when the string is empty. */
  lemma EscapeThenQuote(a: string, q: string)
    requires q != [] && q[0] == '"'
    ensures (Escape(a) + q)[0] == '"' <==> a == []
  {
    if a != [] {
      var e := EscapeChar(a[0]);
      EscapeCharShape(a[0]);
      AppendAssoc(e, Escape(a[1..]), q);
      assert (e + (Escape(a[1..]) + q))[0] == e[0];
    }
  }

  /** The first unescaped '"' ends the literal: what precedes it fixes the string and what
      follows it is the same text. */
  lemma {:induction false} EscapeInjective(a: string, b: string, u: string, v: string)
    requires Escape(a) + (['"'] + u) == Escape(b) + (['"'] + v)
    ensures a == b && u == v
  {
    var qu, qv := ['"'] + u, ['"'] + v;
    EscapeThenQuote(a, qu);
    EscapeThenQuote(b, qv);
    if a == [] && b == [] {
      assert Escape(a) == [] && Escape(b) == [];
      assert qu == Escape(a) + qu && qv == Escape(b) + qv;
      assert u == qu[1..] == qv[1..] == v;
    } else if a != [] && b != [] {
      AppendAssoc(EscapeChar(a[0]), Escape(a[1..]), qu);
      AppendAssoc(EscapeChar(b[0]), Escape(b[1..]), qv);
      EscapeCharPrefixFree(a[0], b[0], Escape(a[1..]) + qu, Escape(b[1..]) + qv);
      EscapeInjective(a[1..], b[1..], u, v);
      assert a == [a[0]] + a[1..] && b == [b[0]] + b[1..];
    }
  }

  lemma QuoteInjective(a: string, b: string, u: string, v: string)
    requires Quote(a) + u == Quote(b) + v
    ensures a == b && u == v
  {
    var qu, qv := ['"'] + u, ['"'] + v;
    AppendAssoc(['"'] + Escape(a), ['"'], u);
    AppendAssoc(['"'], Escape(a), qu);
    AppendAssoc(['"'] + Escape(b), ['"'], v);
    AppendAssoc(['"'], Escape(b), qv);
    assert Escape(a) + qu == (Quote(a) + u)[1..] == (Quote(b) + v)[1..] == Escape(b) + qv;
    EscapeInjective(a, b, u, v);
  }

  lemma MemberInjective(p: Property, q: Property, u: string, v: string)
    requires Member(p) + u == Member(q) + v
    ensures p == q && u == v
  {
    var u1, v1 := [':'] + (Quote(p.1) + u), [':'] + (Quote(q.1) + v);
    AppendAssoc(Quote(p.0) + [':'], Quote(p.1), u);
    AppendAssoc(Quote(p.0), [':'], Quote(p.1) + u);
    AppendAssoc(Quote(q.0) + [':'], Quote(q.1), v);
    AppendAssoc(Quote(q.0), [':'], Quote(q.1) + v);
    QuoteInjective(p.0, q.0, u1, v1);
    assert Quote(p.1) + u == u1[1..] == v1[1..] == Quote(q.1) + v;
    QuoteInjective(p.1, q.1, u, v);
  }

  /** What follows the first member: "}" alone, or ',' and the remaining members. */
  function MembersAfterFirst(c: Context): string
    requires c != []
  {
    if |c| == 1 then "}" else [','] + Members(c[1..])
  }

  /** An empty context serialises to "}" and any other to its first member and the rest. */
  lemma MembersShape(c: Context)
    ensures c == [] ==> Members(c) == "}"
    ensures c != [] ==> Members(c) == Member(c[0]) + MembersAfterFirst(c) && Member(c[0])[0] == '"'
  {
  }

  /** The text after the first member tells whether more members follow, and which. */
  lemma MembersAfterFirstInjective(a: Context, b: Context)
    requires a != [] && b != [] && MembersAfterFirst(a) == MembersAfterFirst(b)
    ensures |a| == 1 <==> |b| == 1
    ensures |a| > 1 ==> Members(a[1..]) == Members(b[1..])
  {
    var ra, rb := MembersAfterFirst(a), MembersAfterFirst(b);
    assert ra[0] == rb[0];
    if |a| > 1 && |b| > 1 {
      assert Members(a[1..]) == ra[1..] == rb[1..] == Members(b[1..]);
    }
  }

  lemma {:induction false} MembersInjective(a: Context, b: Context)
    requires Members(a) == Members(b)
    ensures a == b
  {
    MembersShape(a);
    MembersShape(b);
    if a != [] && b != [] {
      MemberInjective(a[0], b[0], MembersAfterFirst(a), MembersAfterFirst(b));
      MembersAfterFirstInjective(a, b);
      if |a| > 1 {
        MembersInjective(a[1..], b[1..]);
      }
      SameHeadSameTail(a, b);
    }
  }

  lemma SameHeadSameTail<T>(a: seq<T>, b: seq<T>)
    requires a != [] && b != [] && a[0] == b[0]
    requires |a| > 1 ==> a[1..] == b[1..]
    requires |a| == 1 <==> |b| == 1
    ensures a == b
  {
    assert a == [a[0]] + a[1..] && b == [b[0]] + b[1..];
  }

  /** Two contexts are the same object: both absent, or both present with the same
      key/value pairs, in whatever order they were added. */
  predicate SameContext(c1: Option<Context>, c2: Option<Context>) {
    || (c1.None? && c2.None?)
    || (c1.Some? && c2.Some? && multiset(c1.value) == multiset(c2.value))
  }

  /** For a fixed error, the fingerprint identifies the context exactly: the order in which
      properties were added never matters, and any difference in keys or values, or a
      missing context against a present one, changes the fingerprint. */
  lemma FingerprintIdentifiesContext(error: JsError, c1: Option<Context>, c2: Option<Context>)
    requires c1.Some? ==> DistinctKeys(c1.value)
    requires c2.Some? ==> DistinctKeys(c2.value)
    ensures CreateFingerprint(error, c1) == CreateFingerprint(error, c2) <==> SameContext(c1, c2)
  {
    var prefix := error.name + ":" + error.message + ":";
    assert CreateFingerprint(error, c1) == prefix + Canon(c1);
    assert CreateFingerprint(error, c2) == prefix + Canon(c2);
    if CreateFingerprint(error, c1) == CreateFingerprint(error, c2) {
      assert Canon(c1) == (prefix + Canon(c1))[|prefix|..] == (prefix + Canon(c2))[|prefix|..] == Canon(c2);
      if c1.Some? && c2.Some? {
        assert Members(SortKeys(c1.value)) == Canon(c1)[1..] == Canon(c2)[1..] == Members(SortKeys(c2.value));
        MembersInjective(SortKeys(c1.value), SortKeys(c2.value));
      }
    }
    if SameContext(c1, c2) && c1.Some? {
      AscendingUnique(SortKeys(c1.value), SortKeys(c2.value));
    }
  }

  /** The name and message are joined without escaping: any two errors whose name, ':'
      and message spell the same text share every fingerprint, whatever their stacks. */
  lemma NameAndMessageCanCollide(e1: JsError, e2: JsError, context: Option<Context>)
    requires e1.name + ":" + e1.message == e2.name + ":" + e2.message
    ensures CreateFingerprint(e1, context) == CreateFingerprint(e2, context)
  {
  }

  /** A concrete pair: a ':' moved from the name into the message gives two different
      errors with one fingerprint. */
  lemma ColonCollisionExample()
    ensures JsError("Error:x", "y", None) != JsError("Error", "x:y", None)
    ensures CreateFingerprint(JsError("Error:x", "y", None), None)
         == CreateFingerprint(JsError("Error", "x:y", None), None)
  {
    NameAndMessageCanCollide(JsError("Error:x", "y", None), JsError("Error", "x:y", None), None);
  }
}
