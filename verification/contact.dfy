/** The validation both contact handlers apply to a submitted form: the three fields are
    read as text ("" when missing) and trimmed, name and message must be non-empty, and
    the address must match `^[^@\s]+@[^@\s]+\.[^@\s]+$`. */
module ContactForm {
  import opened Strings
  import opened Http

  /** `[^@\s]`: any character but '@' and white space. */
  predicate Plain(c: char) {
    c != '@' && !IsSpace(c)
  }

  /** `[^@\s]+` matches `s[lo..hi]`. */
  predicate PlainRun(s: string, lo: int, hi: int) {
    0 <= lo < hi <= |s| && forall k :: lo <= k < hi ==> Plain(s[k])
  }

  /** The pattern matches `s` with its '@' at `i` and the literal dot at `j`. */
  predicate MatchesAt(s: string, i: int, j: int) {
    && 0 <= i < j < |s| && s[i] == '@' && s[j] == '.'
    && PlainRun(s, 0, i) && PlainRun(s, i + 1, j) && PlainRun(s, j + 1, |s|)
  }

  /** `emailRegex.test(s)`: some way of placing the '@' and the dot matches. */
  predicate MatchesEmailPattern(s: string) {
    exists i, j :: 0 <= i < j < |s| && MatchesAt(s, i, j)
  }

  /** The number of occurrences of `c` in `s`. */
  function Count(s: string, c: char): (n: nat)
    ensures n <= |s|
    ensures n == 0 <==> forall k :: 0 <= k < |s| ==> s[k] != c
  {
    if s == [] then 0 else (if s[0] == c then 1 else 0) + Count(s[1..], c)
  }

  /** The shape the pattern describes in words: exactly one '@', no white space,
      something before the '@', and after it a dot with something on either side. */
  predicate EmailShape(s: string) {
    && Count(s, '@') == 1
    && (forall k :: 0 <= k < |s| ==> !IsSpace(s[k]))
    && exists i, j :: 0 < i && i + 1 < j < |s| - 1 && s[i] == '@' && s[j] == '.'
  }

  /** A matching address has the shape. */
  lemma MatchShape(s: string)
    requires MatchesEmailPattern(s)
    ensures EmailShape(s)
  {
    var i, j :| 0 <= i < j < |s| && MatchesAt(s, i, j);
    assert s[i] == '@' && !IsSpace(s[i]);
    CountSingle(s, '@', i);
    assert forall k :: 0 <= k < |s| ==> !IsSpace(s[k]);
  }

  /** An address of that shape matches. */
  lemma ShapeMatches(s: string)
    requires EmailShape(s)
    ensures MatchesEmailPattern(s)
  {
    var i, j :| 0 < i && i + 1 < j < |s| - 1 && s[i] == '@' && s[j] == '.';
    forall k | 0 <= k < |s| && k != i ensures s[k] != '@' {
      CountTwice(s, '@', i, k);
    }
    assert MatchesAt(s, i, j);
  }

  /** The pattern accepts exactly the addresses of that shape. */
  lemma PatternIffShape(s: string)
    ensures MatchesEmailPattern(s) <==> EmailShape(s)
  {
    if MatchesEmailPattern(s) { MatchShape(s); }
    if EmailShape(s) { ShapeMatches(s); }
  }

  lemma {:induction false} CountPositive(s: string, c: char, k: int)
    requires 0 <= k < |s|
    ensures s[k] == c ==> Count(s, c) >= 1
  {
    if k > 0 {
      CountPositive(s[1..], c, k - 1);
    }
  }

  /** Two distinct occurrences of `c` count at least twice. */
  lemma {:induction false} CountTwice(s: string, c: char, i: int, k: int)
    requires 0 <= i < |s| && 0 <= k < |s| && i != k
    ensures s[i] == c && s[k] == c ==> Count(s, c) >= 2
  {
    if i == 0 {
      CountPositive(s[1..], c, k - 1);
    } else if k == 0 {
      CountPositive(s[1..], c, i - 1);
    } else {
      CountTwice(s[1..], c, i - 1, k - 1);
    }
  }

  lemma {:induction false} CountSingle(s: string, c: char, i: int)
    requires 0 <= i < |s| && s[i] == c
    requires forall k :: 0 <= k < |s| && k != i ==> s[k] != c
    ensures Count(s, c) == 1
  {
    if i == 0 {
      CountNone(s[1..], c);
    } else {
      CountSingle(s[1..], c, i - 1);
    }
  }

  lemma {:induction false} CountNone(s: string, c: char)
    requires forall k :: 0 <= k < |s| ==> s[k] != c
    ensures Count(s, c) == 0
  {
    if s != [] {
      CountNone(s[1..], c);
    }
  }

  /** A single left-to-right scan that decides the pattern: it notes the first '@', the
      first dot after the character following it, and whether a space or a second '@'
      has been seen. */
  method TestEmail(s: string) returns (ok: bool)
    ensures ok <==> MatchesEmailPattern(s)
  {
    var at, dot, bad := -1, -1, false;
    var k := 0;
    while k < |s|
      invariant 0 <= k <= |s|
      invariant at == -1 ==> dot == -1 && forall m :: 0 <= m < k ==> s[m] != '@'
      invariant at != -1 ==> 0 <= at < k && s[at] == '@' && forall m :: 0 <= m < at ==> s[m] != '@'
      invariant !bad ==> forall m :: 0 <= m < k ==> !IsSpace(s[m]) && (s[m] == '@' ==> m == at)
      invariant bad ==> exists m :: 0 <= m < k && (IsSpace(s[m]) || (s[m] == '@' && m != at))
      invariant at != -1 && dot != -1 ==>
                  at + 1 < dot < k && s[dot] == '.' && forall m :: at + 1 < m < dot ==> s[m] != '.'
      invariant at != -1 && dot == -1 ==> forall m :: at + 1 < m < k ==> s[m] != '.'
    {
      var c := s[k];
      if IsSpace(c) || (c == '@' && at != -1) {
        bad := true;
      }
      if c == '@' && at == -1 {
        at := k;
      } else if c == '.' && at != -1 && at + 1 < k && dot == -1 {
        dot := k;
      }
      k := k + 1;
    }
    ok := !bad && at > 0 && dot != -1 && dot < |s| - 1;
    if ok {
      assert MatchesAt(s, at, dot);
    }
    if MatchesEmailPattern(s) {
      var i, j :| 0 <= i < j < |s| && MatchesAt(s, i, j);
      assert Plain(s[at]) ==> at == i;
      assert forall m :: 0 <= m < |s| && (IsSpace(s[m]) || (s[m] == '@' && m != at)) ==> !Plain(s[m]) || !Plain(s[at]);
      assert !bad;
      assert at == i;
      assert s[j] == '.';
    }
  }

  /** The answer both handlers give an accepted form. */
  const Thanks: string := "Thanks — we will reply shortly."

  /** `(form.get(name) || "").trim()`. */
  function Trimmed(form: Form, name: string): string {
    Trim(Field(form, name))
  }

  /** The check both handlers make before accepting a message. */
  predicate Acceptable(form: Form) {
    Trimmed(form, "name") != [] && Trimmed(form, "message") != [] && MatchesEmailPattern(Trimmed(form, "email"))
  }

  /** In words: a form is accepted exactly when its name and its message each hold
      something other than white space, and its address, once trimmed, has the shape of
      an e-mail address. A missing field counts as blank. */
  lemma AcceptableMeaning(form: Form)
    ensures Acceptable(form) <==>
              && !AllSpace(Field(form, "name"))
              && !AllSpace(Field(form, "message"))
              && EmailShape(Trimmed(form, "email"))
  {
    TrimEmptyIffAllSpace(Field(form, "name"));
    TrimEmptyIffAllSpace(Field(form, "message"));
    PatternIffShape(Trimmed(form, "email"));
  }
}
