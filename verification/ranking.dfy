/** Sorting by an integer rank, highest first. This is `Array.prototype.sort` with the
    comparator `(a, b) => rank(b) - rank(a)`, which the tracker uses on counts and the
    documentation resolver on relevance. Since ECMAScript 2019 that sort is stable:
    elements of equal rank keep their input order. */
module Ranking {

  /** Every element ranks at least as high as every element after it. */
  predicate SortedByRank<T>(s: seq<T>, rank: T -> int) {
    forall i, j :: 0 <= i < j < |s| ==> rank(s[i]) >= rank(s[j])
  }

  /** The elements of `s` whose rank is `k`, in their order in `s`. */
  function WithRank<T>(s: seq<T>, rank: T -> int, k: int): seq<T> {
    if s == [] then []
    else (if rank(s[0]) == k then [s[0]] else []) + WithRank(s[1..], rank, k)
  }

  /** Places `x` in front of the first element that does not outrank it. */
  function Insert<T>(x: T, s: seq<T>, rank: T -> int): (r: seq<T>)
    ensures multiset(r) == multiset(s) + multiset{x}
    ensures SortedByRank(s, rank) ==> SortedByRank(r, rank)
  {
    if s == [] || rank(s[0]) <= rank(x) then [x] + s
    else
      var tail := Insert(x, s[1..], rank);
      assert s == [s[0]] + s[1..];
      InsertBelowHead(x, s, tail, rank);
      ConsSorted(s[0], tail, rank);
      [s[0]] + tail
  }

  /** When the head of a sorted `s` outranks `x`, it outranks everything `x` is inserted
      among. */
  lemma InsertBelowHead<T>(x: T, s: seq<T>, tail: seq<T>, rank: T -> int)
    requires s != [] && rank(s[0]) > rank(x)
    requires multiset(tail) == multiset(s[1..]) + multiset{x}
    ensures SortedByRank(s, rank) ==> forall y :: y in tail ==> rank(s[0]) >= rank(y)
  {
    if SortedByRank(s, rank) {
      forall y | y in tail ensures rank(s[0]) >= rank(y) {
        assert y in multiset(tail);
        if y != x {
          assert y in multiset(s[1..]);
          var m :| 0 <= m < |s| - 1 && s[1..][m] == y;
          assert s[m + 1] == y;
        }
      }
    }
  }

  /** A sorted sequence stays sorted behind a head that outranks all of it. */
  lemma ConsSorted<T>(h: T, tail: seq<T>, rank: T -> int)
    ensures (forall y :: y in tail ==> rank(h) >= rank(y)) && SortedByRank(tail, rank) ==>
              SortedByRank([h] + tail, rank)
  {
    var r := [h] + tail;
    if (forall y :: y in tail ==> rank(h) >= rank(y)) && SortedByRank(tail, rank) {
      forall i, j | 0 <= i < j < |r| ensures rank(r[i]) >= rank(r[j]) {
        assert r[j] == tail[j - 1];
        if i > 0 { assert r[i] == tail[i - 1]; }
      }
    }
  }

  /** The stable sort by rank, highest first. */
  function SortByRank<T>(s: seq<T>, rank: T -> int): (r: seq<T>)
    ensures multiset(r) == multiset(s)
    ensures SortedByRank(r, rank)
  {
    if s == [] then []
    else
      assert s == [s[0]] + s[1..];
      Insert(s[0], SortByRank(s[1..], rank), rank)
  }

  /** Inserting `x` adds it in front of the elements of its own rank and moves nothing
      else. */
  lemma {:induction false} InsertKeepsTies<T>(x: T, s: seq<T>, rank: T -> int, k: int)
    ensures WithRank(Insert(x, s, rank), rank, k)
            == (if rank(x) == k then [x] else []) + WithRank(s, rank, k)
  {
    if s == [] || rank(s[0]) <= rank(x) {
      assert ([x] + s)[1..] == s;
    } else {
      var tail := Insert(x, s[1..], rank);
      var r := [s[0]] + tail;
      assert Insert(x, s, rank) == r;
      InsertKeepsTies(x, s[1..], rank, k);
      assert r[0] == s[0] && r[1..] == tail;
      var head := if rank(s[0]) == k then [s[0]] else [];
      assert WithRank(r, rank, k) == head + WithRank(tail, rank, k);
      assert WithRank(s, rank, k) == head + WithRank(s[1..], rank, k);
      if rank(x) == k {
        assert head == [];
      }
    }
  }

  /** The sort is stable: for every rank, the elements of that rank appear in the output
      in the order they had in the input. */
  lemma {:induction false} SortIsStable<T>(s: seq<T>, rank: T -> int, k: int)
    ensures WithRank(SortByRank(s, rank), rank, k) == WithRank(s, rank, k)
  {
    if s != [] {
      SortIsStable(s[1..], rank, k);
      InsertKeepsTies(s[0], SortByRank(s[1..], rank), rank, k);
    }
  }

  /** A sequence that is already sorted by rank comes back unchanged. */
  lemma {:induction false} SortedInputUnchanged<T>(s: seq<T>, rank: T -> int)
    requires SortedByRank(s, rank)
    ensures SortByRank(s, rank) == s
  {
    if s != [] {
      assert SortedByRank(s[1..], rank);
      SortedInputUnchanged(s[1..], rank);
      assert s == [s[0]] + s[1..];
    }
  }
}
