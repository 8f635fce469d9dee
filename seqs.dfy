/** Sequence utilities shared by the model: the stable descending sort that
    LINQ's OrderByDescending performs, and the first-occurrence removal of
    List<T>.Remove. */
module Seqs {

  /** `s` is ordered by non-increasing `key`. */
  ghost predicate SortedDesc<T>(s: seq<T>, key: T -> real) {
    forall i, j :: 0 <= i < j < |s| ==> key(s[i]) >= key(s[j])
  }

  /** The elements of `s` whose key is `v`, in their order in `s`. */
  function WithKey<T>(s: seq<T>, key: T -> real, v: real): seq<T> {
    if s == [] then []
    else (if key(s[0]) == v then [s[0]] else []) + WithKey(s[1..], key, v)
  }

  /** Inserts `x` in front of the first element whose key is not above its own. */
  function InsertDesc<T>(x: T, s: seq<T>, key: T -> real): seq<T> {
    if s == [] || key(x) >= key(s[0]) then [x] + s
    else [s[0]] + InsertDesc(x, s[1..], key)
  }

  /** Stable sort by descending key (insertion sort). */
  function SortDesc<T>(s: seq<T>, key: T -> real): seq<T> {
    if s == [] then [] else InsertDesc(s[0], SortDesc(s[1..], key), key)
  }

  lemma {:induction false} InsertDescCount<T>(x: T, s: seq<T>, key: T -> real)
    ensures multiset(InsertDesc(x, s, key)) == multiset(s) + multiset{x}
  {
    if !(s == [] || key(x) >= key(s[0])) {
      InsertDescCount(x, s[1..], key);
      assert s == [s[0]] + s[1..];
    }
  }

  /** Inserting an element under a bound into a sequence under it keeps
      every key under it. */
  lemma {:induction false} InsertDescBounded<T>(x: T, s: seq<T>, key: T -> real, b: real)
    requires key(x) <= b && forall j :: 0 <= j < |s| ==> key(s[j]) <= b
    ensures forall j :: 0 <= j < |InsertDesc(x, s, key)| ==> key(InsertDesc(x, s, key)[j]) <= b
  {
    if !(s == [] || key(x) >= key(s[0])) {
      InsertDescBounded(x, s[1..], key, b);
    }
  }

  lemma {:induction false} InsertDescSorted<T>(x: T, s: seq<T>, key: T -> real)
    requires SortedDesc(s, key)
    ensures SortedDesc(InsertDesc(x, s, key), key)
  {
    if !(s == [] || key(x) >= key(s[0])) {
      var t := InsertDesc(x, s[1..], key);
      InsertDescSorted(x, s[1..], key);
      InsertDescBounded(x, s[1..], key, key(s[0]));
      assert InsertDesc(x, s, key) == [s[0]] + t;
    }
  }

  lemma {:induction false} InsertDescWithKey<T>(x: T, s: seq<T>, key: T -> real, v: real)
    requires SortedDesc(s, key)
    ensures WithKey(InsertDesc(x, s, key), key, v) == (if key(x) == v then [x] else []) + WithKey(s, key, v)
  {
    if s == [] || key(x) >= key(s[0]) {
      assert ([x] + s)[1..] == s;
      assert WithKey([x] + s, key, v) == (if key(x) == v then [x] else []) + WithKey(s, key, v);
    } else {
      var t := InsertDesc(x, s[1..], key);
      var head := if key(s[0]) == v then [s[0]] else [];
      assert SortedDesc(s[1..], key);
      InsertDescWithKey(x, s[1..], key, v);
      assert ([s[0]] + t)[1..] == t;
      calc {
        WithKey(InsertDesc(x, s, key), key, v);
        WithKey([s[0]] + t, key, v);
        head + WithKey(t, key, v);
        head + ((if key(x) == v then [x] else []) + WithKey(s[1..], key, v));
        { assert key(x) == v ==> head == []; }
        (if key(x) == v then [x] else []) + (head + WithKey(s[1..], key, v));
      }
    }
  }

  /** The sort returns a permutation, ordered by non-increasing key, in which
      the elements sharing a key keep their original relative order. */
  lemma {:induction false} SortDescCorrect<T>(s: seq<T>, key: T -> real)
    ensures SortedDesc(SortDesc(s, key), key)
    ensures multiset(SortDesc(s, key)) == multiset(s)
    ensures forall v :: WithKey(SortDesc(s, key), key, v) == WithKey(s, key, v)
  {
    if s != [] {
      SortDescCorrect(s[1..], key);
      InsertDescSorted(s[0], SortDesc(s[1..], key), key);
      InsertDescCount(s[0], SortDesc(s[1..], key), key);
      assert s == [s[0]] + s[1..];
      forall v ensures WithKey(SortDesc(s, key), key, v) == WithKey(s, key, v) {
        InsertDescWithKey(s[0], SortDesc(s[1..], key), key, v);
        assert WithKey(s, key, v) == (if key(s[0]) == v then [s[0]] else []) + WithKey(s[1..], key, v);
      }
    }
  }

  /** Sorting an already ordered sequence changes nothing. */
  lemma {:induction false} SortDescOfSorted<T>(s: seq<T>, key: T -> real)
    requires SortedDesc(s, key)
    ensures SortDesc(s, key) == s
  {
    if s != [] {
      assert SortedDesc(s[1..], key);
      SortDescOfSorted(s[1..], key);
      assert s == [s[0]] + s[1..];
    }
  }

  /** Sorting is idempotent. */
  lemma SortDescIdempotent<T>(s: seq<T>, key: T -> real)
    ensures SortDesc(SortDesc(s, key), key) == SortDesc(s, key)
  {
    SortDescCorrect(s, key);
    SortDescOfSorted(SortDesc(s, key), key);
  }

  /** List<T>.Remove: drops the first occurrence of `x`, if any. */
  function RemoveFirst<T(==)>(s: seq<T>, x: T): seq<T> {
    if s == [] then []
    else if s[0] == x then s[1..]
    else [s[0]] + RemoveFirst(s[1..], x)
  }

  /** Without an occurrence nothing changes; otherwise exactly one copy of `x` goes. */
  lemma {:induction false} RemoveFirstCount<T>(s: seq<T>, x: T)
    ensures x !in s ==> RemoveFirst(s, x) == s
    ensures multiset(RemoveFirst(s, x)) == multiset(s) - multiset{x}
  {
    if s != [] {
      RemoveFirstCount(s[1..], x);
      assert s == [s[0]] + s[1..];
    }
  }

  /** The occurrence removed is the first one, and the rest keep their order. */
  lemma {:induction false} RemoveFirstAt<T>(s: seq<T>, x: T, i: nat)
    requires i < |s| && s[i] == x && x !in s[..i]
    ensures RemoveFirst(s, x) == s[..i] + s[i + 1..]
  {
    if i > 0 {
      assert s[1..][..i - 1] == s[..i][1..];
      RemoveFirstAt(s[1..], x, i - 1);
      assert s[1..][i..] == s[i + 1..];
    }
  }

  /** Removes the first occurrence of each element of `xs`, in the order of `xs`. */
  function RemoveEach<T(==)>(s: seq<T>, xs: seq<T>): seq<T> {
    if xs == [] then s else RemoveFirst(RemoveEach(s, xs[..|xs| - 1]), xs[|xs| - 1])
  }

  lemma {:induction false} RemoveEachCount<T>(s: seq<T>, xs: seq<T>)
    ensures multiset(RemoveEach(s, xs)) == multiset(s) - multiset(xs)
  {
    if xs != [] {
      var init, last := xs[..|xs| - 1], xs[|xs| - 1];
      RemoveEachCount(s, init);
      RemoveFirstCount(RemoveEach(s, init), last);
      assert xs == init + [last];
    }
  }
}
