/** Text ordering as SQLite applies it to TEXT columns under its default BINARY
    collation, and the ORDER BY ... DESC sort built on it.

    BINARY compares the UTF-8 bytes of two strings with memcmp, the shorter one
    first on a common prefix. UTF-8 preserves code point order, so on Dafny
    strings (sequences of Unicode scalar values) the same order is plain
    lexicographic order on characters. */
module Ordering {

  /** a <= b in SQLite's BINARY collation. */
  predicate LexLe(a: string, b: string)
  {
    if a == [] then true
    else if b == [] then false
    else if a[0] != b[0] then a[0] < b[0]
    else LexLe(a[1..], b[1..])
  }

  /** a < b in SQLite's BINARY collation. */
  predicate LexLt(a: string, b: string)
  {
    LexLe(a, b) && a != b
  }

  lemma {:induction false} LexLeReflexive(a: string)
    ensures LexLe(a, a)
  {
    if a != [] {
      LexLeReflexive(a[1..]);
    }
  }

  lemma {:induction false} LexLeTotal(a: string, b: string)
    ensures LexLe(a, b) || LexLe(b, a)
  {
    if a != [] && b != [] && a[0] == b[0] {
      LexLeTotal(a[1..], b[1..]);
    }
  }

  lemma {:induction false} LexLeAntisymmetric(a: string, b: string)
    requires LexLe(a, b) && LexLe(b, a)
    ensures a == b
  {
    if a != [] && b != [] {
      LexLeAntisymmetric(a[1..], b[1..]);
      assert a == [a[0]] + a[1..];
      assert b == [b[0]] + b[1..];
    }
  }

  lemma {:induction false} LexLeTransitive(a: string, b: string, c: string)
    requires LexLe(a, b) && LexLe(b, c)
    ensures LexLe(a, c)
  {
    if a != [] && b != [] && c != [] && a[0] == b[0] && b[0] == c[0] {
      LexLeTransitive(a[1..], b[1..], c[1..]);
    }
  }

  /** Every element's key is at least the key of every later element: the
      order an "ORDER BY key DESC" result comes back in. */
  predicate SortedDesc<T>(xs: seq<T>, key: T -> string)
  {
    forall i, j | 0 <= i < j < |xs| :: LexLe(key(xs[j]), key(xs[i]))
  }

  /** Puts x in front of the first element whose key is not greater than x's. */
  function InsertDesc<T>(x: T, xs: seq<T>, key: T -> string): (r: seq<T>)
    requires SortedDesc(xs, key)
    ensures multiset(r) == multiset(xs) + multiset{x}
    ensures SortedDesc(r, key)
  {
    if xs == [] then [x]
    else if LexLe(key(xs[0]), key(x)) then
      HeadBelow(x, xs, key);
      ConsSorted(x, xs, key);
      [x] + xs
    else
      var rest := InsertDesc(x, xs[1..], key);
      LexLeTotal(key(xs[0]), key(x));
      assert xs == [xs[0]] + xs[1..];
      RestBelowHead(xs, x, rest, key);
      ConsSorted(xs[0], rest, key);
      [xs[0]] + rest
  }

  /** An element whose key is at least every key of a descending sequence
      can go in front of it. */
  lemma ConsSorted<T>(y: T, rest: seq<T>, key: T -> string)
    requires SortedDesc(rest, key)
    requires forall j | 0 <= j < |rest| :: LexLe(key(rest[j]), key(y))
    ensures SortedDesc([y] + rest, key)
  {
    var r := [y] + rest;
    assert forall p | 0 < p < |r| :: r[p] == rest[p - 1];
  }

  /** A key at least the head's of a descending sequence is at least all of them. */
  lemma HeadBelow<T>(x: T, xs: seq<T>, key: T -> string)
    requires SortedDesc(xs, key) && xs != [] && LexLe(key(xs[0]), key(x))
    ensures forall j | 0 <= j < |xs| :: LexLe(key(xs[j]), key(x))
  {
    forall j | 0 < j < |xs| ensures LexLe(key(xs[j]), key(x)) {
      LexLeTransitive(key(xs[j]), key(xs[0]), key(x));
    }
  }

  /** The tail of a descending sequence with an element no greater than its
      head added stays at or below the head. */
  lemma RestBelowHead<T>(xs: seq<T>, x: T, rest: seq<T>, key: T -> string)
    requires xs != [] && SortedDesc(xs, key) && LexLe(key(x), key(xs[0]))
    requires multiset(rest) == multiset(xs[1..]) + multiset{x}
    ensures forall j | 0 <= j < |rest| :: LexLe(key(rest[j]), key(xs[0]))
  {
    forall j | 0 <= j < |rest| ensures LexLe(key(rest[j]), key(xs[0])) {
      var y := rest[j];
      assert y in multiset(rest);
      if y != x {
        assert y in multiset(xs[1..]);
        var k :| 0 <= k < |xs[1..]| && xs[1..][k] == y;
        assert xs[k + 1] == y;
      }
    }
  }

  /** The rows of xs in descending key order (an insertion sort); which of two
      rows with equal keys comes first is not part of the contract, as SQLite
      does not promise it either. */
  function SortDesc<T>(xs: seq<T>, key: T -> string): (r: seq<T>)
    ensures multiset(r) == multiset(xs)
    ensures SortedDesc(r, key)
  {
    if xs == [] then []
    else
      assert xs == [xs[0]] + xs[1..];
      InsertDesc(xs[0], SortDesc(xs[1..], key), key)
  }

  /** Removing one copy of the same element from two equal multisets leaves
      equal multisets. */
  lemma MultisetCancel<T>(x: multiset<T>, y: multiset<T>, e: T)
    requires x + multiset{e} == y + multiset{e}
    ensures x == y
  {
    forall z ensures x[z] == y[z] {
      assert (x + multiset{e})[z] == (y + multiset{e})[z];
    }
  }

  /** The first element of a sits at some position k of its permutation b,
      and the rest of a is a permutation of b without that position. */
  lemma MatchHead<T>(a: seq<T>, b: seq<T>) returns (k: nat)
    requires multiset(a) == multiset(b) && a != []
    ensures k < |b| && b[k] == a[0]
    ensures multiset(a[1..]) == multiset(b[..k] + b[k + 1..])
    ensures b == b[..k] + [b[k]] + b[k + 1..]
  {
    assert a[0] in multiset(b);
    k :| 0 <= k < |b| && b[k] == a[0];
    var rest := b[..k] + b[k + 1..];
    assert b == b[..k] + [b[k]] + b[k + 1..];
    assert a == [a[0]] + a[1..];
    assert multiset(b) == multiset(b[..k]) + multiset{b[k]} + multiset(b[k + 1..]);
    assert multiset(a) == multiset(a[1..]) + multiset{a[0]};
    assert multiset(rest) == multiset(b[..k]) + multiset(b[k + 1..]);
    MultisetCancel(multiset(a[1..]), multiset(rest), a[0]);
  }

  /** Keys listed once each, in strictly ascending order: the index pandas
      builds when it groups by a text column. */
  predicate StrictlyAscending(xs: seq<string>)
  {
    forall i, j | 0 <= i < j < |xs| :: LexLt(xs[i], xs[j])
  }

  /** Adds x to a strictly ascending list of keys unless it is already there. */
  function InsertKey(x: string, xs: seq<string>): (r: seq<string>)
    requires StrictlyAscending(xs)
    ensures StrictlyAscending(r)
    ensures forall y :: y in r <==> y == x || y in xs
  {
    if xs == [] then [x]
    else if x == xs[0] then xs
    else if LexLe(x, xs[0]) then
      assert forall j | 0 < j < |xs| :: LexLt(x, xs[j]) by {
        forall j | 0 < j < |xs| ensures LexLt(x, xs[j]) {
          LexLeTransitive(x, xs[0], xs[j]);
          if x == xs[j] {
            LexLeAntisymmetric(x, xs[0]);
          }
        }
      }
      [x] + xs
    else
      var rest := InsertKey(x, xs[1..]);
      LexLeTotal(x, xs[0]);
      var r := [xs[0]] + rest;
      assert forall j | 0 < j < |r| :: LexLt(xs[0], r[j]) by {
        forall j | 0 < j < |r| ensures LexLt(xs[0], r[j]) {
          assert r[j] == rest[j - 1];
          assert r[j] in rest;
          if r[j] != x {
            var k :| 0 <= k < |xs[1..]| && xs[1..][k] == r[j];
            assert xs[k + 1] == r[j];
          }
        }
      }
      assert xs == [xs[0]] + xs[1..];
      r
  }

  /** The distinct values of xs in ascending order. */
  function SortedKeys(xs: seq<string>): (r: seq<string>)
    ensures StrictlyAscending(r)
    ensures forall y :: y in r <==> y in xs
  {
    if xs == [] then []
    else
      assert xs == [xs[0]] + xs[1..];
      InsertKey(xs[0], SortedKeys(xs[1..]))
  }
}
