/**
 * Python's ordering of strings (lexicographic by code point) and its
 * `sorted(..., key=...)`, which is a stable sort: elements with equal keys
 * keep their relative order.
 */
module Sorting {

  /** Python's `a < b` on strings. */
  predicate Less(a: string, b: string)
    decreases |a|
  {
    if a == [] then b != []
    else if b == [] then false
    else if a[0] != b[0] then a[0] < b[0]
    else Less(a[1..], b[1..])
  }

  predicate LessEq(a: string, b: string) {
    a == b || Less(a, b)
  }

  lemma {:induction false} LessIrreflexive(a: string)
    ensures !Less(a, a)
    decreases |a|
  {
    if a != [] {
      LessIrreflexive(a[1..]);
    }
  }

  lemma {:induction false} LessTransitive(a: string, b: string, c: string)
    requires Less(a, b) && Less(b, c)
    ensures Less(a, c)
    decreases |a|
  {
    if a != [] && b != [] && c != [] && a[0] == b[0] && b[0] == c[0] {
      LessTransitive(a[1..], b[1..], c[1..]);
    }
  }

  /** Any two different strings are ordered one way or the other. */
  lemma {:induction false} LessTotal(a: string, b: string)
    ensures a == b || Less(a, b) || Less(b, a)
    decreases |a|
  {
    if a != [] && b != [] && a[0] == b[0] {
      LessTotal(a[1..], b[1..]);
      if a[1..] == b[1..] {
        assert a == [a[0]] + a[1..] && b == [b[0]] + b[1..];
      }
    }
  }

  lemma {:induction false} LessAsymmetric(a: string, b: string)
    requires Less(a, b)
    ensures !Less(b, a)
  {
    if Less(b, a) {
      LessTransitive(a, b, a);
      LessIrreflexive(a);
    }
  }

  /** The keys of `s` never decrease. */
  ghost predicate SortedBy<T>(s: seq<T>, key: T -> string) {
    forall i, j :: 0 <= i < j < |s| ==> LessEq(key(s[i]), key(s[j]))
  }

  /** The elements of `s` are strictly increasing. */
  ghost predicate StrictlySorted(s: seq<string>) {
    forall i, j :: 0 <= i < j < |s| ==> Less(s[i], s[j])
  }

  /** The subsequence of the elements of `s` whose key is `v`. */
  function WithKey<T>(s: seq<T>, key: T -> string, v: string): seq<T> {
    if s == [] then []
    else (if key(s[0]) == v then [s[0]] else []) + WithKey(s[1..], key, v)
  }

  /** Inserts `x` before the first element whose key is not smaller than its own. */
  function InsertBy<T>(x: T, s: seq<T>, key: T -> string): seq<T> {
    if s == [] then [x]
    else if LessEq(key(x), key(s[0])) then [x] + s
    else [s[0]] + InsertBy(x, s[1..], key)
  }

  /** `sorted(s, key=key)`, as an insertion sort. */
  function SortBy<T>(s: seq<T>, key: T -> string): seq<T> {
    if s == [] then [] else InsertBy(s[0], SortBy(s[1..], key), key)
  }

  function Id(x: string): string {
    x
  }

  lemma {:induction false} InsertByPermutes<T>(x: T, s: seq<T>, key: T -> string)
    ensures multiset(InsertBy(x, s, key)) == multiset(s) + multiset{x}
  {
    if s != [] && !LessEq(key(x), key(s[0])) {
      InsertByPermutes(x, s[1..], key);
      assert s == [s[0]] + s[1..];
    }
  }

  lemma {:induction false} InsertBySorted<T>(x: T, s: seq<T>, key: T -> string)
    requires SortedBy(s, key)
    ensures SortedBy(InsertBy(x, s, key), key)
  {
    if s == [] {
    } else if LessEq(key(x), key(s[0])) {
      var r := [x] + s;
      forall i, j | 0 <= i < j < |r| ensures LessEq(key(r[i]), key(r[j])) {
        if i == 0 && j > 1 {
          assert LessEq(key(s[0]), key(s[j - 1]));
          if Less(key(x), key(s[0])) && Less(key(s[0]), key(s[j - 1])) {
            LessTransitive(key(x), key(s[0]), key(s[j - 1]));
          }
        }
      }
    } else {
      LessTotal(key(x), key(s[0]));
      var t := s[1..];
      assert SortedBy(t, key) by {
        forall i, j | 0 <= i < j < |t| ensures LessEq(key(t[i]), key(t[j])) {
          assert t[i] == s[i + 1] && t[j] == s[j + 1];
        }
      }
      InsertBySorted(x, t, key);
      InsertByPermutes(x, t, key);
      var u := InsertBy(x, t, key);
      var r := [s[0]] + u;
      forall i, j | 0 <= i < j < |r| ensures LessEq(key(r[i]), key(r[j])) {
        if i == 0 {
          var y := u[j - 1];
          assert y in multiset(u);
          assert y == x || y in multiset(t);
          if y != x {
            var k :| 0 <= k < |t| && t[k] == y;
            assert s[k + 1] == y;
          }
        }
      }
    }
  }

  /** `WithKey` of a sequence with a known first element. */
  lemma WithKeyCons<T>(y: T, t: seq<T>, key: T -> string, v: string)
    ensures WithKey([y] + t, key, v) == (if key(y) == v then [y] else []) + WithKey(t, key, v)
  {
    assert ([y] + t)[1..] == t;
  }

  lemma {:induction false} InsertByStable<T>(x: T, s: seq<T>, key: T -> string, v: string)
    ensures WithKey(InsertBy(x, s, key), key, v)
         == (if key(x) == v then [x] else []) + WithKey(s, key, v)
  {
    if s == [] {
    } else if LessEq(key(x), key(s[0])) {
      WithKeyCons(x, s, key, v);
    } else {
      InsertByStable(x, s[1..], key, v);
      var u := InsertBy(x, s[1..], key);
      WithKeyCons(s[0], u, key, v);
      WithKeyCons(s[0], s[1..], key, v);
      assert s == [s[0]] + s[1..];
      var w := WithKey(s[1..], key, v);
      if key(x) == v {
        assert key(s[0]) != v;
        assert WithKey(u, key, v) == [x] + w;
      } else {
        assert WithKey(u, key, v) == w;
      }
    }
  }

  /** Sorting rearranges the elements and nothing else. */
  lemma {:induction false} SortByPermutes<T>(s: seq<T>, key: T -> string)
    ensures multiset(SortBy(s, key)) == multiset(s)
  {
    if s != [] {
      SortByPermutes(s[1..], key);
      InsertByPermutes(s[0], SortBy(s[1..], key), key);
      assert s == [s[0]] + s[1..];
    }
  }

  /** Sorting leaves the keys in ascending order. */
  lemma {:induction false} SortBySorted<T>(s: seq<T>, key: T -> string)
    ensures SortedBy(SortBy(s, key), key)
  {
    if s != [] {
      SortBySorted(s[1..], key);
      InsertBySorted(s[0], SortBy(s[1..], key), key);
    }
  }

  /** The sort is stable: for every key, the elements with that key keep their order. */
  lemma {:induction false} SortByStable<T>(s: seq<T>, key: T -> string, v: string)
    ensures WithKey(SortBy(s, key), key, v) == WithKey(s, key, v)
  {
    if s != [] {
      SortByStable(s[1..], key, v);
      InsertByStable(s[0], SortBy(s[1..], key), key, v);
    }
  }

  /** Sorting strings that are all different gives a strictly increasing sequence. */
  lemma SortDistinctStrictly(s: seq<string>)
    requires forall i, j :: 0 <= i < j < |s| ==> s[i] != s[j]
    ensures StrictlySorted(SortBy(s, Id))
  {
    var r := SortBy(s, Id);
    SortBySorted(s, Id);
    SortByPermutes(s, Id);
    forall i, j | 0 <= i < j < |r| ensures Less(r[i], r[j]) {
      assert LessEq(r[i], r[j]);
      if r[i] == r[j] {
        MultisetCountTwo(r, i, j);
        DistinctCountOne(s, r[i]);
        assert false;
      }
    }
  }

  lemma MultisetCountTwo(r: seq<string>, i: nat, j: nat)
    requires i < j < |r| && r[i] == r[j]
    ensures multiset(r)[r[i]] >= 2
  {
    assert r == r[..i] + [r[i]] + r[i + 1..j] + [r[j]] + r[j + 1..];
  }

  lemma {:induction false} DistinctCountOne(s: seq<string>, x: string)
    requires forall i, j :: 0 <= i < j < |s| ==> s[i] != s[j]
    ensures multiset(s)[x] <= 1
  {
    if s != [] {
      var t := s[1..];
      DistinctCountOne(t, x);
      assert s == [s[0]] + t;
    }
  }
}
