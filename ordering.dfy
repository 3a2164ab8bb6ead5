/**
 * Orderings used when rows are read back: rows sorted by a (timestamp, id)
 * stamp, ascending, and strings sorted by code point with duplicates removed.
 */
module Ordering {

  /** The ordering key of a timestamped row: the timestamp, then the id as a tie-break. */
  datatype Stamp = Stamp(time: int, id: int)

  predicate StampLe(a: Stamp, b: Stamp) {
    a.time < b.time || (a.time == b.time && a.id <= b.id)
  }

  predicate SortedBy<T>(s: seq<T>, key: T -> Stamp) {
    forall i, j :: 0 <= i < j < |s| ==> StampLe(key(s[i]), key(s[j]))
  }

  /** No two different elements of `s` share a stamp. */
  ghost predicate KeyInjective<T>(s: seq<T>, key: T -> Stamp) {
    forall i, j :: 0 <= i < |s| && 0 <= j < |s| && key(s[i]) == key(s[j]) ==> s[i] == s[j]
  }

  /** Inserts `x` into `s` before the first element whose stamp is not smaller. */
  function InsertBy<T>(x: T, s: seq<T>, key: T -> Stamp): seq<T> {
    if s == [] then [x]
    else if StampLe(key(x), key(s[0])) then [x] + s
    else [s[0]] + InsertBy(x, s[1..], key)
  }

  /** Insertion sort by stamp (stable: equal stamps keep their input order). */
  function SortBy<T>(s: seq<T>, key: T -> Stamp): seq<T> {
    if s == [] then [] else InsertBy(s[0], SortBy(s[1..], key), key)
  }

  lemma {:induction false} InsertByPermutes<T>(x: T, s: seq<T>, key: T -> Stamp)
    ensures multiset(InsertBy(x, s, key)) == multiset(s) + multiset{x}
    ensures |InsertBy(x, s, key)| == |s| + 1
  {
    if s != [] && !StampLe(key(x), key(s[0])) {
      InsertByPermutes(x, s[1..], key);
      assert s == [s[0]] + s[1..];
    }
  }

  lemma {:induction false} InsertBySorted<T>(x: T, s: seq<T>, key: T -> Stamp)
    requires SortedBy(s, key)
    ensures SortedBy(InsertBy(x, s, key), key)
  {
    if s != [] && !StampLe(key(x), key(s[0])) {
      var rest := InsertBy(x, s[1..], key);
      InsertBySorted(x, s[1..], key);
      InsertByPermutes(x, s[1..], key);
      var r := [s[0]] + rest;
      forall j | 0 < j < |r| ensures StampLe(key(s[0]), key(r[j])) {
        var y := r[j];
        assert y in multiset(rest);
        assert y in multiset(s[1..]) + multiset{x};
        if y != x {
          assert y in s[1..];
          var k :| 0 <= k < |s[1..]| && s[1..][k] == y;
          assert s[k + 1] == y;
        }
      }
    }
  }

  /** The sorted sequence is sorted by stamp and is a permutation of the input. */
  lemma {:induction false} SortByCorrect<T>(s: seq<T>, key: T -> Stamp)
    ensures SortedBy(SortBy(s, key), key)
    ensures multiset(SortBy(s, key)) == multiset(s)
    ensures |SortBy(s, key)| == |s|
  {
    if s != [] {
      SortByCorrect(s[1..], key);
      InsertBySorted(s[0], SortBy(s[1..], key), key);
      InsertByPermutes(s[0], SortBy(s[1..], key), key);
      assert s == [s[0]] + s[1..];
    }
  }

  lemma {:induction false} SortedHeadIsLeast<T>(s: seq<T>, key: T -> Stamp, y: T)
    requires SortedBy(s, key) && y in s
    ensures StampLe(key(s[0]), key(y))
  {
    var k :| 0 <= k < |s| && s[k] == y;
  }

  lemma {:induction false} MultisetTail<T>(a: seq<T>)
    requires a != []
    ensures multiset(a[1..]) == multiset(a) - multiset{a[0]}
  {
    assert a == [a[0]] + a[1..];
  }

  /**
   * Two sequences sorted by stamp that hold the same elements, none of them
   * sharing a stamp with another, are equal: the sorted order is unique.
   */
  lemma {:induction false} SortedUnique<T>(a: seq<T>, b: seq<T>, key: T -> Stamp)
    requires SortedBy(a, key) && SortedBy(b, key)
    requires multiset(a) == multiset(b)
    requires KeyInjective(a, key)
    ensures a == b
  {
    assert |a| == |multiset(a)| == |multiset(b)| == |b|;
    if a != [] {
      assert a[0] in multiset(b) && b[0] in multiset(a);
      SortedHeadIsLeast(b, key, a[0]);
      SortedHeadIsLeast(a, key, b[0]);
      var k :| 0 <= k < |a| && a[k] == b[0];
      assert key(a[0]) == key(a[k]);
      assert a[0] == b[0];
      MultisetTail(a);
      MultisetTail(b);
      var a', b' := a[1..], b[1..];
      assert SortedBy(a', key) by {
        forall i, j | 0 <= i < j < |a'| ensures StampLe(key(a'[i]), key(a'[j])) {
          assert a'[i] == a[i + 1] && a'[j] == a[j + 1];
        }
      }
      assert SortedBy(b', key) by {
        forall i, j | 0 <= i < j < |b'| ensures StampLe(key(b'[i]), key(b'[j])) {
          assert b'[i] == b[i + 1] && b'[j] == b[j + 1];
        }
      }
      assert KeyInjective(a', key) by {
        forall i, j | 0 <= i < |a'| && 0 <= j < |a'| && key(a'[i]) == key(a'[j]) ensures a'[i] == a'[j] {
          assert a'[i] == a[i + 1] && a'[j] == a[j + 1];
        }
      }
      SortedUnique(a', b', key);
      assert a == [a[0]] + a' && b == [b[0]] + b';
    }
  }

  /** Sorting depends only on which elements are given, not on their order. */
  lemma {:induction false} SortByOfPermutation<T>(a: seq<T>, b: seq<T>, key: T -> Stamp)
    requires multiset(a) == multiset(b)
    requires KeyInjective(a, key)
    ensures SortBy(a, key) == SortBy(b, key)
  {
    SortByCorrect(a, key);
    SortByCorrect(b, key);
    var sa := SortBy(a, key);
    forall i, j | 0 <= i < |sa| && 0 <= j < |sa| && key(sa[i]) == key(sa[j]) ensures sa[i] == sa[j] {
      assert sa[i] in multiset(a) && sa[j] in multiset(a);
      var p :| 0 <= p < |a| && a[p] == sa[i];
      var q :| 0 <= q < |a| && a[q] == sa[j];
    }
    SortedUnique(sa, SortBy(b, key), key);
  }

  // ---------------------------------------------------------------------------
  // Strings in code-point order

  /** Lexicographic order on strings by code point, as Python compares `str` values. */
  predicate StrLess(a: string, b: string) {
    if a == [] then b != []
    else if b == [] then false
    else if a[0] != b[0] then a[0] < b[0]
    else StrLess(a[1..], b[1..])
  }

  lemma {:induction false} StrLessIrreflexive(a: string)
    ensures !StrLess(a, a)
  {
    if a != [] {
      StrLessIrreflexive(a[1..]);
    }
  }

  lemma {:induction false} StrLessTransitive(a: string, b: string, c: string)
    requires StrLess(a, b) && StrLess(b, c)
    ensures StrLess(a, c)
  {
    if a != [] && b != [] && c != [] && a[0] == b[0] == c[0] {
      StrLessTransitive(a[1..], b[1..], c[1..]);
    }
  }

  lemma {:induction false} StrLessTotal(a: string, b: string)
    ensures a == b || StrLess(a, b) || StrLess(b, a)
  {
    if a != [] && b != [] && a[0] == b[0] {
      StrLessTotal(a[1..], b[1..]);
      if a[1..] == b[1..] {
        assert a == [a[0]] + a[1..] && b == [b[0]] + b[1..];
      }
    }
  }

  lemma {:induction false} StrLessAsymmetric(a: string, b: string)
    requires StrLess(a, b)
    ensures !StrLess(b, a)
  {
    if a != [] && b != [] && a[0] == b[0] {
      StrLessAsymmetric(a[1..], b[1..]);
    }
  }

  /** The set of strings occurring in `s`. */
  function Elems(s: seq<string>): set<string> {
    set y | y in s
  }

  predicate StrictlySorted(s: seq<string>) {
    forall i, j :: 0 <= i < j < |s| ==> StrLess(s[i], s[j])
  }

  /** Inserts `x` into a strictly sorted sequence unless it is already there. */
  function InsertDistinct(x: string, s: seq<string>): seq<string> {
    if s == [] then [x]
    else if x == s[0] then s
    else if StrLess(x, s[0]) then [x] + s
    else [s[0]] + InsertDistinct(x, s[1..])
  }

  /** Python's `sorted(set(xs))`: the distinct strings of `xs` in increasing order. */
  function SortedDistinct(xs: seq<string>): seq<string> {
    if xs == [] then [] else InsertDistinct(xs[0], SortedDistinct(xs[1..]))
  }

  lemma {:induction false} StrictlySortedTail(s: seq<string>)
    requires s != [] && StrictlySorted(s)
    ensures StrictlySorted(s[1..])
  {
    forall i, j | 0 <= i < j < |s[1..]| ensures StrLess(s[1..][i], s[1..][j]) {
      assert s[1..][i] == s[i + 1] && s[1..][j] == s[j + 1];
    }
  }

  /** Prepending an element smaller than the head keeps a sequence strictly sorted. */
  lemma {:induction false} StrictlySortedCons(x: string, s: seq<string>)
    requires StrictlySorted(s)
    requires forall y :: y in Elems(s) ==> StrLess(x, y)
    ensures StrictlySorted([x] + s)
  {
    var r := [x] + s;
    forall i, j | 0 <= i < j < |r| ensures StrLess(r[i], r[j]) {
      if i == 0 {
        assert r[j] == s[j - 1];
        assert r[j] in Elems(s);
      } else {
        assert r[i] == s[i - 1] && r[j] == s[j - 1];
      }
    }
  }

  /** A string below the head of a strictly sorted sequence is below all of it. */
  lemma BelowHeadBelowAll(x: string, s: seq<string>)
    requires s != [] && StrictlySorted(s) && StrLess(x, s[0])
    ensures forall y :: y in Elems(s) ==> StrLess(x, y)
  {
    forall y | y in Elems(s) ensures StrLess(x, y) {
      var k :| 0 <= k < |s| && s[k] == y;
      if k > 0 {
        StrLessTransitive(x, s[0], y);
      }
    }
  }

  /** The head of a strictly sorted sequence is below every element of its tail. */
  lemma HeadBelowTail(s: seq<string>)
    requires s != [] && StrictlySorted(s)
    ensures forall y :: y in Elems(s[1..]) ==> StrLess(s[0], y)
  {
    forall y | y in Elems(s[1..]) ensures StrLess(s[0], y) {
      var k :| 0 <= k < |s[1..]| && s[1..][k] == y;
      assert s[k + 1] == y;
    }
  }

  lemma {:induction false} InsertDistinctCorrect(x: string, s: seq<string>)
    requires StrictlySorted(s)
    ensures StrictlySorted(InsertDistinct(x, s))
    ensures Elems(InsertDistinct(x, s)) == Elems(s) + {x}
  {
    if s == [] {
      assert Elems([x]) == {x};
    } else if x == s[0] {
    } else if StrLess(x, s[0]) {
      BelowHeadBelowAll(x, s);
      StrictlySortedCons(x, s);
      assert Elems([x] + s) == Elems(s) + {x};
    } else {
      StrLessTotal(x, s[0]);
      StrictlySortedTail(s);
      InsertDistinctCorrect(x, s[1..]);
      var rest := InsertDistinct(x, s[1..]);
      assert s == [s[0]] + s[1..];
      assert Elems(s) == {s[0]} + Elems(s[1..]);
      HeadBelowTail(s);
      assert forall y :: y in Elems(rest) ==> y == x || y in Elems(s[1..]);
      StrictlySortedCons(s[0], rest);
      assert Elems([s[0]] + rest) == {s[0]} + Elems(rest);
    }
  }

  /** `SortedDistinct(xs)` is strictly increasing and holds exactly the elements of `xs`. */
  lemma {:induction false} SortedDistinctCorrect(xs: seq<string>)
    ensures StrictlySorted(SortedDistinct(xs))
    ensures Elems(SortedDistinct(xs)) == Elems(xs)
  {
    if xs != [] {
      SortedDistinctCorrect(xs[1..]);
      InsertDistinctCorrect(xs[0], SortedDistinct(xs[1..]));
      assert xs == [xs[0]] + xs[1..];
    }
  }
}
