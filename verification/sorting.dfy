/**
 * Stable sorting, as JavaScript's `Array.prototype.sort` does it (the language
 * requires a stable sort since ES2019). A database `ORDER BY` promises only
 * that its output is ordered by the key; the stable sort is one such order.
 * Every comparator the application uses orders its elements by a key of up
 * to three integers compared lexicographically (`(a, b) => k(b) - k(a)` is
 * the key `-k`). A stable sort's output is fixed
 * by the key alone, so it is defined here as insertion sort: `Sort` on
 * sequences, and `SortInPlace` for the sort that rearranges the caller's array.
 */
module Sorting {

  /** A sort key: compared on `first`, then `second`, then `third`. */
  datatype SortKey = SortKey(first: int, second: int, third: int)

  predicate KeyLeq(x: SortKey, y: SortKey)
  {
    x.first < y.first ||
    (x.first == y.first && (x.second < y.second || (x.second == y.second && x.third <= y.third)))
  }

  /** `a` sorts strictly before `b`. */
  predicate Before<T>(key: T -> SortKey, a: T, b: T)
  {
    !KeyLeq(key(b), key(a))
  }

  /** `a` may sort before `b`. */
  predicate Leq<T>(key: T -> SortKey, a: T, b: T)
  {
    KeyLeq(key(a), key(b))
  }

  predicate Sorted<T>(s: seq<T>, key: T -> SortKey)
  {
    forall i, j :: 0 <= i < j < |s| ==> Leq(key, s[i], s[j])
  }

  /** Inserts `x` after every element that does not sort strictly after it. */
  function Insert<T>(x: T, s: seq<T>, key: T -> SortKey): (r: seq<T>)
    ensures |r| == |s| + 1
  {
    if s == [] || Before(key, x, s[0]) then [x] + s
    else [s[0]] + Insert(x, s[1..], key)
  }

  /** Inserting adds `x` and loses nothing. */
  lemma {:induction false} InsertPermutation<T>(x: T, s: seq<T>, key: T -> SortKey)
    ensures multiset(Insert(x, s, key)) == multiset(s) + multiset{x}
  {
    if s != [] && !Before(key, x, s[0]) {
      InsertPermutation(x, s[1..], key);
      assert s == [s[0]] + s[1..];
    }
  }

  /** The stable sort of `s`: each element in turn is inserted into the sorted
      prefix before it. */
  function Sort<T>(s: seq<T>, key: T -> SortKey): (r: seq<T>)
    ensures |r| == |s|
  {
    if s == [] then []
    else Insert(s[|s| - 1], Sort(s[..|s| - 1], key), key)
  }

  /** The sort is a permutation of its input. */
  lemma {:induction false} SortPermutation<T>(s: seq<T>, key: T -> SortKey)
    ensures multiset(Sort(s, key)) == multiset(s)
  {
    if s != [] {
      SortPermutation(s[..|s| - 1], key);
      InsertPermutation(s[|s| - 1], Sort(s[..|s| - 1], key), key);
      assert s == s[..|s| - 1] + [s[|s| - 1]];
    }
  }

  lemma {:induction false} InsertSorted<T>(x: T, s: seq<T>, key: T -> SortKey)
    requires Sorted(s, key)
    ensures Sorted(Insert(x, s, key), key)
  {
    if s == [] || Before(key, x, s[0]) {
      var r := [x] + s;
      forall i, j | 0 <= i < j < |r| ensures Leq(key, r[i], r[j]) {
        if i == 0 {
          assert Leq(key, x, s[0]);
          if j > 1 { assert Leq(key, s[0], s[j - 1]); }
        } else {
          assert r[i] == s[i - 1] && r[j] == s[j - 1];
        }
      }
    } else {
      assert Leq(key, s[0], x);
      InsertSorted(x, s[1..], key);
      InsertPermutation(x, s[1..], key);
      var t := Insert(x, s[1..], key);
      var r := [s[0]] + t;
      forall i, j | 0 <= i < j < |r| ensures Leq(key, r[i], r[j]) {
        if i == 0 {
          var y := t[j - 1];
          assert y in multiset(t);
          assert y in multiset(s[1..]) || y == x;
          if y != x {
            var k :| 0 <= k < |s[1..]| && s[1..][k] == y;
            assert s[k + 1] == y;
          }
        } else {
          assert r[i] == t[i - 1] && r[j] == t[j - 1];
        }
      }
    }
  }

  /** The sort's output is ordered by its key. */
  lemma {:induction false} SortSorted<T>(s: seq<T>, key: T -> SortKey)
    ensures Sorted(Sort(s, key), key)
  {
    if s != [] {
      SortSorted(s[..|s| - 1], key);
      InsertSorted(s[|s| - 1], Sort(s[..|s| - 1], key), key);
    }
  }

  /** Inserting into a sorted sequence lands at the first element that sorts
      strictly after `x`. */
  lemma {:induction false} InsertAt<T>(x: T, s: seq<T>, key: T -> SortKey, j: nat)
    requires Sorted(s, key)
    requires j <= |s|
    requires j == 0 || !Before(key, x, s[j - 1])
    requires j == |s| || Before(key, x, s[j])
    ensures Insert(x, s, key) == s[..j] + [x] + s[j..]
    decreases j
  {
    if j > 0 {
      if Before(key, x, s[0]) {
        BeforeThenLeq(key, x, s[0], s[j - 1]);
        assert false;
      }
      var t := s[1..];
      assert Insert(x, s, key) == [s[0]] + Insert(x, t, key);
      assert j - 1 == 0 || t[j - 2] == s[j - 1];
      assert j - 1 == |t| || t[j - 1] == s[j];
      InsertAt(x, t, key, j - 1);
      assert s[..j] == [s[0]] + t[..j - 1];
      assert s[j..] == t[j - 1..];
    }
  }

  /** Sorting strictly before `b` and `b <= c` puts `a` strictly before `c`. */
  lemma BeforeThenLeq<T>(key: T -> SortKey, a: T, b: T, c: T)
    requires Before(key, a, b) && Leq(key, b, c)
    ensures Before(key, a, c)
  {
  }

  /** Sorting a sorted sequence leaves it as it is (re-sorting is a fixpoint). */
  lemma {:induction false} SortOfSorted<T>(s: seq<T>, key: T -> SortKey)
    requires Sorted(s, key)
    ensures Sort(s, key) == s
  {
    if s != [] {
      var p := s[..|s| - 1];
      var x := s[|s| - 1];
      assert Sorted(p, key);
      SortOfSorted(p, key);
      InsertAtEnd(x, p, key);
      assert p + [x] == s;
    }
  }

  /** An element that sorts no earlier than the last one is appended. */
  lemma {:induction false} InsertAtEnd<T>(x: T, p: seq<T>, key: T -> SortKey)
    requires forall k :: 0 <= k < |p| ==> Leq(key, p[k], x)
    ensures Insert(x, p, key) == p + [x]
  {
    if p != [] {
      InsertAtEnd(x, p[1..], key);
      assert [p[0]] + (p[1..] + [x]) == p + [x];
    }
  }

  /** Sorting twice is sorting once. */
  lemma SortIdempotent<T>(s: seq<T>, key: T -> SortKey)
    ensures Sort(Sort(s, key), key) == Sort(s, key)
  {
    SortSorted(s, key);
    SortOfSorted(Sort(s, key), key);
  }

  /** Sorts the array in place; the result is `Sort` of its old contents. */
  method SortInPlace<T>(a: array<T>, key: T -> SortKey)
    modifies a
    ensures a[..] == Sort(old(a[..]), key)
  {
    ghost var orig := a[..];
    var i := 0;
    while i < a.Length
      invariant 0 <= i <= a.Length
      invariant a[..i] == Sort(orig[..i], key)
      invariant a[i..] == orig[i..]
    {
      SortSorted(orig[..i], key);
      SortStep(orig, i, key);
      assert a[i] == orig[i] && a[i + 1..] == orig[i + 1..];
      InsertLast(a, i, key);
      i := i + 1;
    }
    assert orig[..a.Length] == orig;
    assert a[..a.Length] == a[..];
  }

  /** Sorting one more element inserts it into the sorted prefix. */
  lemma SortStep<T>(s: seq<T>, i: nat, key: T -> SortKey)
    requires i < |s|
    ensures Sort(s[..i + 1], key) == Insert(s[i], Sort(s[..i], key), key)
  {
    assert s[..i + 1][..i] == s[..i];
  }

  /** One step of insertion sort: moves `a[i]` down into the sorted prefix `a[..i]`. */
  method InsertLast<T>(a: array<T>, i: nat, key: T -> SortKey)
    requires i < a.Length
    requires Sorted(a[..i], key)
    modifies a
    ensures a[..i + 1] == Insert(old(a[i]), old(a[..i]), key)
    ensures a[i + 1..] == old(a[i + 1..])
  {
    ghost var prefix := a[..i];
    ghost var rest := a[i + 1..];
    var x := a[i];
    var j := i;
    assert a[..] == prefix[..j] + [a[j]] + prefix[j..] + rest;
    while j > 0 && Before(key, x, a[j - 1])
      invariant 0 <= j <= i
      invariant a[..] == prefix[..j] + [a[j]] + prefix[j..] + rest
      invariant j == i || Before(key, x, prefix[j])
    {
      ghost var before := a[..];
      ShiftStep(prefix, rest, j, before);
      a[j] := a[j - 1];
      assert a[..] == before[j := before[j - 1]];
      j := j - 1;
    }
    ghost var before := a[..];
    GapAt(prefix, rest, j, before);
    a[j] := x;
    assert a[..] == before[j := x];
    InsertPlaced(x, prefix, rest, j, before, key);
  }

  /** Copying the element before the gap into the gap moves the gap down by one. */
  lemma ShiftStep<T>(prefix: seq<T>, rest: seq<T>, j: nat, s: seq<T>)
    requires 0 < j <= |prefix|
    requires j < |s| && s == prefix[..j] + [s[j]] + prefix[j..] + rest
    ensures s[j - 1] == prefix[j - 1]
    ensures s[j := s[j - 1]] == prefix[..j - 1] + [prefix[j - 1]] + prefix[j - 1..] + rest
  {
    var u := s[j := s[j - 1]];
    var v := prefix[..j - 1] + [prefix[j - 1]] + prefix[j - 1..] + rest;
    assert s[j - 1] == prefix[..j][j - 1];
    assert |u| == |v|;
    forall k | 0 <= k < |u| ensures u[k] == v[k] {
      if k < j - 1 {
      } else if k <= j {
      } else if k <= |prefix| {
        assert u[k] == prefix[k - 1];
      } else {
        assert u[k] == rest[k - |prefix| - 1];
      }
    }
  }

  /** Just before the gap lies the prefix's element there. */
  lemma GapAt<T>(prefix: seq<T>, rest: seq<T>, j: nat, s: seq<T>)
    requires j <= |prefix|
    requires j < |s| && s == prefix[..j] + [s[j]] + prefix[j..] + rest
    ensures j > 0 ==> s[j - 1] == prefix[j - 1]
  {
    if j > 0 {
      assert s[j - 1] == prefix[..j][j - 1];
    }
  }

  /** Filling the gap with `x` where it belongs gives the prefix with `x`
      inserted, followed by the untouched rest. */
  lemma InsertPlaced<T>(x: T, prefix: seq<T>, rest: seq<T>, j: nat, s: seq<T>, key: T -> SortKey)
    requires Sorted(prefix, key) && j <= |prefix|
    requires j < |s| && s == prefix[..j] + [s[j]] + prefix[j..] + rest
    requires j == 0 || !Before(key, x, prefix[j - 1])
    requires j == |prefix| || Before(key, x, prefix[j])
    ensures s[j := x][..|prefix| + 1] == Insert(x, prefix, key)
    ensures s[j := x][|prefix| + 1..] == rest
  {
    InsertAt(x, prefix, key, j);
    FillGap(prefix[..j], s[j], prefix[j..], rest, x);
  }

  /** Writing `x` over `y` between `p` and `q` splits into `p + [x] + q`
      and the rest. */
  lemma FillGap<T>(p: seq<T>, y: T, q: seq<T>, rest: seq<T>, x: T)
    ensures (p + [y] + q + rest)[|p| := x][..|p| + 1 + |q|] == p + [x] + q
    ensures (p + [y] + q + rest)[|p| := x][|p| + 1 + |q|..] == rest
  {
    var t := (p + [y] + q + rest)[|p| := x];
    assert t == (p + [x] + q) + rest;
  }
}
