/**
 * Orders used by the service: the code-point lexicographic order on strings
 * (Python's `<` on `str`, and SQLite's BINARY collation, which compares the
 * UTF-8 bytes and so agrees with code-point order), and the sorted listing of
 * a finite set under a strict total order, which is what `ORDER BY` and
 * Python's `sorted()` produce when no two elements tie.
 */
module Ordering {

  /** `a` sorts strictly before `b`, comparing code point by code point; a proper prefix sorts first. */
  predicate StrLess(a: string, b: string)
    decreases |a|
  {
    if |a| == 0 then |b| > 0
    else if |b| == 0 then false
    else a[0] < b[0] || (a[0] == b[0] && StrLess(a[1..], b[1..]))
  }

  predicate StrLessEq(a: string, b: string) {
    a == b || StrLess(a, b)
  }

  lemma {:induction false} StrLessIrreflexive(a: string)
    ensures !StrLess(a, a)
    decreases |a|
  {
    if |a| > 0 {
      StrLessIrreflexive(a[1..]);
    }
  }

  lemma {:induction false} StrLessTransitive(a: string, b: string, c: string)
    requires StrLess(a, b) && StrLess(b, c)
    ensures StrLess(a, c)
    decreases |a|
  {
    if |a| > 0 && a[0] == b[0] && b[0] == c[0] {
      StrLessTransitive(a[1..], b[1..], c[1..]);
    }
  }

  lemma {:induction false} StrLessTotal(a: string, b: string)
    ensures a == b || StrLess(a, b) || StrLess(b, a)
    decreases |a|
  {
    if |a| > 0 && |b| > 0 && a[0] == b[0] {
      StrLessTotal(a[1..], b[1..]);
      if a[1..] == b[1..] {
        assert a == [a[0]] + a[1..] && b == [b[0]] + b[1..];
      }
    }
  }

  lemma StrLessAsymmetric(a: string, b: string)
    requires StrLess(a, b)
    ensures !StrLess(b, a)
  {
    if StrLess(b, a) {
      StrLessTransitive(a, b, a);
      StrLessIrreflexive(a);
    }
  }

  /** A shared prefix does not change how two strings compare. */
  lemma {:induction false} StrLessCommonPrefix(p: string, x: string, y: string)
    ensures StrLess(p + x, p + y) <==> StrLess(x, y)
    decreases |p|
  {
    if p == [] {
      assert p + x == x && p + y == y;
    } else {
      assert (p + x)[1..] == p[1..] + x && (p + y)[1..] == p[1..] + y;
      StrLessCommonPrefix(p[1..], x, y);
    }
  }

  // ---------------------------------------------------------------------------
  // Sorted listing of a finite set

  /** `lt` is irreflexive, transitive and total on the elements of `s`. */
  ghost predicate StrictTotalOn<T>(s: set<T>, lt: (T, T) -> bool) {
    && (forall x :: x in s ==> !lt(x, x))
    && (forall x, y, z :: x in s && y in s && z in s && lt(x, y) && lt(y, z) ==> lt(x, z))
    && (forall x, y :: x in s && y in s && x != y ==> lt(x, y) || lt(y, x))
  }

  ghost predicate SortedBy<T>(q: seq<T>, lt: (T, T) -> bool) {
    forall i, j :: 0 <= i < j < |q| ==> lt(q[i], q[j])
  }

  /** `q` holds exactly the elements of `s`. */
  ghost predicate Enumerates<T>(q: seq<T>, s: set<T>) {
    (forall x :: x in q ==> x in s) && (forall x :: x in s ==> x in q)
  }

  predicate IsLeast<T(==)>(m: T, s: set<T>, lt: (T, T) -> bool) {
    m in s && forall x :: x in s && x != m ==> lt(m, x)
  }

  lemma StrOrderOn(s: set<string>)
    ensures StrictTotalOn(s, StrLess)
  {
    forall x | x in s {
      StrLessIrreflexive(x);
    }
    forall x, y, z | x in s && y in s && z in s && StrLess(x, y) && StrLess(y, z) {
      StrLessTransitive(x, y, z);
    }
    forall x, y | x in s && y in s && x != y {
      StrLessTotal(x, y);
    }
  }

  lemma {:induction false} LeastExists<T>(s: set<T>, lt: (T, T) -> bool)
    requires s != {} && StrictTotalOn(s, lt)
    ensures exists m :: IsLeast(m, s, lt)
    decreases s
  {
    var x :| x in s;
    if s == {x} {
      assert IsLeast(x, s, lt);
    } else {
      var r := s - {x};
      LeastExists(r, lt);
      var m :| IsLeast(m, r, lt);
      if lt(x, m) {
        assert IsLeast(x, s, lt);
      } else {
        assert lt(m, x);
        assert IsLeast(m, s, lt);
      }
    }
  }

  /**
   * The elements of `s` in increasing `lt` order: each step takes the least
   * remaining element, so the result lists every element of `s` once, sorted.
   */
  ghost function SortedSeq<T>(s: set<T>, lt: (T, T) -> bool): (q: seq<T>)
    requires StrictTotalOn(s, lt)
    ensures |q| == |s|
    ensures SortedBy(q, lt) && Enumerates(q, s)
    decreases s
  {
    if s == {} then []
    else
      LeastExists(s, lt);
      var m :| IsLeast(m, s, lt);
      StrictTotalSubset(s, s - {m}, lt);
      var rest := SortedSeq(s - {m}, lt);
      SortedCons(m, rest, s, lt);
      [m] + rest
  }

  /** The least element of `s` followed by a sorted listing of the rest is a sorted listing of `s`. */
  lemma SortedCons<T>(m: T, rest: seq<T>, s: set<T>, lt: (T, T) -> bool)
    requires IsLeast(m, s, lt)
    requires SortedBy(rest, lt) && Enumerates(rest, s - {m})
    ensures SortedBy([m] + rest, lt) && Enumerates([m] + rest, s)
  {
    var q := [m] + rest;
    forall i, j | 0 <= i < j < |q| ensures lt(q[i], q[j]) {
      assert q[j] == rest[j - 1] && rest[j - 1] in rest;
      if i > 0 {
        assert q[i] == rest[i - 1];
      }
    }
    forall x | x in s ensures x in q {
      if x != m {
        assert x in rest;
      }
    }
  }

  /** A sorted enumeration starts with the least element and continues with a sorted enumeration of the rest. */
  lemma SortedTail<T>(q: seq<T>, s: set<T>, lt: (T, T) -> bool)
    requires StrictTotalOn(s, lt) && SortedBy(q, lt) && Enumerates(q, s) && |q| > 0
    ensures IsLeast(q[0], s, lt)
    ensures SortedBy(q[1..], lt) && Enumerates(q[1..], s - {q[0]})
  {
    assert q[0] in s;
    forall x | x in q[1..]
      ensures x != q[0]
    {
      var j :| 1 <= j < |q| && q[j] == x;
      assert lt(q[0], q[j]);
    }
    forall x | x in s && x != q[0]
      ensures x in q[1..] && lt(q[0], x)
    {
      var j :| 0 <= j < |q| && q[j] == x;
      assert q[j] == q[1..][j - 1];
    }
  }

  /** A sorted enumeration has no repeated element, so it is as long as the set. */
  lemma {:induction false} SortedLength<T>(q: seq<T>, s: set<T>, lt: (T, T) -> bool)
    requires StrictTotalOn(s, lt) && SortedBy(q, lt) && Enumerates(q, s)
    ensures |q| == |s|
    decreases |q|
  {
    if q == [] {
      assert s == {};
    } else {
      SortedTail(q, s, lt);
      StrictTotalSubset(s, s - {q[0]}, lt);
      SortedLength(q[1..], s - {q[0]}, lt);
    }
  }

  /** Strict total orders admit only one sorted enumeration of a set. */
  lemma {:induction false} SortedUnique<T>(a: seq<T>, b: seq<T>, s: set<T>, lt: (T, T) -> bool)
    requires StrictTotalOn(s, lt)
    requires SortedBy(a, lt) && Enumerates(a, s)
    requires SortedBy(b, lt) && Enumerates(b, s)
    ensures a == b
    decreases |a|
  {
    SortedLength(a, s, lt);
    SortedLength(b, s, lt);
    if a != [] {
      SortedTail(a, s, lt);
      SortedTail(b, s, lt);
      assert a[0] == b[0];
      SortedUnique(a[1..], b[1..], s - {a[0]}, lt);
      assert a == [a[0]] + a[1..] && b == [b[0]] + b[1..];
    }
  }

  lemma SortedSeqUnfold<T>(s: set<T>, m: T, lt: (T, T) -> bool)
    requires StrictTotalOn(s, lt) && IsLeast(m, s, lt)
    ensures SortedSeq(s, lt) == [m] + SortedSeq(s - {m}, lt)
  {
    var q := SortedSeq(s, lt);
    assert IsLeast(q[0], s, lt) && q == [q[0]] + SortedSeq(s - {q[0]}, lt);
    LeastUnique(s, lt, q[0], m);
  }

  /** A strict total order has at most one least element. */
  lemma LeastUnique<T>(s: set<T>, lt: (T, T) -> bool, a: T, b: T)
    requires StrictTotalOn(s, lt) && IsLeast(a, s, lt) && IsLeast(b, s, lt)
    ensures a == b
  {
  }

  lemma StrictTotalSubset<T>(s: set<T>, r: set<T>, lt: (T, T) -> bool)
    requires StrictTotalOn(s, lt) && r <= s
    ensures StrictTotalOn(r, lt)
  {
  }

  lemma ConcatAssoc<T>(a: seq<T>, b: seq<T>, c: seq<T>)
    ensures (a + b) + c == a + (b + c)
  {
  }

  /** Python's `sorted()` over a set of keys no two of which tie: repeatedly take the least remaining key. */
  method SortedList<T(==)>(s: set<T>, lt: (T, T) -> bool) returns (q: seq<T>)
    requires StrictTotalOn(s, lt)
    ensures q == SortedSeq(s, lt)
  {
    q := [];
    var rest := s;
    while rest != {}
      invariant rest <= s
      invariant StrictTotalOn(rest, lt)
      invariant q + SortedSeq(rest, lt) == SortedSeq(s, lt)
      decreases rest
    {
      LeastExists(rest, lt);
      var m :| m in rest && IsLeast(m, rest, lt);
      SortedSeqUnfold(rest, m, lt);
      StrictTotalSubset(rest, rest - {m}, lt);
      ConcatAssoc(q, [m], SortedSeq(rest - {m}, lt));
      q := q + [m];
      rest := rest - {m};
    }
  }
}
