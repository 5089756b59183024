/**
 * Sorting a set into a list, as the dashboard uses it for the team names and the
 * gameweek numbers, and Python's ordering of strings (by code point, then by length).
 */
module Sorting {

  ghost predicate StrictTotalOrder<T>(s: set<T>, less: (T, T) -> bool)
  {
    && (forall x :: x in s ==> !less(x, x))
    && (forall x, y :: x in s && y in s && x != y ==> less(x, y) || less(y, x))
    && (forall x, y, z :: x in s && y in s && z in s && less(x, y) && less(y, z) ==> less(x, z))
  }

  predicate StrictlySorted<T>(r: seq<T>, less: (T, T) -> bool)
  {
    forall i, j :: 0 <= i < j < |r| ==> less(r[i], r[j])
  }

  predicate IntLess(a: int, b: int)
  {
    a < b
  }

  /** Lexicographic order on strings: the first differing character decides, else the shorter one comes first. */
  predicate StrLess(a: string, b: string)
  {
    if a == [] then b != []
    else if b == [] then false
    else a[0] < b[0] || (a[0] == b[0] && StrLess(a[1..], b[1..]))
  }

  lemma {:induction false} StrLessIrreflexive(a: string)
    ensures !StrLess(a, a)
  {
    if a != [] {
      StrLessIrreflexive(a[1..]);
    }
  }

  lemma {:induction false} StrLessTotal(a: string, b: string)
    requires a != b
    ensures StrLess(a, b) || StrLess(b, a)
  {
    if a != [] && b != [] && a[0] == b[0] {
      assert a == [a[0]] + a[1..] && b == [b[0]] + b[1..];
      StrLessTotal(a[1..], b[1..]);
    }
  }

  lemma {:induction false} StrLessTransitive(a: string, b: string, c: string)
    requires StrLess(a, b) && StrLess(b, c)
    ensures StrLess(a, c)
  {
    if a != [] && a[0] == b[0] && b[0] == c[0] {
      StrLessTransitive(a[1..], b[1..], c[1..]);
    }
  }

  /** Python's string comparison is a strict total order on any set of strings. */
  lemma StrLessOrdersStrings(s: set<string>)
    ensures StrictTotalOrder(s, StrLess)
  {
    forall x | x in s ensures !StrLess(x, x) {
      StrLessIrreflexive(x);
    }
    forall x, y | x in s && y in s && x != y ensures StrLess(x, y) || StrLess(y, x) {
      StrLessTotal(x, y);
    }
    forall x, y, z | x in s && y in s && z in s && StrLess(x, y) && StrLess(y, z) ensures StrLess(x, z) {
      StrLessTransitive(x, y, z);
    }
  }

  lemma OrderOnSubset<T>(s: set<T>, t: set<T>, less: (T, T) -> bool)
    requires t <= s && StrictTotalOrder(s, less)
    ensures StrictTotalOrder(t, less)
  {
  }

  predicate IsLeast<T(==)>(m: T, s: set<T>, less: (T, T) -> bool)
  {
    m in s && forall y :: y in s && y != m ==> less(m, y)
  }

  /** Adding x to a set whose least element is m: the new least element is the smaller of the two. */
  lemma LeastOfInsert<T>(s: set<T>, x: T, m: T, less: (T, T) -> bool)
    requires StrictTotalOrder(s, less) && x in s && IsLeast(m, s - {x}, less)
    ensures IsLeast(if less(x, m) then x else m, s, less)
  {
    if less(x, m) {
      forall y | y in s && y != x ensures less(x, y) {
        if y != m {
          assert y in s - {x};
        }
      }
    } else {
      assert less(m, x);
      forall y | y in s && y != m ensures less(m, y) {
        if y != x {
          assert y in s - {x};
        }
      }
    }
  }

  /** Every non-empty finite set has a least element under a strict total order. */
  lemma {:induction false} HasLeast<T>(s: set<T>, less: (T, T) -> bool)
    requires s != {} && StrictTotalOrder(s, less)
    ensures exists m :: IsLeast(m, s, less)
    decreases |s|
  {
    var x :| x in s;
    if s == {x} {
      assert IsLeast(x, s, less);
    } else {
      var rest := s - {x};
      OrderOnSubset(s, rest, less);
      HasLeast(rest, less);
      var m :| IsLeast(m, rest, less);
      LeastOfInsert(s, x, m, less);
    }
  }

  /** The elements of a set in increasing order, each once (main.py:123-124). */
  method SortSet<T(==)>(s: set<T>, less: (T, T) -> bool) returns (r: seq<T>)
    requires StrictTotalOrder(s, less)
    ensures StrictlySorted(r, less)
    ensures forall x :: x in r <==> x in s
    ensures |r| == |s|
  {
    var rest := s;
    r := [];
    while rest != {}
      invariant rest <= s
      invariant forall x :: x in s <==> x in r || x in rest
      invariant forall x :: x in r ==> x !in rest
      invariant StrictlySorted(r, less)
      invariant forall i, y :: 0 <= i < |r| && y in rest ==> less(r[i], y)
      invariant |r| + |rest| == |s|
      decreases |rest|
    {
      OrderOnSubset(s, rest, less);
      HasLeast(rest, less);
      var m :| IsLeast(m, rest, less);
      r := r + [m];
      rest := rest - {m};
    }
  }
}
