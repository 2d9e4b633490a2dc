/**
 * String helpers with Python's meaning: `sep.join(parts)`, the code-point
 * lexicographic order of `<` on `str`, and `sorted(...)` of a list of strings.
 */
module Strings {
  import opened Sequences

  /** Python's `sep.join(parts)`. */
  function Join(sep: string, parts: seq<string>): string
    decreases |parts|
  {
    if |parts| == 0 then ""
    else if |parts| == 1 then parts[0]
    else Join(sep, parts[..|parts| - 1]) + sep + parts[|parts| - 1]
  }

  /** Joining two non-empty runs of parts puts one separator between the two joins. */
  lemma {:induction false} JoinAppend(sep: string, a: seq<string>, b: seq<string>)
    requires a != [] && b != []
    ensures Join(sep, a + b) == Join(sep, a) + sep + Join(sep, b)
    decreases |b|
  {
    var ab := a + b;
    assert ab[..|ab| - 1] == a + b[..|b| - 1];
    assert ab[|ab| - 1] == b[|b| - 1];
    if |b| > 1 {
      JoinAppend(sep, a, b[..|b| - 1]);
    } else {
      assert a + b[..|b| - 1] == a;
    }
  }

  /** A joined string begins with its first part. */
  lemma {:induction false} JoinStartsWithFirst(sep: string, parts: seq<string>)
    requires parts != []
    ensures parts[0] <= Join(sep, parts)
  {
    if |parts| > 1 {
      JoinStartsWithFirst(sep, parts[..|parts| - 1]);
    }
  }

  /** Python's `a < b` on strings: code-point lexicographic order, a proper prefix first. */
  predicate LexLess(a: string, b: string)
    decreases |a|
  {
    if a == [] then b != []
    else b != [] && (a[0] < b[0] || (a[0] == b[0] && LexLess(a[1..], b[1..])))
  }

  predicate LexLe(a: string, b: string) {
    a == b || LexLess(a, b)
  }

  lemma {:induction false} LexLessIrreflexive(a: string)
    ensures !LexLess(a, a)
  {
    if a != [] {
      LexLessIrreflexive(a[1..]);
    }
  }

  lemma {:induction false} LexLessTransitive(a: string, b: string, c: string)
    requires LexLess(a, b) && LexLess(b, c)
    ensures LexLess(a, c)
  {
    if a != [] && a[0] == b[0] && b[0] == c[0] {
      LexLessTransitive(a[1..], b[1..], c[1..]);
    }
  }

  /** Any two strings are equal or ordered one way: the order is total. */
  lemma {:induction false} LexLessTotal(a: string, b: string)
    ensures a == b || LexLess(a, b) || LexLess(b, a)
  {
    if a != [] && b != [] && a[0] == b[0] {
      LexLessTotal(a[1..], b[1..]);
      if a[1..] == b[1..] {
        assert a == [a[0]] + a[1..] && b == [b[0]] + b[1..];
      }
    }
  }

  lemma LexLeTransitive(a: string, b: string, c: string)
    requires LexLe(a, b) && LexLe(b, c)
    ensures LexLe(a, c)
  {
    if a != b && b != c {
      LexLessTransitive(a, b, c);
    }
  }

  lemma LexLeAntisymmetric(a: string, b: string)
    requires LexLe(a, b) && LexLe(b, a)
    ensures a == b
  {
    if a != b {
      LexLessTransitive(a, b, a);
      LexLessIrreflexive(a);
    }
  }

  /** Each string is at most its successor. */
  predicate Sorted(xs: seq<string>) {
    forall i :: 0 <= i < |xs| - 1 ==> LexLe(xs[i], xs[i + 1])
  }

  /** Inserts `x` before the first element it does not exceed. */
  function Insert(x: string, xs: seq<string>): (r: seq<string>)
    ensures multiset(r) == multiset(xs) + multiset{x}
    ensures r != [] && (r[0] == x || (xs != [] && r[0] == xs[0]))
  {
    if xs == [] then [x]
    else if LexLe(x, xs[0]) then [x] + xs
    else
      assert xs == [xs[0]] + xs[1..];
      [xs[0]] + Insert(x, xs[1..])
  }

  lemma {:induction false} InsertSorted(x: string, xs: seq<string>)
    requires Sorted(xs)
    ensures Sorted(Insert(x, xs))
  {
    if xs != [] && !LexLe(x, xs[0]) {
      LexLessTotal(x, xs[0]);
      InsertSorted(x, xs[1..]);
    }
  }

  /** Python's `sorted(xs)` for a list of strings. */
  function Sort(xs: seq<string>): (r: seq<string>)
    ensures multiset(r) == multiset(xs)
    ensures Sorted(r)
  {
    if xs == [] then []
    else
      var rest := Sort(xs[1..]);
      InsertSorted(xs[0], rest);
      assert xs == [xs[0]] + xs[1..];
      Insert(xs[0], rest)
  }

  /** In a sorted sequence every element is at most every later one. */
  lemma {:induction false} SortedPairwise(xs: seq<string>, i: int, j: int)
    requires Sorted(xs) && 0 <= i <= j < |xs|
    ensures LexLe(xs[i], xs[j])
    decreases j - i
  {
    if i < j {
      SortedPairwise(xs, i + 1, j);
      LexLeTransitive(xs[i], xs[i + 1], xs[j]);
    }
  }

  /**
   * Two sorted orderings of the same strings are the same sequence, so any
   * correct sort of a list of strings returns what `Sort` returns.
   */
  lemma {:induction false} SortedUnique(a: seq<string>, b: seq<string>)
    requires Sorted(a) && Sorted(b) && multiset(a) == multiset(b)
    ensures a == b
  {
    if a != [] {
      assert |b| == |a| by { assert |multiset(a)| == |a| && |multiset(b)| == |b|; }
      SortedHeadsEqual(a, b);
      SortedTail(a);
      SortedTail(b);
      SortedUnique(a[1..], b[1..]);
      assert a == [a[0]] + a[1..] && b == [b[0]] + b[1..];
    }
  }

  lemma SortedHeadsEqual(a: seq<string>, b: seq<string>)
    requires Sorted(a) && Sorted(b) && multiset(a) == multiset(b) && a != [] && b != []
    ensures a[0] == b[0]
  {
    assert a[0] in multiset(b) && b[0] in multiset(a);
    var i :| 0 <= i < |b| && b[i] == a[0];
    var j :| 0 <= j < |a| && a[j] == b[0];
    SortedPairwise(b, 0, i);
    SortedPairwise(a, 0, j);
    LexLeAntisymmetric(a[0], b[0]);
  }

  lemma SortedTail(a: seq<string>)
    requires Sorted(a) && a != []
    ensures Sorted(a[1..]) && multiset(a[1..]) == multiset(a) - multiset{a[0]}
  {
    assert a == [a[0]] + a[1..];
    forall k | 0 <= k < |a[1..]| - 1 ensures LexLe(a[1..][k], a[1..][k + 1]) { assert a[1..][k] == a[k + 1]; }
  }

  /** Sorting strings that are pairwise distinct yields a strictly increasing sequence. */
  lemma SortStrictlyIncreasing(xs: seq<string>, i: int, j: int)
    requires Distinct(xs) && 0 <= i < j < |Sort(xs)|
    ensures LexLess(Sort(xs)[i], Sort(xs)[j])
  {
    var r := Sort(xs);
    SortedPairwise(r, i, j);
    if r[i] == r[j] {
      TwiceInMultiset(r, i, j);
      DistinctOnce(xs, r[i]);
    }
  }

  /** Sorting distinct strings keeps them distinct and keeps exactly the same members. */
  lemma SortDistinct(xs: seq<string>)
    requires Distinct(xs)
    ensures Distinct(Sort(xs))
    ensures forall x :: x in Sort(xs) <==> x in xs
  {
    var r := Sort(xs);
    forall i, j | 0 <= i < j < |r| ensures r[i] != r[j] {
      SortStrictlyIncreasing(xs, i, j);
      LexLessIrreflexive(r[i]);
    }
    forall x ensures x in r <==> x in xs {
      assert x in r <==> x in multiset(r);
      assert x in xs <==> x in multiset(xs);
    }
  }

  lemma TwiceInMultiset(r: seq<string>, i: int, j: int)
    requires 0 <= i < j < |r| && r[i] == r[j]
    ensures multiset(r)[r[i]] >= 2
  {
    assert r == r[..j] + r[j..];
    assert multiset(r) == multiset(r[..j]) + multiset(r[j..]);
    assert r[i] in multiset(r[..j]) by { assert r[..j][i] == r[i]; }
    assert r[j] in multiset(r[j..]) by { assert r[j..][0] == r[j]; }
  }

  lemma {:induction false} DistinctOnce(xs: seq<string>, x: string)
    requires Distinct(xs)
    ensures multiset(xs)[x] <= 1
  {
    if xs != [] {
      assert xs == [xs[0]] + xs[1..];
      DistinctOnce(xs[1..], x);
      if xs[0] == x {
        assert x !in xs[1..];
      }
    }
  }
}
