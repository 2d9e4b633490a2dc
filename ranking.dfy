/**
 * Top-k selection over a score vector, as `sims.argsort()[-top_k:][::-1]`
 * computes it. The order in which an argsort leaves equal scores is not
 * fixed, so every property here is proved for ANY sequence that satisfies
 * `IsArgSort`; `ArgSort` is one such sequence.
 */
module Ranking {
  import opened Sequences

  /** Every element is an index into a sequence of length `n`. */
  predicate Indices(n: int, xs: seq<int>) {
    forall i :: 0 <= i < |xs| ==> 0 <= xs[i] < n
  }

  /** Scores are non-decreasing along `xs`. */
  predicate Ascending(s: seq<real>, xs: seq<int>)
    requires Indices(|s|, xs)
  {
    forall i, j :: 0 <= i < j < |xs| ==> s[xs[i]] <= s[xs[j]]
  }

  /** Scores are non-increasing along `xs`. */
  predicate Descending(s: seq<real>, xs: seq<int>)
    requires Indices(|s|, xs)
  {
    forall i, j :: 0 <= i < j < |xs| ==> s[xs[i]] >= s[xs[j]]
  }

  /**
   * What an argsort of `s` may return: every index of `s` exactly once, in
   * order of non-decreasing score; ties may come in any order.
   */
  predicate IsArgSort(s: seq<real>, idx: seq<int>) {
    && |idx| == |s|
    && Indices(|s|, idx)
    && Distinct(idx)
    && (forall j :: 0 <= j < |s| ==> j in idx)
    && Ascending(s, idx)
  }

  /** Inserts index `i` into `xs` before the first index whose score is at least `s[i]`. */
  function InsertByScore(s: seq<real>, xs: seq<int>, i: int): (r: seq<int>)
    requires Indices(|s|, xs) && 0 <= i < |s|
    ensures |r| == |xs| + 1 && Indices(|s|, r)
    ensures forall x :: x in r <==> x in xs || x == i
  {
    if xs == [] then [i]
    else if s[i] <= s[xs[0]] then [i] + xs
    else
      assert xs == [xs[0]] + xs[1..];
      [xs[0]] + InsertByScore(s, xs[1..], i)
  }

  lemma {:induction false} InsertByScoreDistinct(s: seq<real>, xs: seq<int>, i: int)
    requires Indices(|s|, xs) && 0 <= i < |s|
    requires Distinct(xs) && i !in xs
    ensures Distinct(InsertByScore(s, xs, i))
  {
    if xs != [] && s[i] > s[xs[0]] {
      var rest := xs[1..];
      assert forall k :: 0 <= k < |rest| ==> rest[k] == xs[k + 1];
      InsertByScoreDistinct(s, rest, i);
      var r' := InsertByScore(s, rest, i);
      assert xs[0] !in r';
      assert InsertByScore(s, xs, i) == [xs[0]] + r';
    }
  }

  lemma {:induction false} InsertByScoreAscending(s: seq<real>, xs: seq<int>, i: int)
    requires Indices(|s|, xs) && 0 <= i < |s|
    requires Ascending(s, xs)
    ensures Ascending(s, InsertByScore(s, xs, i))
  {
    if xs != [] && s[i] > s[xs[0]] {
      var rest := xs[1..];
      assert forall k :: 0 <= k < |rest| ==> rest[k] == xs[k + 1];
      InsertByScoreAscending(s, rest, i);
      var r' := InsertByScore(s, rest, i);
      assert forall q :: 0 <= q < |r'| ==> s[xs[0]] <= s[r'[q]] by {
        forall q | 0 <= q < |r'| ensures s[xs[0]] <= s[r'[q]] {
          assert r'[q] in r';
        }
      }
      assert InsertByScore(s, xs, i) == [xs[0]] + r';
    }
  }

  /** An argsort of the first `n` scores. */
  function ArgSortPrefix(s: seq<real>, n: nat): (r: seq<int>)
    requires n <= |s|
    ensures |r| == n && Indices(n, r) && Indices(|s|, r) && Distinct(r) && Ascending(s, r)
    ensures forall j :: 0 <= j < n ==> j in r
  {
    if n == 0 then []
    else
      var prev := ArgSortPrefix(s, n - 1);
      InsertByScoreDistinct(s, prev, n - 1);
      InsertByScoreAscending(s, prev, n - 1);
      var r := InsertByScore(s, prev, n - 1);
      assert forall k :: 0 <= k < |r| ==> r[k] in r;
      r
  }

  /** An argsort of `s` (the one this model uses for numpy's `argsort()`). */
  function ArgSort(s: seq<real>): (r: seq<int>)
    ensures IsArgSort(s, r)
  {
    ArgSortPrefix(s, |s|)
  }

  /** Where the slice `xs[-k:]` starts, for `k >= 1`. */
  function SuffixStart(n: nat, k: int): (start: nat)
    requires k >= 1
  {
    if k >= n then 0 else n - k
  }

  /** `idx[-k:][::-1]`: the last `k` entries of an argsort, highest score first. */
  function TopOf(idx: seq<int>, k: int): seq<int>
    requires k >= 1
  {
    Reverse(idx[SuffixStart(|idx|, k)..])
  }

  /**
   * For any argsort `idx` of `s` and any `k >= 1`, `TopOf(idx, k)` holds
   * `min(k, |s|)` distinct indices of `s`, in non-increasing score order,
   * and none of the indices left out scores higher than any index chosen.
   */
  lemma TopKSelection(s: seq<real>, idx: seq<int>, k: int)
    requires IsArgSort(s, idx) && k >= 1
    ensures var t := TopOf(idx, k);
      && |t| == Min(k, |s|)
      && Indices(|s|, t)
      && Distinct(t)
      && Descending(s, t)
      && (forall i, j :: 0 <= i < |t| && 0 <= j < |s| && j !in t ==> s[t[i]] >= s[j])
  {
    var n := |s|;
    var start := SuffixStart(n, k);
    var t := TopOf(idx, k);
    assert forall i :: 0 <= i < |t| ==> t[i] == idx[n - 1 - i];
    assert forall q :: start <= q < n ==> idx[q] in t by {
      forall q | start <= q < n ensures idx[q] in t { assert t[n - 1 - q] == idx[q]; }
    }
    forall i, j | 0 <= i < |t| && 0 <= j < n && j !in t
      ensures s[t[i]] >= s[j]
    {
      assert j in idx;
      var p :| 0 <= p < n && idx[p] == j;
      assert p < n - 1 - i;
    }
  }
}
