/**
 * The selection step of `retrieve_relevant_chunks` (chatbot.py:91-93):
 * `np.argsort(similarities)[-top_k:][::-1]`.
 *
 * `argsort` is not stable, so the order it gives to equal scores is not
 * fixed. The selection is therefore stated for every ascending permutation
 * (`IsArgsort`); `ArgSort` is one such permutation, which shows that one
 * always exists. Nothing here depends on how ties are ordered.
 */
module Ranking {

  /** `order` lists each of the positions 0..n-1 exactly once. */
  ghost predicate IsPermutation(order: seq<nat>, n: nat) {
    && |order| == n
    && (forall p :: 0 <= p < n ==> order[p] < n)
    && (forall p, q :: 0 <= p < q < n ==> order[p] != order[q])
    && (forall j :: 0 <= j < n ==> j in order)
  }

  ghost predicate Ascending(scores: seq<real>, order: seq<nat>)
    requires forall p :: 0 <= p < |order| ==> order[p] < |scores|
  {
    forall p, q :: 0 <= p < q < |order| ==> scores[order[p]] <= scores[order[q]]
  }

  /** What `np.argsort(scores)` may return: the positions of `scores`,
      ordered by ascending score, ties in any order. */
  ghost predicate IsArgsort(scores: seq<real>, order: seq<nat>) {
    IsPermutation(order, |scores|) && Ascending(scores, order)
  }

  ghost predicate Distinct(s: seq<nat>) {
    forall p, q :: 0 <= p < q < |s| ==> s[p] != s[q]
  }

  /** The start of the Python slice `a[start:]` on a list of length `n`:
      a negative start counts from the end, and both ends are clamped. */
  function SliceStart(start: int, n: nat): nat {
    if start < 0 then (if start + n < 0 then 0 else start + n)
    else if start > n then n
    else start
  }

  function Reverse(s: seq<nat>): (r: seq<nat>)
    ensures |r| == |s|
    ensures forall j :: 0 <= j < |s| ==> r[j] == s[|s| - 1 - j]
  {
    if s == [] then [] else Reverse(s[1..]) + [s[0]]
  }

  /** `order[-k:][::-1]`: the last positions of the ascending order, best first. */
  function TopK(order: seq<nat>, k: int): seq<nat> {
    Reverse(order[SliceStart(-k, |order|)..])
  }

  /** How many positions `a[-k:]` keeps of `n`. */
  function TopCount(n: nat, k: int): nat {
    n - SliceStart(-k, n)
  }

  /** The slice keeps `min(k, n)` positions for a positive `k`; for `k = 0`
      the slice is `a[-0:]`, that is `a[0:]`, and keeps all of them; a
      negative `k` turns into a positive start and drops the `-k` lowest. */
  lemma {:induction false} TopCountCases(n: nat, k: int)
    ensures k > 0 ==> TopCount(n, k) == (if k < n then k else n)
    ensures k == 0 ==> TopCount(n, k) == n
    ensures k < 0 ==> TopCount(n, k) == (if -k < n then n + k else 0)
  {
  }

  /** A selection of `count` positions of `scores`: valid and distinct,
      best first, and no position left out scores above one taken. */
  ghost predicate IsTopSelection(scores: seq<real>, sel: seq<nat>, count: nat) {
    && |sel| == count
    && (forall a :: 0 <= a < |sel| ==> sel[a] < |scores|)
    && Distinct(sel)
    && (forall a, b :: 0 <= a < b < |sel| ==> scores[sel[a]] >= scores[sel[b]])
    && (forall a, j :: 0 <= a < |sel| && 0 <= j < |scores| && j !in sel ==> scores[j] <= scores[sel[a]])
  }

  /** The selected positions are the last ones of `order`, read backwards. */
  lemma {:induction false} TopKPositions(order: seq<nat>, k: int)
    ensures var r := TopK(order, k);
      && |r| == TopCount(|order|, k)
      && forall a :: 0 <= a < |r| ==> r[a] == order[|order| - 1 - a]
  {
  }

  /** Every position of the kept tail of the order is selected. */
  lemma {:induction false} TopKKeepsTail(order: seq<nat>, k: int, p: int)
    ensures SliceStart(-k, |order|) <= p < |order| ==> order[p] in TopK(order, k)
  {
    if SliceStart(-k, |order|) <= p < |order| {
      TopKPositions(order, k);
      assert TopK(order, k)[|order| - 1 - p] == order[p];
    }
  }

  lemma {:induction false} TopKDominates(scores: seq<real>, order: seq<nat>, k: int)
    requires IsArgsort(scores, order)
    ensures var r := TopK(order, k);
      forall a, j :: 0 <= a < |r| && 0 <= j < |scores| && j !in r ==> scores[j] <= scores[r[a]]
  {
    var n := |scores|;
    var start := SliceStart(-k, n);
    var r := TopK(order, k);
    TopKPositions(order, k);
    forall a, j | 0 <= a < |r| && 0 <= j < n && j !in r ensures scores[j] <= scores[r[a]] {
      assert j in order;
      var p :| 0 <= p < n && order[p] == j;
      TopKKeepsTail(order, k, p);
      assert p < start;
      assert r[a] == order[n - 1 - a];
    }
  }

  /** Top-k over any order argsort may produce: the result holds the
      `TopCount` best positions, best first, whatever the order of ties. */
  lemma {:induction false} TopKSelects(scores: seq<real>, order: seq<nat>, k: int)
    requires IsArgsort(scores, order)
    ensures IsTopSelection(scores, TopK(order, k), TopCount(|scores|, k))
  {
    var n := |scores|;
    var r := TopK(order, k);
    TopKPositions(order, k);
    forall a, b | 0 <= a < b < |r| ensures r[a] != r[b] && scores[r[a]] >= scores[r[b]] {
      assert r[a] == order[n - 1 - a] && r[b] == order[n - 1 - b];
    }
    TopKDominates(scores, order, k);
  }

  // ---------------------------------------------------------------------------
  // One argsort order
  // ---------------------------------------------------------------------------

  /** Inserts position `x` into an ascending list of positions, before the
      first position whose score is at least as high. */
  function Insert(scores: seq<real>, sorted: seq<nat>, x: nat): (r: seq<nat>)
    requires x < |scores|
    requires forall p :: 0 <= p < |sorted| ==> sorted[p] < |scores|
    ensures |r| == |sorted| + 1
    ensures forall y :: y in r <==> y in sorted || y == x
    ensures forall p :: 0 <= p < |r| ==> r[p] < |scores|
  {
    if sorted == [] then [x]
    else if scores[x] <= scores[sorted[0]] then [x] + sorted
    else
      var rest := Insert(scores, sorted[1..], x);
      assert forall y :: y in sorted[1..] ==> y in sorted;
      [sorted[0]] + rest
  }

  lemma {:induction false} InsertAscending(scores: seq<real>, sorted: seq<nat>, x: nat)
    requires x < |scores|
    requires forall p :: 0 <= p < |sorted| ==> sorted[p] < |scores|
    requires Ascending(scores, sorted)
    ensures Ascending(scores, Insert(scores, sorted, x))
  {
    if sorted != [] && scores[x] > scores[sorted[0]] {
      var tail := sorted[1..];
      InsertAscending(scores, tail, x);
      var rest := Insert(scores, tail, x);
      var r := [sorted[0]] + rest;
      forall q | 0 <= q < |rest| ensures scores[sorted[0]] <= scores[rest[q]] {
        assert rest[q] in rest;
        if rest[q] != x {
          var p :| 0 <= p < |tail| && tail[p] == rest[q];
          assert tail[p] == sorted[p + 1];
        }
      }
      forall p, q | 0 <= p < q < |r| ensures scores[r[p]] <= scores[r[q]] {
        if p > 0 { assert r[p] == rest[p - 1]; }
        assert r[q] == rest[q - 1];
      }
    }
  }

  lemma {:induction false} InsertDistinct(scores: seq<real>, sorted: seq<nat>, x: nat)
    requires x < |scores|
    requires forall p :: 0 <= p < |sorted| ==> sorted[p] < |scores|
    requires Distinct(sorted) && x !in sorted
    ensures Distinct(Insert(scores, sorted, x))
  {
    if sorted != [] && scores[x] > scores[sorted[0]] {
      var tail := sorted[1..];
      assert x !in tail;
      InsertDistinct(scores, tail, x);
      var rest := Insert(scores, tail, x);
      assert sorted[0] !in tail;
      assert sorted[0] !in rest;
      var r := [sorted[0]] + rest;
      forall p, q | 0 <= p < q < |r| ensures r[p] != r[q] {
        assert r[q] == rest[q - 1];
        if p > 0 { assert r[p] == rest[p - 1]; }
        else { assert r[q] in rest; }
      }
    }
  }

  /** The positions 0..m-1, each inserted in turn. */
  function SortPrefix(scores: seq<real>, m: nat): (r: seq<nat>)
    requires m <= |scores|
    ensures forall p :: 0 <= p < |r| ==> r[p] < |scores|
  {
    if m == 0 then []
    else Insert(scores, SortPrefix(scores, m - 1), m - 1)
  }

  lemma {:induction false} SortPrefixSorts(scores: seq<real>, m: nat)
    requires m <= |scores|
    ensures IsPermutation(SortPrefix(scores, m), m)
    ensures Ascending(scores, SortPrefix(scores, m))
  {
    if m > 0 {
      var prev := SortPrefix(scores, m - 1);
      SortPrefixSorts(scores, m - 1);
      assert m - 1 !in prev;
      InsertAscending(scores, prev, m - 1);
      InsertDistinct(scores, prev, m - 1);
      var r := SortPrefix(scores, m);
      forall p | 0 <= p < m ensures r[p] < m {
        assert r[p] in r;
      }
      forall j | 0 <= j < m ensures j in r {
        if j < m - 1 { assert j in prev; }
      }
    }
  }

  function ArgSort(scores: seq<real>): seq<nat> {
    SortPrefix(scores, |scores|)
  }

  /** Every score vector has an argsort order. */
  lemma {:induction false} ArgSortIsArgsort(scores: seq<real>)
    ensures IsArgsort(scores, ArgSort(scores))
  {
    SortPrefixSorts(scores, |scores|);
  }
}
