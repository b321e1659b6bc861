/** Best-k selection by distance: what `search` promises, and why top-k followed by a
    threshold filter is the same as the filter followed by top-k. */
module TopK {
  import opened Sorting

  datatype CacheEntry<Vec, Value> =
    CacheEntry(key: string, embedding: Vec, value: Value, distance: real)

  type Entries<Vec, Value> = seq<CacheEntry<Vec, Value>>

  /** Entries by key. */
  type Matching<Vec, Value> = map<string, CacheEntry<Vec, Value>>

  predicate Nearer<Vec, Value>(a: CacheEntry<Vec, Value>, b: CacheEntry<Vec, Value>) {
    a.distance <= b.distance
  }

  lemma NearerOrder<Vec(!new), Value(!new)>()
    ensures TotalPreorder(Nearer<Vec, Value>)
  {
  }

  ghost predicate DistinctKeys<Vec, Value>(es: Entries<Vec, Value>) {
    forall i, j :: 0 <= i < j < |es| ==> es[i].key != es[j].key
  }

  /** Every entry of `es` is one of the matches `m`. */
  ghost predicate Drawn<Vec, Value>(m: Matching<Vec, Value>, es: Entries<Vec, Value>) {
    && DistinctKeys(es)
    && forall i :: 0 <= i < |es| ==> es[i].key in m && m[es[i].key] == es[i]
  }

  ghost predicate Lists<Vec, Value>(es: Entries<Vec, Value>, key: string) {
    exists i :: 0 <= i < |es| && es[i].key == key
  }

  /** Whatever `es` leaves out is no nearer than anything in it, and is left out only
      because `es` already has `k` entries. */
  ghost predicate Covers<Vec, Value>(m: Matching<Vec, Value>, k: nat, es: Entries<Vec, Value>) {
    forall key :: key in m && !Lists(es, key) ==>
      |es| >= k && forall i :: 0 <= i < |es| ==> es[i].distance <= m[key].distance
  }

  /** `es` is a best-`k` answer over the matches `m`. */
  ghost predicate IsTopK<Vec, Value>(m: Matching<Vec, Value>, k: nat, es: Entries<Vec, Value>) {
    && Drawn(m, es)
    && SortedBy(es, Nearer)
    && |es| <= k
    && Covers(m, k, es)
  }

  lemma PrefixLists<Vec, Value>(es: Entries<Vec, Value>, n: nat, i: nat)
    requires i < |es| && n <= |es|
    ensures i < n ==> Lists(es[..n], es[i].key)
  {
    if i < n {
      assert es[..n][i] == es[i];
    }
  }

  function Take<T>(xs: seq<T>, k: nat): seq<T> { if |xs| <= k then xs else xs[..k] }

  /** Python's `xs[:k]`, for negative `k` too. */
  function UpTo<T>(xs: seq<T>, k: int): seq<T> {
    if k >= 0 then Take(xs, k) else if -k >= |xs| then [] else xs[..|xs| + k]
  }

  /** All the matches, nearest first. */
  ghost predicate RanksAll<Vec, Value>(m: Matching<Vec, Value>, all: Entries<Vec, Value>) {
    Drawn(m, all) && SortedBy(all, Nearer) && forall key :: key in m ==> Lists(all, key)
  }

  lemma SortKeepsKeys<Vec, Value>(es: Entries<Vec, Value>)
    requires DistinctKeys(es)
    ensures DistinctKeys(SortBy(es, Nearer))
    ensures forall key :: Lists(SortBy(es, Nearer), key) <==> Lists(es, key)
  {
    var r := SortBy(es, Nearer);
    var p := MultisetPermutation(r, es);
    forall key ensures Lists(r, key) <==> Lists(es, key) {
      if Lists(r, key) {
        var i :| 0 <= i < |r| && r[i].key == key;
        assert es[p[i]].key == key;
      }
      if Lists(es, key) {
        var i :| 0 <= i < |es| && es[i].key == key;
        SameElements(es, r, es[i]);
      }
    }
    forall i, j | 0 <= i < j < |r| ensures r[i].key != r[j].key {
      assert p[i] != p[j];
      assert r[i] == es[p[i]] && r[j] == es[p[j]];
    }
  }

  lemma SortKeepsDrawn<Vec, Value>(m: Matching<Vec, Value>, es: Entries<Vec, Value>)
    requires Drawn(m, es)
    ensures Drawn(m, SortBy(es, Nearer))
  {
    SortKeepsKeys(es);
    var r := SortBy(es, Nearer);
    forall i | 0 <= i < |r| ensures r[i].key in m && m[r[i].key] == r[i] {
      SameElements(r, es, r[i]);
    }
  }

  /** Sorted and cut at `k`, drawn entries are still drawn. */
  lemma RankedDrawn<Vec(!new), Value(!new)>(m: Matching<Vec, Value>, k: nat, es: Entries<Vec, Value>)
    requires Drawn(m, es)
    ensures var r := Take(SortBy(es, Nearer), k); Drawn(m, r) && SortedBy(r, Nearer) && |r| <= k
  {
    NearerOrder<Vec, Value>();
    SortByIsSorted(es, Nearer);
    SortKeepsDrawn(m, es);
  }

  /** Sorting a complete scan ranks everything; a slice of it is drawn and sorted too. */
  lemma RankedAll<Vec(!new), Value(!new)>(m: Matching<Vec, Value>, es: Entries<Vec, Value>, k: int)
    requires Drawn(m, es) && forall key :: key in m ==> Lists(es, key)
    ensures RanksAll(m, SortBy(es, Nearer))
    ensures var r := UpTo(SortBy(es, Nearer), k); Drawn(m, r) && SortedBy(r, Nearer)
  {
    NearerOrder<Vec, Value>();
    SortByIsSorted(es, Nearer);
    SortKeepsDrawn(m, es);
    SortKeepsKeys(es);
    SlicedDrawn(m, SortBy(es, Nearer), k);
  }

  lemma SlicedDrawn<Vec(!new), Value(!new)>(m: Matching<Vec, Value>, all: Entries<Vec, Value>, k: int)
    requires Drawn(m, all) && SortedBy(all, Nearer)
    ensures Drawn(m, UpTo(all, k)) && SortedBy(UpTo(all, k), Nearer)
  {
  }

  /** Sorting the candidates and keeping `k` of them gives a best-k answer. */
  lemma SortedTakeIsTopK<Vec(!new), Value(!new)>(m: Matching<Vec, Value>, k: nat, es: Entries<Vec, Value>)
    requires Drawn(m, es) && Covers(m, k, es)
    ensures IsTopK(m, k, Take(SortBy(es, Nearer), k))
  {
    NearerOrder<Vec, Value>();
    SortByIsSorted(es, Nearer);
    SortKeepsDrawn(m, es);
    SortKeepsKeys(es);
    SameCover(m, k, es, SortBy(es, Nearer));
    TakeIsTopK(m, k, SortBy(es, Nearer));
  }

  lemma SameCover<Vec(!new), Value(!new)>(m: Matching<Vec, Value>, k: nat, es: Entries<Vec, Value>,
      r: Entries<Vec, Value>)
    requires Covers(m, k, es) && multiset(r) == multiset(es) && |r| == |es|
    requires forall key :: Lists(r, key) <==> Lists(es, key)
    ensures Covers(m, k, r)
  {
    forall key | key in m && !Lists(r, key)
      ensures |r| >= k && forall i :: 0 <= i < |r| ==> r[i].distance <= m[key].distance
    {
      forall i | 0 <= i < |r| ensures r[i].distance <= m[key].distance { SameElements(r, es, r[i]); }
    }
  }

  lemma TakeIsTopK<Vec(!new), Value(!new)>(m: Matching<Vec, Value>, k: nat, r: Entries<Vec, Value>)
    requires Drawn(m, r) && SortedBy(r, Nearer) && Covers(m, k, r)
    ensures IsTopK(m, k, Take(r, k))
  {
    var t := Take(r, k);
    forall key | key in m && !Lists(t, key)
      ensures |t| >= k && forall i :: 0 <= i < |t| ==> t[i].distance <= m[key].distance
    {
      if Lists(r, key) {
        var j :| 0 <= j < |r| && r[j].key == key;
        PrefixLists(r, |t|, j);
        forall i | 0 <= i < |t| ensures t[i].distance <= m[key].distance {
          assert Nearer(r[i], r[j]);
        }
      }
    }
  }

  // ---- best-k answers are unique up to ties ----

  ghost function KeySet<Vec, Value>(es: Entries<Vec, Value>): set<string> {
    set i | 0 <= i < |es| :: es[i].key
  }

  lemma {:induction false} KeySetSize<Vec, Value>(es: Entries<Vec, Value>)
    requires DistinctKeys(es)
    ensures |KeySet(es)| == |es|
  {
    if es == [] {
      assert KeySet(es) == {};
    } else {
      var n := |es| - 1;
      KeySetSize(es[..n]);
      assert KeySet(es) == KeySet(es[..n]) + {es[n].key};
      assert es[n].key !in KeySet(es[..n]);
    }
  }

  /** A longer duplicate-free list names a key that a shorter one does not. */
  lemma Pigeonhole<Vec, Value>(long: Entries<Vec, Value>, short: Entries<Vec, Value>) returns (i: nat)
    requires DistinctKeys(long) && DistinctKeys(short) && |long| > |short|
    ensures i < |long| && !Lists(short, long[i].key)
  {
    KeySetSize(long);
    KeySetSize(short);
    if KeySet(long) <= KeySet(short) {
      SubsetSize(KeySet(long), KeySet(short));
    }
    var key :| key in KeySet(long) && key !in KeySet(short);
    i :| i < |long| && long[i].key == key;
    assert forall j :: 0 <= j < |short| ==> short[j].key in KeySet(short);
  }

  lemma NotShorter<Vec, Value>(m: Matching<Vec, Value>, k: nat, a: Entries<Vec, Value>, b: Entries<Vec, Value>)
    requires IsTopK(m, k, a) && IsTopK(m, k, b)
    ensures |a| <= |b|
  {
    if |a| > |b| {
      var i := Pigeonhole(a, b);
    }
  }

  lemma NotNearer<Vec, Value>(m: Matching<Vec, Value>, k: nat, a: Entries<Vec, Value>, b: Entries<Vec, Value>, i: nat)
    requires IsTopK(m, k, a) && IsTopK(m, k, b) && i < |a| && i < |b|
    ensures b[i].distance <= a[i].distance
  {
    // one of the first i+1 keys of `a` is not among the first i keys of `b`
    var j := Pigeonhole(a[..i + 1], b[..i]);
    var key := a[j].key;
    assert a[j].distance <= a[i].distance by { assert j < i ==> Nearer(a[j], a[i]); }
    assert key in m && m[key] == a[j];
    if Lists(b, key) {
      var l :| 0 <= l < |b| && b[l].key == key;
      PrefixLists(b, i, l);
      assert b[i].distance <= b[l].distance by { assert i < l ==> Nearer(b[i], b[l]); }
      assert m[key] == b[l];
    }
  }

  /** All best-k answers list the same distances in the same order. */
  lemma TopKUnique<Vec, Value>(m: Matching<Vec, Value>, k: nat, a: Entries<Vec, Value>, b: Entries<Vec, Value>)
    requires IsTopK(m, k, a) && IsTopK(m, k, b)
    ensures |a| == |b| && forall i :: 0 <= i < |a| ==> a[i].distance == b[i].distance
  {
    NotShorter(m, k, a, b);
    NotShorter(m, k, b, a);
    forall i | 0 <= i < |a| ensures a[i].distance == b[i].distance {
      NotNearer(m, k, a, b, i);
      NotNearer(m, k, b, a, i);
    }
  }

  // ---- cutting at k and filtering by distance commute ----

  ghost function Near<Vec, Value>(m: Matching<Vec, Value>, d: real): Matching<Vec, Value> {
    map key | key in m && m[key].distance <= d :: m[key]
  }

  function Within<Vec, Value>(es: Entries<Vec, Value>, d: real): Entries<Vec, Value> {
    if es == [] then []
    else if es[0].distance <= d then [es[0]] + Within(es[1..], d)
    else Within(es[1..], d)
  }

  lemma {:induction false} WithinIsPrefix<Vec, Value>(es: Entries<Vec, Value>, d: real)
    requires SortedBy(es, Nearer)
    ensures |Within(es, d)| <= |es| && Within(es, d) == es[..|Within(es, d)|]
    ensures forall i :: 0 <= i < |es| ==> (es[i].distance <= d <==> i < |Within(es, d)|)
    ensures |Within(es, d)| < |es| ==> es[|Within(es, d)|].distance > d
  {
    if es != [] {
      WithinIsPrefix(es[1..], d);
      assert forall i :: 1 <= i < |es| ==> Nearer(es[0], es[i]);
      assert forall i :: 1 <= i < |es| ==> es[i] == es[1..][i - 1];
    }
  }

  /** Filtering a best-k answer by distance is a best-k answer over the filtered entries. */
  lemma FilterOfTopK<Vec, Value>(m: Matching<Vec, Value>, k: nat, es: Entries<Vec, Value>, d: real)
    requires IsTopK(m, k, es)
    ensures IsTopK(Near(m, d), k, Within(es, d))
  {
    WithinIsPrefix(es, d);
    var w := Within(es, d);
    forall key | key in Near(m, d) && !Lists(w, key)
      ensures |w| >= k && forall i :: 0 <= i < |w| ==> w[i].distance <= m[key].distance
    {
      NearListed(m, k, es, d, key);
      assert w == es;
    }
  }

  /** A near key that a best-k answer lists is among its near entries; if it lists none such,
      the answer is full of nearer ones. */
  lemma NearListed<Vec, Value>(m: Matching<Vec, Value>, k: nat, es: Entries<Vec, Value>, d: real, key: string)
    requires IsTopK(m, k, es) && key in Near(m, d) && !Lists(Within(es, d), key)
    ensures |Within(es, d)| == |es| && !Lists(es, key)
  {
    WithinIsPrefix(es, d);
    var n := |Within(es, d)|;
    if Lists(es, key) {
      var j :| 0 <= j < |es| && es[j].key == key;
      PrefixLists(es, n, j);
    }
    assert m[key].distance <= d;
    assert forall i :: 0 <= i < |es| ==> es[i].distance <= m[key].distance;
  }

  /** Filtering a complete linear scan by the threshold, then sorting and cutting at `k`,
      is a best-k answer; `scan` may list the matches in any order. */
  lemma LinearScanIsTopK<Vec(!new), Value(!new)>(m: Matching<Vec, Value>, k: nat, scan: Entries<Vec, Value>)
    requires Drawn(m, scan) && forall key :: key in m ==> Lists(scan, key)
    ensures IsTopK(m, k, Take(SortBy(scan, Nearer), k))
  {
    SortedTakeIsTopK(m, k, scan);
  }

  /** Hence any best-k answer ranks exactly as the linear scan does. */
  lemma TopKRanksAsLinearScan<Vec(!new), Value(!new)>(m: Matching<Vec, Value>, k: nat, es: Entries<Vec, Value>,
      scan: Entries<Vec, Value>)
    requires IsTopK(m, k, es)
    requires Drawn(m, scan) && forall key :: key in m ==> Lists(scan, key)
    ensures var ranked := Take(SortBy(scan, Nearer), k);
            |es| == |ranked| && forall i :: 0 <= i < |es| ==> es[i].distance == ranked[i].distance
  {
    LinearScanIsTopK(m, k, scan);
    TopKUnique(m, k, es, Take(SortBy(scan, Nearer), k));
  }
}
