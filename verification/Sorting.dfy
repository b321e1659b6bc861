/** The behaviour of Python's `sorted` and `list.sort`: a stable sort by a total preorder.
    The implementation is an insertion sort; the lemmas say everything the other
    modules use about it. */
module Sorting {

  ghost predicate TotalPreorder<T(!new)>(le: (T, T) -> bool) {
    && (forall x, y :: le(x, y) || le(y, x))
    && (forall x, y, z :: le(x, y) && le(y, z) ==> le(x, z))
  }

  ghost predicate SortedBy<T>(xs: seq<T>, le: (T, T) -> bool) {
    forall i, j :: 0 <= i < j < |xs| ==> le(xs[i], xs[j])
  }

  function Insert<T>(x: T, xs: seq<T>, le: (T, T) -> bool): (r: seq<T>)
    ensures multiset(r) == multiset{x} + multiset(xs)
    ensures |r| == |xs| + 1
  {
    if xs == [] || le(x, xs[0]) then
      [x] + xs
    else
      assert xs == [xs[0]] + xs[1..];
      [xs[0]] + Insert(x, xs[1..], le)
  }

  function SortBy<T>(xs: seq<T>, le: (T, T) -> bool): (r: seq<T>)
    ensures multiset(r) == multiset(xs)
    ensures |r| == |xs|
  {
    if xs == [] then []
    else
      assert xs == [xs[0]] + xs[1..];
      Insert(xs[0], SortBy(xs[1..], le), le)
  }

  lemma SameElements<T>(xs: seq<T>, ys: seq<T>, x: T)
    requires multiset(xs) == multiset(ys)
    ensures x in xs <==> x in ys
  {
    assert x in xs <==> x in multiset(xs);
    assert x in ys <==> x in multiset(ys);
  }

  lemma {:induction false} InsertSorted<T(!new)>(x: T, xs: seq<T>, le: (T, T) -> bool)
    requires TotalPreorder(le) && SortedBy(xs, le)
    ensures SortedBy(Insert(x, xs, le), le)
  {
    if xs == [] || le(x, xs[0]) {
      var r := [x] + xs;
      forall i, j | 0 <= i < j < |r| ensures le(r[i], r[j]) {
        if i == 0 && j > 1 {
          assert le(xs[0], xs[j - 1]);
        }
      }
    } else {
      InsertSorted(x, xs[1..], le);
      var t := Insert(x, xs[1..], le);
      forall j | 0 <= j < |t| ensures le(xs[0], t[j]) {
        assert t[j] in multiset(t);
        assert t[j] == x || t[j] in xs[1..];
      }
    }
  }

  lemma {:induction false} SortByIsSorted<T(!new)>(xs: seq<T>, le: (T, T) -> bool)
    requires TotalPreorder(le)
    ensures SortedBy(SortBy(xs, le), le)
  {
    if xs != [] {
      SortByIsSorted(xs[1..], le);
      InsertSorted(xs[0], SortBy(xs[1..], le), le);
    }
  }

  /** Orders that agree on the elements sort alike. */
  lemma {:induction false} SortAlike<T>(xs: seq<T>, le: (T, T) -> bool, le': (T, T) -> bool)
    requires forall x, y :: x in xs && y in xs ==> le(x, y) == le'(x, y)
    ensures SortBy(xs, le) == SortBy(xs, le')
  {
    if xs != [] {
      SortAlike(xs[1..], le, le');
      forall y | y in SortBy(xs[1..], le) ensures y in xs { SameElements(SortBy(xs[1..], le), xs[1..], y); }
      InsertAlike(xs[0], SortBy(xs[1..], le), le, le');
    }
  }

  lemma {:induction false} InsertAlike<T>(x: T, xs: seq<T>, le: (T, T) -> bool, le': (T, T) -> bool)
    requires forall y :: y in xs ==> le(x, y) == le'(x, y)
    ensures Insert(x, xs, le) == Insert(x, xs, le')
  {
    if xs != [] && !le(x, xs[0]) { InsertAlike(x, xs[1..], le, le'); }
  }

  /** Sorting what is already in order changes nothing. */
  lemma {:induction false} SortOfSorted<T>(xs: seq<T>, le: (T, T) -> bool)
    requires SortedBy(xs, le)
    ensures SortBy(xs, le) == xs
  {
    if xs != [] {
      SortOfSorted(xs[1..], le);
      assert |xs| > 1 ==> le(xs[0], xs[1]);
    }
  }

  /** No two different members of `xs` are tied. */
  ghost predicate NoTies<T(!new)>(xs: seq<T>, le: (T, T) -> bool) {
    forall x, y :: x in xs && y in xs && le(x, y) && le(y, x) ==> x == y
  }

  lemma SameHead<T(!new)>(xs: seq<T>, ys: seq<T>, le: (T, T) -> bool)
    requires xs != [] && multiset(xs) == multiset(ys)
    requires SortedBy(xs, le) && SortedBy(ys, le) && NoTies(xs, le)
    ensures ys != [] && xs[0] == ys[0]
  {
    SameElements(xs, ys, xs[0]);
    var j :| 0 <= j < |ys| && ys[j] == xs[0];
    SameElements(xs, ys, ys[0]);
    var i :| 0 <= i < |xs| && xs[i] == ys[0];
    if i != 0 && j != 0 {
      assert le(xs[0], xs[i]) && le(ys[0], ys[j]);
    }
  }

  lemma RestAgrees<T>(xs: seq<T>, ys: seq<T>)
    requires xs != [] && ys != [] && xs[0] == ys[0] && multiset(xs) == multiset(ys)
    ensures multiset(xs[1..]) == multiset(ys[1..])
  {
    Parts(xs, 0);
    Parts(ys, 0);
    assert multiset(Without(xs, 0)) == multiset(xs) - multiset{xs[0]} == multiset(Without(ys, 0));
    assert Without(xs, 0) == xs[1..] && Without(ys, 0) == ys[1..];
  }

  /** Without ties there is one way to put elements in order. */
  lemma {:induction false} OneOrder<T(!new)>(xs: seq<T>, ys: seq<T>, le: (T, T) -> bool)
    requires multiset(xs) == multiset(ys) && NoTies(xs, le)
    requires SortedBy(xs, le) && SortedBy(ys, le)
    ensures xs == ys
  {
    assert |xs| == |multiset(xs)| && |ys| == |multiset(ys)|;
    if xs != [] {
      SameHead(xs, ys, le);
      RestAgrees(xs, ys);
      OneOrder(xs[1..], ys[1..], le);
      forall i | 0 < i < |xs| ensures xs[i] == ys[i] { assert xs[1..][i - 1] == ys[1..][i - 1]; }
    }
  }

  lemma SortAgrees<T(!new)>(xs: seq<T>, ys: seq<T>, le: (T, T) -> bool)
    requires TotalPreorder(le)
    requires multiset(xs) == multiset(ys) && NoTies(xs, le)
    ensures SortBy(xs, le) == SortBy(ys, le)
  {
    SortByIsSorted(xs, le);
    SortByIsSorted(ys, le);
    var r := SortBy(xs, le);
    forall x, y | x in r && y in r && le(x, y) && le(y, x) ensures x == y {
      SameElements(r, xs, x);
      SameElements(r, xs, y);
    }
    OneOrder(r, SortBy(ys, le), le);
  }

  // ---- sequences without repeats ----

  ghost predicate Distinct<T>(xs: seq<T>) { forall i, j :: 0 <= i < j < |xs| ==> xs[i] != xs[j] }

  lemma {:induction false} OnceInSequence<T>(xs: seq<T>, x: T)
    requires Distinct(xs)
    ensures multiset(xs)[x] <= 1
  {
    if xs != [] {
      assert xs == [xs[0]] + xs[1..];
      OnceInSequence(xs[1..], x);
      if x == xs[0] { assert x !in xs[1..]; }
    }
  }

  lemma TwiceInSequence<T>(xs: seq<T>, j: nat, k: nat)
    requires j < k < |xs| && xs[j] == xs[k]
    ensures multiset(xs)[xs[j]] >= 2
  {
    assert xs == xs[..k] + xs[k..];
    assert xs[j] in xs[..k] by { assert xs[..k][j] == xs[j]; }
    assert xs[k] in xs[k..] by { assert xs[k..][0] == xs[k]; }
  }

  lemma NotTwice<T>(xs: seq<T>, ys: seq<T>, j: nat, k: nat)
    requires multiset(xs) == multiset(ys) && Distinct(xs) && j < k < |ys|
    ensures ys[j] != ys[k]
  {
    OnceInSequence(xs, ys[j]);
    if ys[j] == ys[k] { TwiceInSequence(ys, j, k); }
  }

  lemma DistinctPermuted<T>(xs: seq<T>, ys: seq<T>)
    requires multiset(xs) == multiset(ys) && Distinct(xs)
    ensures Distinct(ys)
  {
    forall j, k | 0 <= j < k < |ys| ensures ys[j] != ys[k] { NotTwice(xs, ys, j, k); }
  }

  lemma DistinctSameElements<T>(xs: seq<T>, ys: seq<T>)
    requires Distinct(xs) && Distinct(ys) && forall x :: x in xs <==> x in ys
    ensures multiset(xs) == multiset(ys)
  {
    forall x ensures multiset(xs)[x] == multiset(ys)[x] {
      OnceInSequence(xs, x);
      OnceInSequence(ys, x);
      assert x in xs <==> x in multiset(xs);
      assert x in ys <==> x in multiset(ys);
    }
  }

  // ---- permutations as index lists ----

  ghost predicate IsPermutation(p: seq<nat>, n: nat) {
    && |p| == n
    && (forall i :: 0 <= i < n ==> p[i] < n)
    && (forall i, j :: 0 <= i < j < n ==> p[i] != p[j])
  }

  ghost function Without<T>(xs: seq<T>, k: nat): (r: seq<T>)
    requires k < |xs|
    ensures |r| == |xs| - 1
    ensures multiset(xs) == multiset(r) + multiset{xs[k]}
  {
    assert xs == xs[..k] + ([xs[k]] + xs[k + 1..]);
    xs[..k] + xs[k + 1..]
  }

  lemma Parts<T>(xs: seq<T>, k: nat)
    requires k < |xs|
    ensures xs == xs[..k] + [xs[k]] + xs[k + 1..] && Without(xs, k) == xs[..k] + xs[k + 1..]
  {
  }

  lemma {:induction false} PermutedMultiset<T>(xs: seq<T>, ys: seq<T>, p: seq<nat>)
    requires |xs| == |ys| && IsPermutation(p, |xs|)
    requires forall i :: 0 <= i < |xs| ==> xs[i] == ys[p[i]]
    ensures multiset(xs) == multiset(ys)
  {
    var n := |xs|;
    if n > 0 {
      var k := p[n - 1];
      var zs := Without(ys, k);
      var q := seq(n - 1, i requires 0 <= i < n - 1 => if p[i] < k then p[i] else p[i] - 1);
      forall i, j | 0 <= i < j < n - 1 ensures q[i] != q[j] {
        assert p[i] != p[j] && p[i] != k && p[j] != k;
      }
      forall i | 0 <= i < n - 1 ensures q[i] < n - 1 && xs[..n - 1][i] == zs[q[i]] {
        assert p[i] != k;
      }
      PermutedMultiset(xs[..n - 1], zs, q);
      assert xs == xs[..n - 1] + [xs[n - 1]];
    }
  }

  /** Reinserts `k` as the last target of a permutation of the other positions. */
  ghost function Reinsert(q: seq<nat>, k: nat): (p: seq<nat>) {
    seq(|q|, i requires 0 <= i < |q| => if q[i] < k then q[i] else q[i] + 1) + [k]
  }

  lemma ReinsertPermutes(q: seq<nat>, k: nat)
    requires IsPermutation(q, |q|) && k <= |q|
    ensures IsPermutation(Reinsert(q, k), |q| + 1)
  {
  }

  /** The last element of one sequence, found and taken out of another with the same elements. */
  lemma LastTwin<T>(xs: seq<T>, ys: seq<T>) returns (k: nat)
    requires multiset(xs) == multiset(ys) && xs != []
    ensures k < |ys| && ys[k] == xs[|xs| - 1]
    ensures multiset(xs[..|xs| - 1]) == multiset(Without(ys, k))
  {
    var n := |xs| - 1;
    assert xs == xs[..n] + [xs[n]];
    SameElements(xs, ys, xs[n]);
    k :| k < |ys| && ys[k] == xs[n];
    assert multiset(xs[..n]) == multiset(xs) - multiset{xs[n]};
    assert multiset(Without(ys, k)) == multiset(ys) - multiset{ys[k]};
  }

  lemma {:induction false} MultisetPermutation<T>(xs: seq<T>, ys: seq<T>) returns (p: seq<nat>)
    requires multiset(xs) == multiset(ys)
    ensures |xs| == |ys| && IsPermutation(p, |xs|)
    ensures forall i :: 0 <= i < |xs| ==> xs[i] == ys[p[i]]
  {
    var n := |xs|;
    assert n == |multiset(xs)| == |multiset(ys)| == |ys|;
    if n == 0 {
      p := [];
    } else {
      var k := LastTwin(xs, ys);
      var init, zs := xs[..n - 1], Without(ys, k);
      var q := MultisetPermutation(init, zs);
      p := Reinsert(q, k);
      ReinsertPermutes(q, k);
      forall i | 0 <= i < n - 1 ensures xs[i] == ys[p[i]] {
        assert xs[i] == init[i] == zs[q[i]];
      }
    }
  }

  lemma SubsetSize<T>(a: set<T>, b: set<T>)
    requires a <= b
    ensures |a| <= |b|
  {
    assert b == a + (b - a);
  }

  lemma SameMap<K, V>(m: map<K, V>, n: map<K, V>)
    requires m.Keys == n.Keys && forall k :: k in m ==> m[k] == n[k]
    ensures m == n
  {
  }
}
