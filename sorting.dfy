/** Stable sorting of row indices by a key order, as `Arrays.sort` and
    `List.sort` do with a comparator over the indices 0..n-1.

    The specification is a functional insertion sort, `StableSort`; the
    lemmas show that it is a permutation of the indices, ordered by key with
    ties kept in index order, and that no other index list has those two
    properties, so any stable sort (Java's merge sort included) yields it. */
module Sorting {
  import opened Seqs

  /** `le` is total and transitive: a comparator that never throws. */
  ghost predicate TotalPreorder<K(!new)>(le: (K, K) -> bool) {
    && (forall a, b :: le(a, b) || le(b, a))
    && (forall a, b, c :: le(a, b) && le(b, c) ==> le(a, c))
  }

  /** Index x comes before index y in a stable sort by `keys`. */
  predicate Precedes<K>(keys: seq<K>, le: (K, K) -> bool, x: int, y: int)
    requires 0 <= x < |keys| && 0 <= y < |keys|
  {
    le(keys[x], keys[y]) && (le(keys[y], keys[x]) ==> x < y)
  }

  /** p is ordered by key, equal keys in ascending index order. */
  ghost predicate StableOrder<K>(keys: seq<K>, le: (K, K) -> bool, p: seq<int>) {
    && IndicesIn(p, |keys|)
    && forall i, j :: 0 <= i < j < |p| ==> Precedes(keys, le, p[i], p[j])
  }

  /** p is a stable sort of the indices of `keys`. */
  ghost predicate IsStableSort<K>(keys: seq<K>, le: (K, K) -> bool, p: seq<int>) {
    IsPermutation(p, |keys|) && StableOrder(keys, le, p)
  }

  /** Inserts index x behind every index of `s` whose key is not above x's. */
  function Insert<K>(keys: seq<K>, le: (K, K) -> bool, s: seq<int>, x: int): (r: seq<int>)
    requires IndicesIn(s, |keys|) && 0 <= x < |keys|
    ensures IndicesIn(r, |keys|)
  {
    if s == [] then [x]
    else if le(keys[s[|s| - 1]], keys[x]) then s + [x]
    else Insert(keys, le, s[..|s| - 1], x) + [s[|s| - 1]]
  }

  /** Insertion adds x and keeps every other index. */
  lemma {:induction false} InsertMultiset<K>(keys: seq<K>, le: (K, K) -> bool, s: seq<int>, x: int)
    requires IndicesIn(s, |keys|) && 0 <= x < |keys|
    ensures multiset(Insert(keys, le, s, x)) == multiset(s) + multiset{x}
  {
    if s != [] && !le(keys[s[|s| - 1]], keys[x]) {
      InsertMultiset(keys, le, s[..|s| - 1], x);
      assert s == s[..|s| - 1] + [s[|s| - 1]];
    }
  }

  /** The indices 0..n-1 sorted by insertion. */
  function SortPrefix<K>(keys: seq<K>, le: (K, K) -> bool, n: nat): (r: seq<int>)
    requires n <= |keys|
    ensures IndicesIn(r, |keys|)
  {
    if n == 0 then [] else Insert(keys, le, SortPrefix(keys, le, n - 1), n - 1)
  }

  function StableSort<K>(keys: seq<K>, le: (K, K) -> bool): seq<int> {
    SortPrefix(keys, le, |keys|)
  }

  lemma {:induction false} SortPrefixPermutation<K>(keys: seq<K>, le: (K, K) -> bool, n: nat)
    requires n <= |keys|
    ensures IsPermutation(SortPrefix(keys, le, n), n)
  {
    if n > 0 {
      SortPrefixPermutation(keys, le, n - 1);
      InsertPermutation(keys, le, SortPrefix(keys, le, n - 1), n);
    }
  }

  /** Inserting index n-1 into a permutation of 0..n-2 gives one of 0..n-1. */
  lemma InsertPermutation<K>(keys: seq<K>, le: (K, K) -> bool, prev: seq<int>, n: nat)
    requires 0 < n <= |keys| && IndicesIn(prev, |keys|) && IsPermutation(prev, n - 1)
    ensures IsPermutation(Insert(keys, le, prev, n - 1), n)
  {
    InsertMultiset(keys, le, prev, n - 1);
    RangeSnoc(n);
  }

  lemma RangeSnoc(n: nat)
    requires n > 0
    ensures multiset(Range(n)) == multiset(Range(n - 1)) + multiset{n - 1}
  {
    assert Range(n) == Range(n - 1) + [n - 1];
  }

  lemma {:induction false} InsertOrdered<K(!new)>(keys: seq<K>, le: (K, K) -> bool, s: seq<int>, x: int, r: seq<int>)
    requires TotalPreorder(le)
    requires 0 <= x < |keys| && StableOrder(keys, le, s) && IndicesIn(s, x)
    requires r == Insert(keys, le, s, x)
    ensures StableOrder(keys, le, r)
    decreases |s|
  {
    if s != [] {
      var last := s[|s| - 1];
      var init := s[..|s| - 1];
      if le(keys[last], keys[x]) {
        var r := s + [x];
        forall i, j | 0 <= i < j < |r| ensures Precedes(keys, le, r[i], r[j]) {
          if j == |s| && i < |s| - 1 {
            assert Precedes(keys, le, s[i], last);
          }
        }
      } else {
        var m := Insert(keys, le, init, x);
        InsertOrdered(keys, le, init, x, m);
        InsertMultiset(keys, le, init, x);
        var r := m + [last];
        assert Precedes(keys, le, x, last);
        forall i | 0 <= i < |m| ensures Precedes(keys, le, m[i], last) {
          assert m[i] in multiset(m);
          if m[i] != x {
            assert m[i] in multiset(init);
            var k :| 0 <= k < |init| && init[k] == m[i];
            assert Precedes(keys, le, s[k], s[|s| - 1]);
          }
        }
        assert forall i, j :: 0 <= i < j < |r| ==> Precedes(keys, le, r[i], r[j]);
      }
    }
  }

  lemma {:induction false} SortPrefixOrdered<K(!new)>(keys: seq<K>, le: (K, K) -> bool, n: nat)
    requires TotalPreorder(le) && n <= |keys|
    ensures StableOrder(keys, le, SortPrefix(keys, le, n))
  {
    if n > 0 {
      SortPrefixOrdered(keys, le, n - 1);
      SortPrefixOrderedStep(keys, le, n);
    }
  }

  /** One more insertion keeps the sorted prefix in stable order. */
  lemma SortPrefixOrderedStep<K(!new)>(keys: seq<K>, le: (K, K) -> bool, n: nat)
    requires TotalPreorder(le) && 0 < n <= |keys|
    requires StableOrder(keys, le, SortPrefix(keys, le, n - 1))
    ensures StableOrder(keys, le, SortPrefix(keys, le, n))
  {
    var s := SortPrefix(keys, le, n - 1);
    var r := Insert(keys, le, s, n - 1);
    assert StableOrder(keys, le, r) by {
      SortPrefixIndices(keys, le, n - 1);
      InsertOrdered(keys, le, s, n - 1, r);
    }
    assert SortPrefix(keys, le, n) == r;
  }

  /** The first n indices sorted are exactly n indices below n. */
  lemma SortPrefixIndices<K>(keys: seq<K>, le: (K, K) -> bool, n: nat)
    requires n <= |keys|
    ensures |SortPrefix(keys, le, n)| == n && IndicesIn(SortPrefix(keys, le, n), n)
  {
    SortPrefixPermutation(keys, le, n);
    PermutationElements(SortPrefix(keys, le, n), n);
  }

  lemma StableSortLength<K>(keys: seq<K>, le: (K, K) -> bool)
    ensures |StableSort(keys, le)| == |keys|
  {
    SortPrefixPermutation(keys, le, |keys|);
    PermutationElements(StableSort(keys, le), |keys|);
  }

  /** The insertion sort is a stable sort whenever the comparator is total. */
  lemma StableSortCorrect<K(!new)>(keys: seq<K>, le: (K, K) -> bool)
    requires TotalPreorder(le)
    ensures IsStableSort(keys, le, StableSort(keys, le))
  {
    SortPrefixPermutation(keys, le, |keys|);
    SortPrefixOrdered(keys, le, |keys|);
  }

  lemma StableOrderPrefix<K>(keys: seq<K>, le: (K, K) -> bool, p: seq<int>, n: nat)
    requires StableOrder(keys, le, p) && n <= |p|
    ensures StableOrder(keys, le, p[..n])
  {
    forall i, j | 0 <= i < j < n ensures Precedes(keys, le, p[..n][i], p[..n][j]) {
      assert p[..n][i] == p[i] && p[..n][j] == p[j];
    }
  }

  /** Stably ordered lists holding the same indices end with the same index. */
  lemma StableOrderSameLast<K>(keys: seq<K>, le: (K, K) -> bool, p: seq<int>, q: seq<int>)
    requires StableOrder(keys, le, p) && StableOrder(keys, le, q)
    requires multiset(p) == multiset(q) && p != [] && q != []
    ensures p[|p| - 1] == q[|q| - 1]
  {
    var a, b := p[|p| - 1], q[|q| - 1];
    assert a in multiset(q) && b in multiset(p);
    var j :| 0 <= j < |q| && q[j] == a;
    var i :| 0 <= i < |p| && p[i] == b;
    LastFollows(keys, le, q, j);
    LastFollows(keys, le, p, i);
  }

  /** In a stable order every index before the last precedes the last. */
  lemma LastFollows<K>(keys: seq<K>, le: (K, K) -> bool, p: seq<int>, i: int)
    requires StableOrder(keys, le, p) && 0 <= i < |p|
    ensures i == |p| - 1 || Precedes(keys, le, p[i], p[|p| - 1])
  {
  }

  lemma DropSameLast(p: seq<int>, q: seq<int>)
    requires multiset(p) == multiset(q) && p != [] && q != [] && p[|p| - 1] == q[|q| - 1]
    ensures multiset(p[..|p| - 1]) == multiset(q[..|q| - 1])
  {
    var a := p[|p| - 1];
    var p0, q0 := p[..|p| - 1], q[..|q| - 1];
    assert p == p0 + [a];
    assert q == q0 + [a];
    assert multiset(p0) + multiset{a} == multiset(q0) + multiset{a};
    assert multiset(p0) == (multiset(p0) + multiset{a}) - multiset{a};
    assert multiset(q0) == (multiset(q0) + multiset{a}) - multiset{a};
  }

  /** Two index lists that are stably ordered by the same keys and hold the
      same indices are equal. */
  lemma {:induction false} StableOrderUnique<K>(keys: seq<K>, le: (K, K) -> bool, p: seq<int>, q: seq<int>)
    requires StableOrder(keys, le, p) && StableOrder(keys, le, q)
    requires multiset(p) == multiset(q)
    ensures p == q
    decreases |p|
  {
    assert |p| == |multiset(p)| == |multiset(q)| == |q|;
    if p != [] {
      StableOrderSameLast(keys, le, p, q);
      DropSameLast(p, q);
      StableOrderPrefix(keys, le, p, |p| - 1);
      StableOrderPrefix(keys, le, q, |q| - 1);
      StableOrderUnique(keys, le, p[..|p| - 1], q[..|q| - 1]);
      assert p == p[..|p| - 1] + [p[|p| - 1]];
      assert q == q[..|q| - 1] + [q[|q| - 1]];
    }
  }

  /** Any stable sort of the indices is the insertion sort's result. */
  lemma StableSortUnique<K(!new)>(keys: seq<K>, le: (K, K) -> bool, p: seq<int>)
    requires TotalPreorder(le) && IsStableSort(keys, le, p)
    ensures p == StableSort(keys, le)
  {
    StableSortCorrect(keys, le);
    StableOrderUnique(keys, le, p, StableSort(keys, le));
  }

  /** Keys that compare alike sort alike: the stable sort depends only on
      how the keys compare, so a strictly increasing transform of the keys
      (such as a square root of distances) leaves it unchanged. */
  lemma StableSortSameOrder<K(!new), L(!new)>(k1: seq<K>, le1: (K, K) -> bool, k2: seq<L>, le2: (L, L) -> bool)
    requires TotalPreorder(le1) && TotalPreorder(le2) && |k1| == |k2|
    requires forall i, j :: 0 <= i < |k1| && 0 <= j < |k1| ==> (le1(k1[i], k1[j]) <==> le2(k2[i], k2[j]))
    ensures StableSort(k1, le1) == StableSort(k2, le2)
  {
    var p := StableSort(k1, le1);
    StableSortCorrect(k1, le1);
    assert StableOrder(k2, le2, p) by {
      forall i, j | 0 <= i < j < |p| ensures Precedes(k2, le2, p[i], p[j]) {
        assert Precedes(k1, le1, p[i], p[j]);
      }
    }
    StableSortUnique(k2, le2, p);
  }

  /** Inserting behind a last element whose key is larger is inserting into
      the rest and putting that element back at the end. */
  lemma InsertPastLarger<K>(keys: seq<K>, le: (K, K) -> bool, s: seq<int>, j: nat, x: int)
    requires IndicesIn(s, |keys|) && 0 <= x < |keys| && 0 < j <= |s|
    requires !le(keys[s[j - 1]], keys[x])
    ensures Insert(keys, le, s[..j], x) == Insert(keys, le, s[..j - 1], x) + [s[j - 1]]
  {
    assert s[..j][..j - 1] == s[..j - 1];
  }

  /** s holds sorted[..j], then i, then the rest of sorted moved one place
      right: index i part way through its walk to the left. */
  ghost predicate Shifted(s: seq<int>, sorted: seq<int>, i: int, j: int) {
    && 0 <= j <= i < |s| && |sorted| == i && s[j] == i
    && (forall k :: 0 <= k < j ==> s[k] == sorted[k])
    && (forall k :: j < k <= i ==> s[k] == sorted[k - 1])
  }

  /** Swapping i with its left neighbour moves it one place further. */
  lemma SwapKeepsShifted(s: seq<int>, sorted: seq<int>, i: int, j: int)
    requires Shifted(s, sorted, i, j) && j > 0
    ensures Shifted(s[j - 1 := s[j]][j := s[j - 1]], sorted, i, j - 1)
  {
  }

  /** The walk's pending insertion moves one place left along with i:
      `whole` stands for the full insertion. */
  lemma InsertMovesLeft<K>(keys: seq<K>, le: (K, K) -> bool, sorted: seq<int>, j: nat, i: int, whole: seq<int>)
    requires IndicesIn(sorted, |keys|) && 0 <= i < |keys| && 0 < j <= |sorted|
    requires !le(keys[sorted[j - 1]], keys[i])
    requires whole == Insert(keys, le, sorted[..j], i) + sorted[j..]
    ensures whole == Insert(keys, le, sorted[..j - 1], i) + sorted[j - 1..]
  {
    InsertPastLarger(keys, le, sorted, j, i);
    var longer := Insert(keys, le, sorted[..j], i);
    var front := Insert(keys, le, sorted[..j - 1], i);
    DropCons(sorted, j - 1);
    ShiftJoin(whole, longer, front, sorted[j - 1], sorted[j..], sorted[j - 1..]);
  }

  /** A suffix one longer is the next element followed by the suffix. */
  lemma DropCons(s: seq<int>, k: int)
    requires 0 <= k < |s|
    ensures s[k..] == [s[k]] + s[k + 1..]
  {
  }

  /** Moving the last element of the front onto the tail keeps the whole. */
  lemma ShiftJoin(whole: seq<int>, longer: seq<int>, front: seq<int>, y: int, rest: seq<int>, tail: seq<int>)
    requires whole == longer + rest && longer == front + [y] && tail == [y] + rest
    ensures whole == front + tail
  {
  }

  /** Moves the index i, stored at a[i], leftwards into the sorted prefix
      a[..i] by adjacent swaps. */
  method InsertLast<K>(a: array<int>, keys: seq<K>, le: (K, K) -> bool, i: int, ghost sorted: seq<int>)
    requires a.Length == |keys| && 0 <= i < a.Length
    requires |sorted| == i && IndicesIn(sorted, |keys|)
    requires a[..i] == sorted && a[i] == i
    modifies a
    ensures a[..i + 1] == Insert(keys, le, sorted, i)
    ensures forall k :: i < k < a.Length ==> a[k] == old(a[k])
  {
    var j := i;
    assert sorted[..j] == sorted;
    assert Shifted(a[..], sorted, i, j);
    while j > 0 && !le(keys[a[j - 1]], keys[a[j]])
      invariant Shifted(a[..], sorted, i, j)
      invariant Insert(keys, le, sorted, i) == Insert(keys, le, sorted[..j], i) + sorted[j..]
      invariant forall k :: i < k < a.Length ==> a[k] == old(a[k])
    {
      InsertMovesLeft(keys, le, sorted, j, i, Insert(keys, le, sorted, i));
      ghost var s := a[..];
      a[j - 1], a[j] := a[j], a[j - 1];
      assert a[..] == s[j - 1 := s[j]][j := s[j - 1]];
      SwapKeepsShifted(s, sorted, i, j);
      j := j - 1;
    }
    assert j == 0 || le(keys[sorted[j - 1]], keys[i]);
    InsertStops(keys, le, sorted, j, i);
    ShiftedIsInsertion(a[..], sorted, i, j);
  }

  /** Inserting behind a last element whose key is not above x's appends x. */
  lemma InsertStops<K>(keys: seq<K>, le: (K, K) -> bool, s: seq<int>, j: nat, x: int)
    requires IndicesIn(s, |keys|) && 0 <= x < |keys| && j <= |s|
    requires j == 0 || le(keys[s[j - 1]], keys[x])
    ensures Insert(keys, le, s[..j], x) == s[..j] + [x]
  {
  }

  /** At the end of the walk the prefix is sorted[..j], then i, then the
      rest of sorted. */
  lemma ShiftedIsInsertion(arr: seq<int>, sorted: seq<int>, i: int, j: int)
    requires Shifted(arr, sorted, i, j)
    ensures arr[..i + 1] == sorted[..j] + [i] + sorted[j..]
  {
    ghost var expected := sorted[..j] + [i] + sorted[j..];
    forall k | 0 <= k <= i ensures arr[k] == expected[k] {
      if k > j {
        assert expected[k] == sorted[j..][k - j - 1];
      }
    }
  }

  /** Sorts the index array `a`, which holds 0..n-1, in place by insertion,
      swapping each new index leftwards past every index with a larger key. */
  method SortIndices<K>(a: array<int>, keys: seq<K>, le: (K, K) -> bool)
    requires a.Length == |keys| && a[..] == Range(|keys|)
    modifies a
    ensures a[..] == StableSort(keys, le)
  {
    var i := 0;
    while i < a.Length
      invariant 0 <= i <= a.Length
      invariant a[..i] == SortPrefix(keys, le, i)
      invariant forall k :: i <= k < a.Length ==> a[k] == k
    {
      InsertLast(a, keys, le, i, SortPrefix(keys, le, i));
      i := i + 1;
    }
    assert a[..] == a[..a.Length];
  }
}
