/** Sequence vocabulary shared by the table model: index ranges, gathering by
    index lists, first-occurrence order, occurrence counts and permutations. */
module Seqs {

  function Min(a: int, b: int): int { if a <= b then a else b }
  function Max(a: int, b: int): int { if a >= b then a else b }

  /** The index list 0, 1, ..., n-1. */
  function Range(n: nat): seq<int> { seq(n, i => i) }

  /** Every entry of `idx` is a valid position of a sequence of length n. */
  predicate IndicesIn(idx: seq<int>, n: int) {
    forall k :: 0 <= k < |idx| ==> 0 <= idx[k] < n
  }

  /** The elements of `s` at the positions listed in `idx`, in that order
      (repeats and reordering allowed). */
  function Gather<T>(s: seq<T>, idx: seq<int>): seq<T>
    requires IndicesIn(idx, |s|)
  {
    seq(|idx|, k requires 0 <= k < |idx| => s[idx[k]])
  }

  predicate NoDuplicates<T(==)>(s: seq<T>) {
    forall i, j :: 0 <= i < j < |s| ==> s[i] != s[j]
  }

  predicate StrictlyIncreasing(s: seq<int>) {
    forall i, j :: 0 <= i < j < |s| ==> s[i] < s[j]
  }

  /** Number of occurrences of x in s. */
  function Count<T(==)>(s: seq<T>, x: T): nat {
    if s == [] then 0 else Count(s[..|s| - 1], x) + (if s[|s| - 1] == x then 1 else 0)
  }

  /** The distinct elements of s in order of first occurrence (what a
      LinkedHashSet or the key set of a LinkedHashMap holds). */
  function Distinct<T(==)>(s: seq<T>): seq<T> {
    if s == [] then []
    else
      var d := Distinct(s[..|s| - 1]);
      if s[|s| - 1] in d then d else d + [s[|s| - 1]]
  }

  /** Position of the first occurrence of x in s. */
  function IndexOf<T(==)>(s: seq<T>, x: T): (k: nat)
    requires x in s
    ensures k < |s| && s[k] == x
    ensures forall j :: 0 <= j < k ==> s[j] != x
  {
    if s[0] == x then 0 else 1 + IndexOf(s[1..], x)
  }

  /** Some element of a non-empty set: the next key a hash map's iteration
      visits, in an order the model leaves open. */
  method Pick<T>(s: set<T>) returns (x: T)
    requires s != {}
    ensures x in s
  {
    x :| x in s;
  }

  /** p lists each of 0..n-1 exactly once. */
  ghost predicate IsPermutation(p: seq<int>, n: nat) {
    multiset(p) == multiset(Range(n))
  }

  lemma {:induction false} GatherAll<T>(s: seq<T>)
    ensures IndicesIn(Range(|s|), |s|) && Gather(s, Range(|s|)) == s
  {
  }

  /** Gathering twice is gathering once by the composed index list. */
  lemma GatherGather<T>(s: seq<T>, a: seq<int>, b: seq<int>)
    requires IndicesIn(a, |s|) && IndicesIn(b, |a|)
    ensures IndicesIn(Gather(a, b), |s|)
    ensures Gather(Gather(s, a), b) == Gather(s, Gather(a, b))
  {
  }

  lemma {:induction false} CountAppend<T>(s: seq<T>, t: seq<T>, x: T)
    ensures Count(s + t, x) == Count(s, x) + Count(t, x)
    decreases |t|
  {
    if t == [] {
      assert s + t == s;
    } else {
      assert (s + t)[..|s + t| - 1] == s + t[..|t| - 1];
      CountAppend(s, t[..|t| - 1], x);
    }
  }

  lemma {:induction false} CountPositive<T>(s: seq<T>, x: T)
    ensures x in s <==> Count(s, x) > 0
  {
    if s != [] {
      CountPositive(s[..|s| - 1], x);
      assert s == s[..|s| - 1] + [s[|s| - 1]];
    }
  }

  /** The first-occurrence list has no repeats and exactly the elements of s. */
  lemma {:induction false} DistinctProperties<T>(s: seq<T>)
    ensures NoDuplicates(Distinct(s))
    ensures forall x :: x in Distinct(s) <==> x in s
    ensures |Distinct(s)| <= |s|
  {
    if s != [] {
      var init := s[..|s| - 1];
      DistinctProperties(init);
      assert s == init + [s[|s| - 1]];
    }
  }

  /** Appending an element keeps the first-occurrence list as a prefix. */
  lemma DistinctSnoc<T>(s: seq<T>, x: T)
    ensures Distinct(s + [x]) == if x in s then Distinct(s) else Distinct(s) + [x]
  {
    assert (s + [x])[..|s + [x]| - 1] == s;
    DistinctProperties(s);
  }

  lemma {:induction false} RangeMultiplicity(n: nat, x: int)
    ensures multiset(Range(n))[x] == if 0 <= x < n then 1 else 0
  {
    if n > 0 {
      assert Range(n) == Range(n - 1) + [n - 1];
      RangeMultiplicity(n - 1, x);
    }
  }

  /** A permutation of 0..n-1 has length n, stays in range and repeats nothing. */
  lemma PermutationElements(p: seq<int>, n: nat)
    requires IsPermutation(p, n)
    ensures |p| == n && IndicesIn(p, n) && NoDuplicates(p)
  {
    assert |p| == |multiset(p)| == |multiset(Range(n))| == |Range(n)|;
    forall k | 0 <= k < |p| ensures 0 <= p[k] < n {
      assert p[k] in multiset(p);
      RangeMultiplicity(n, p[k]);
    }
    forall i, j | 0 <= i < j < |p| ensures p[i] != p[j] {
      if p[i] == p[j] {
        var x := p[i];
        assert p == p[..j] + p[j..];
        assert x in p[..j] && x in p[j..];
        assert multiset(p)[x] == multiset(p[..j])[x] + multiset(p[j..])[x] >= 2;
        RangeMultiplicity(n, x);
        assert false;
      }
    }
  }

  /** Cutting a permutation of 0..n-1 at c gives two disjoint parts that
      together hold every row index exactly once. */
  lemma PermutationCut(p: seq<int>, n: nat, c: nat)
    requires IsPermutation(p, n) && c <= n
    ensures |p| == n && |p[..c]| == c && |p[c..]| == n - c
    ensures forall i :: i in p[..c] ==> i !in p[c..]
    ensures forall i :: 0 <= i < n <==> (i in p[..c] || i in p[c..])
    ensures multiset(p[..c]) + multiset(p[c..]) == multiset(Range(n))
  {
    PermutationElements(p, n);
    assert p == p[..c] + p[c..];
    forall i | i in p[..c] ensures i !in p[c..] {
      var a :| 0 <= a < c && p[a] == i;
      forall b | c <= b < n ensures p[b] != i {
        assert a < b;
      }
    }
    forall i ensures 0 <= i < n <==> (i in p[..c] || i in p[c..]) {
      RangeMultiplicity(n, i);
      assert i in multiset(p) <==> 0 <= i < n;
    }
  }

  /** A prefix one longer is the prefix followed by the next element. */
  lemma TakeSnoc<T>(s: seq<T>, i: int)
    requires 0 <= i < |s|
    ensures s[..i + 1] == s[..i] + [s[i]]
  {
  }

  lemma GatherSnoc<T>(s: seq<T>, idx: seq<int>, x: int)
    requires IndicesIn(idx, |s|) && 0 <= x < |s|
    ensures IndicesIn(idx + [x], |s|) && Gather(s, idx + [x]) == Gather(s, idx) + [s[x]]
  {
  }

  lemma GatherConcat<T>(s: seq<T>, a: seq<int>, b: seq<int>)
    requires IndicesIn(a, |s|) && IndicesIn(b, |s|)
    ensures IndicesIn(a + b, |s|) && Gather(s, a + b) == Gather(s, a) + Gather(s, b)
  {
  }

  /** Taking out the entry at position j of an index list takes its
      element out of the gathered sequence. */
  lemma GatherRemoveAt<T>(s: seq<T>, q: seq<int>, j: int)
    requires IndicesIn(q, |s|) && 0 <= j < |q|
    ensures IndicesIn(q[..j] + q[j + 1..], |s|)
    ensures multiset(q[..j] + q[j + 1..]) == multiset(q) - multiset{q[j]}
    ensures multiset(Gather(s, q)) == multiset(Gather(s, q[..j] + q[j + 1..])) + multiset{s[q[j]]}
  {
    var a, x, b := q[..j], q[j], q[j + 1..];
    assert q == a + [x] + b;
    IndicesSplit(a, x, b, |s|);
    GatherAround(s, a, x, b);
  }

  lemma IndicesSplit(a: seq<int>, x: int, b: seq<int>, n: int)
    requires IndicesIn(a + [x] + b, n)
    ensures IndicesIn(a, n) && 0 <= x < n && IndicesIn(b, n)
  {
    var q := a + [x] + b;
    assert forall k :: 0 <= k < |a| ==> a[k] == q[k];
    assert forall k :: 0 <= k < |b| ==> b[k] == q[|a| + 1 + k];
    assert q[|a|] == x;
  }

  lemma GatherAround<T>(s: seq<T>, a: seq<int>, x: int, b: seq<int>)
    requires IndicesIn(a, |s|) && 0 <= x < |s| && IndicesIn(b, |s|)
    ensures IndicesIn(a + b, |s|)
    ensures multiset(a + b) == multiset(a + [x] + b) - multiset{x}
    ensures multiset(Gather(s, a + [x] + b)) == multiset(Gather(s, a + b)) + multiset{s[x]}
  {
    GatherConcat(s, a, [x]);
    GatherConcat(s, a + [x], b);
    GatherConcat(s, a, b);
    var ga, gb := Gather(s, a), Gather(s, b);
    assert Gather(s, [x]) == [s[x]];
    assert multiset(Gather(s, a + [x] + b)) == multiset(ga) + multiset{s[x]} + multiset(gb);
  }

  /** Gathering by two index lists holding the same indices gives the same
      elements, possibly in another order. */
  lemma {:induction false} GatherSameIndices<T>(s: seq<T>, p: seq<int>, q: seq<int>)
    requires IndicesIn(p, |s|) && IndicesIn(q, |s|) && multiset(p) == multiset(q)
    ensures multiset(Gather(s, p)) == multiset(Gather(s, q))
    decreases |p|
  {
    assert |p| == |multiset(p)| == |multiset(q)| == |q|;
    if p != [] {
      var last := |p| - 1;
      var x := p[last];
      assert x in multiset(q);
      var j :| 0 <= j < |q| && q[j] == x;
      GatherRemoveAt(s, p, last);
      GatherRemoveAt(s, q, j);
      assert p[..last] + p[last + 1..] == p[..last];
      GatherSameIndices(s, p[..last], q[..j] + q[j + 1..]);
    }
  }

  /** Gathering by a permutation rearranges the sequence. */
  lemma GatherPermutation<T>(s: seq<T>, p: seq<int>)
    requires IsPermutation(p, |s|)
    ensures IndicesIn(p, |s|) && multiset(Gather(s, p)) == multiset(s)
  {
    PermutationElements(p, |s|);
    GatherAll(s);
    GatherSameIndices(s, p, Range(|s|));
  }
}
