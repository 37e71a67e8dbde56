/** What the two nearest-neighbour models share: the distance from a query
    row to every training row, and the stable choice of the k nearest.

    Both model classes carry identical private copies of euclideanDistance
    and getKNearestIndices; they are modelled once here. Distances are kept
    squared: the square root is strictly increasing, so it leaves the order
    of the distances, and with it the choice of neighbours, unchanged
    (KNearestMonotone). */
module Neighbours {
  import opened Seqs
  import opened Cells
  import opened Sorting
  import opened Frames

  function Square(x: real): real { x * x }

  /** The summed squared differences of two rows of equal length. */
  function SumSquares(a: seq<real>, b: seq<real>): real
    requires |a| == |b|
  {
    if a == [] then 0.0
    else SumSquares(a[..|a| - 1], b[..|b| - 1]) + Square(a[|a| - 1] - b[|b| - 1])
  }

  /** The squared distance from a to b: the loop runs over a's length and
      reads past the end of a shorter b. */
  function SqDistOf(a: seq<real>, b: seq<real>): Result<real> {
    if |a| > |b| then Err(OutOfRange) else Ok(SumSquares(a, b[..|a|]))
  }

  /** The squared distance from the query to each training row in turn, or
      the first error. */
  function DistancesOf(query: seq<real>, rows: seq<seq<real>>): Result<seq<real>> {
    if rows == [] then Ok([])
    else
      match DistancesOf(query, rows[..|rows| - 1])
      case Err(e) => Err(e)
      case Ok(ds) =>
        match SqDistOf(query, rows[|rows| - 1])
        case Err(e) => Err(e)
        case Ok(d) => Ok(ds + [d])
  }

  /** Comparator.comparingDouble on distances. */
  function RealLe(): (real, real) -> bool {
    (x: real, y: real) => x <= y
  }

  /** getKNearestIndices: the first k positions of the stable sort of the
      distances; `new int[k]` throws for negative k, and reading past the
      sorted positions throws for k above their number. */
  function KNearestOf(distances: seq<real>, k: int): Result<seq<int>> {
    if k < 0 then Err(NegativeSize)
    else if k > |distances| then Err(OutOfRange)
    else
      StableSortLength(distances, RealLe());
      Ok(StableSort(distances, RealLe())[..k])
  }

  /** Row i of a matrix. */
  ghost function RowOf(a: array2<real>, i: int): seq<real>
    requires 0 <= i < a.Length0
    reads a
  {
    seq(a.Length1, c requires 0 <= c < a.Length1 reads a => a[i, c])
  }

  /** All rows of a matrix. */
  ghost function RowsOf(a: array2<real>): seq<seq<real>>
    reads a
  {
    seq(a.Length0, i requires 0 <= i < a.Length0 reads a => RowOf(a, i))
  }

  /** The matrix to2DArray builds from a table: rows below `rows`,
      columns in the order `headers`, nulls read as 0.0. */
  ghost function MatrixOf(t: Table, headers: seq<string>, rows: nat, cols: nat): seq<seq<real>>
    requires MatrixDefined(t, headers, rows, cols)
  {
    seq(rows, i requires 0 <= i < rows =>
      seq(cols, j requires 0 <= j < cols && 0 <= i < rows => Entry(t, headers, i, j)))
  }

  /** An array filled as to2DArray fills it holds the matrix of the table. */
  lemma ArrayHoldsMatrix(a: array2<real>, t: Table, headers: seq<string>, rows: nat, cols: nat)
    requires a.Length0 == rows && a.Length1 == cols && MatrixDefined(t, headers, rows, cols)
    requires forall i, j :: 0 <= i < rows && 0 <= j < cols ==> EntryDefined(t, headers, i, j) && a[i, j] == Entry(t, headers, i, j)
    ensures RowsOf(a) == MatrixOf(t, headers, rows, cols)
  {
    forall i | 0 <= i < rows ensures RowOf(a, i) == MatrixOf(t, headers, rows, cols)[i] {
    }
  }

  /** f applied to each query row in order, or the error of the first row
      where it fails: the shape of both predict loops. */
  function EachRow<T>(queries: seq<seq<real>>, f: seq<real> -> Result<T>): Result<seq<T>> {
    if queries == [] then Ok([])
    else
      match EachRow(queries[..|queries| - 1], f)
      case Err(e) => Err(e)
      case Ok(ps) =>
        match f(queries[|queries| - 1])
        case Err(e) => Err(e)
        case Ok(p) => Ok(ps + [p])
  }

  // ---------------------------------------------------------------------
  // The methods

  /** euclideanDistance without the final square root: row i of a against
      row j of b. */
  method SquaredDistance(a: array2<real>, i: int, b: array2<real>, j: int) returns (r: Result<real>)
    requires 0 <= i < a.Length0 && 0 <= j < b.Length0
    ensures r == SqDistOf(RowOf(a, i), RowOf(b, j))
  {
    ghost var x := RowOf(a, i);
    ghost var y := RowOf(b, j);
    var sum := 0.0;
    var c := 0;
    while c < a.Length1
      invariant 0 <= c <= a.Length1 && c <= b.Length1
      invariant sum == SumSquares(x[..c], y[..c])
    {
      if c >= b.Length1 {
        return Err(OutOfRange);
      }
      assert x[..c + 1][..c] == x[..c] && y[..c + 1][..c] == y[..c];
      sum := sum + Square(a[i, c] - b[j, c]);
      c := c + 1;
    }
    assert x[..c] == x && y[..c] == y[..|x|];
    return Ok(sum);
  }

  /** The distances from row i of the queries to every training row, in a
      new array. */
  method Distances(queries: array2<real>, i: int, train: array2<real>) returns (r: Result<array<real>>)
    requires 0 <= i < queries.Length0
    ensures DistancesOf(RowOf(queries, i), RowsOf(train)).Err? ==> r == Err(DistancesOf(RowOf(queries, i), RowsOf(train)).error)
    ensures DistancesOf(RowOf(queries, i), RowsOf(train)).Ok? ==>
              r.Ok? && fresh(r.value) && r.value[..] == DistancesOf(RowOf(queries, i), RowsOf(train)).value
  {
    ghost var query := RowOf(queries, i);
    ghost var rows := RowsOf(train);
    var distances := new real[train.Length0];
    var j := 0;
    while j < train.Length0
      invariant 0 <= j <= train.Length0
      invariant DistancesOf(query, rows[..j]) == Ok(distances[..j])
    {
      assert rows[..j + 1][..j] == rows[..j];
      var d := SquaredDistance(queries, i, train, j);
      if d.Err? {
        DistancesErrPersists(query, rows, j + 1);
        return Err(d.error);
      }
      assert rows[..j + 1][j] == rows[j] == RowOf(train, j);
      distances[j] := d.value;
      assert distances[..j + 1] == distances[..j] + [d.value];
      j := j + 1;
    }
    assert rows[..j] == rows && distances[..j] == distances[..];
    return Ok(distances);
  }

  /** The positions 0..n-1 in a new array, stably sorted by distance. */
  method SortedPositions(distances: array<real>) returns (indices: array<int>)
    ensures fresh(indices) && indices[..] == StableSort(distances[..], RealLe())
  {
    indices := new int[distances.Length];
    var i := 0;
    while i < distances.Length
      invariant 0 <= i <= distances.Length
      invariant indices[..i] == Range(i)
    {
      assert Range(i + 1) == Range(i) + [i];
      indices[i] := i;
      i := i + 1;
    }
    assert indices[..] == Range(distances.Length);
    SortIndices(indices, distances[..], RealLe());
  }

  /** getKNearestIndices: sorts the positions 0..n-1 by distance and copies
      the first k of them. */
  method KNearestIndices(distances: array<real>, k: int) returns (r: Result<array<int>>)
    ensures KNearestOf(distances[..], k).Err? ==> r == Err(KNearestOf(distances[..], k).error)
    ensures KNearestOf(distances[..], k).Ok? ==>
              r.Ok? && fresh(r.value) && r.value[..] == KNearestOf(distances[..], k).value
  {
    var indices := SortedPositions(distances);
    ghost var sorted := indices[..];
    StableSortLength(distances[..], RealLe());
    if k < 0 {
      return Err(NegativeSize);
    }
    var nearest := new int[k];
    var i := 0;
    while i < k
      invariant 0 <= i <= k && i <= indices.Length
      invariant indices[..] == sorted && nearest[..i] == sorted[..i]
    {
      if i >= indices.Length {
        return Err(OutOfRange);
      }
      nearest[i] := indices[i];
      i := i + 1;
    }
    assert nearest[..] == nearest[..i] == sorted[..k];
    assert KNearestOf(distances[..], k) == Ok(sorted[..k]);
    return Ok(nearest);
  }

  // ---------------------------------------------------------------------
  // Properties

  lemma {:induction false} DistancesErrPersists(query: seq<real>, rows: seq<seq<real>>, m: nat)
    requires m <= |rows| && DistancesOf(query, rows[..m]).Err?
    ensures DistancesOf(query, rows) == DistancesOf(query, rows[..m])
    decreases |rows| - m
  {
    if m < |rows| {
      assert rows[..m + 1][..m] == rows[..m];
      DistancesErrPersists(query, rows, m + 1);
    } else {
      assert rows[..m] == rows;
    }
  }

  /** One distance per training row, the i-th being the query's distance
      to row i; an error exactly when some row is shorter than the query. */
  lemma {:induction false} DistancesSpec(query: seq<real>, rows: seq<seq<real>>)
    ensures DistancesOf(query, rows).Ok? <==> forall i :: 0 <= i < |rows| ==> |query| <= |rows[i]|
    ensures DistancesOf(query, rows).Ok? ==>
              |DistancesOf(query, rows).value| == |rows| &&
              forall i :: 0 <= i < |rows| ==> SqDistOf(query, rows[i]) == Ok(DistancesOf(query, rows).value[i])
  {
    if rows != [] {
      var init := rows[..|rows| - 1];
      DistancesSpec(query, init);
      assert forall i :: 0 <= i < |init| ==> init[i] == rows[i];
    }
  }

  /** A squared distance is never negative. */
  lemma {:induction false} SumSquaresNonNegative(a: seq<real>, b: seq<real>)
    requires |a| == |b|
    ensures SumSquares(a, b) >= 0.0
  {
    if a != [] {
      SumSquaresNonNegative(a[..|a| - 1], b[..|b| - 1]);
      var d := a[|a| - 1] - b[|b| - 1];
      assert Square(d) >= 0.0 by {
        if d < 0.0 { assert d * d == (-d) * (-d); }
      }
    }
  }

  /** Distances are symmetric between rows of equal length. */
  lemma {:induction false} SumSquaresSymmetric(a: seq<real>, b: seq<real>)
    requires |a| == |b|
    ensures SumSquares(a, b) == SumSquares(b, a)
  {
    if a != [] {
      SumSquaresSymmetric(a[..|a| - 1], b[..|b| - 1]);
      var x, y := a[|a| - 1], b[|b| - 1];
      assert Square(x - y) == Square(y - x) by {
        assert (x - y) * (x - y) == (y - x) * (y - x);
      }
    }
  }

  /** A row is at distance 0 from itself. */
  lemma {:induction false} SumSquaresSelf(a: seq<real>)
    ensures SumSquares(a, a) == 0.0
  {
    if a != [] {
      SumSquaresSelf(a[..|a| - 1]);
    }
  }

  lemma SqDistProperties(a: seq<real>, b: seq<real>)
    ensures SqDistOf(a, b).Ok? <==> |a| <= |b|
    ensures SqDistOf(a, b).Ok? ==> SqDistOf(a, b).value >= 0.0
    ensures SqDistOf(a, a) == Ok(0.0)
    ensures |a| == |b| ==> SqDistOf(a, b) == SqDistOf(b, a)
  {
    if |a| <= |b| {
      SumSquaresNonNegative(a, b[..|a|]);
    }
    assert a[..|a|] == a;
    SumSquaresSelf(a);
    if |a| == |b| {
      assert b[..|a|] == b;
      SumSquaresSymmetric(a, b);
    }
  }

  lemma RealLeTotal()
    ensures TotalPreorder(RealLe())
  {
  }

  /** The chosen neighbours: k distinct training positions, none farther
      than any position left out; among equal distances the lower position
      is taken first; and they are listed nearest first. */
  lemma KNearestSpec(distances: seq<real>, k: int)
    requires KNearestOf(distances, k).Ok?
    ensures var near := KNearestOf(distances, k).value;
            |near| == k && NoDuplicates(near) && IndicesIn(near, |distances|)
    ensures var near := KNearestOf(distances, k).value;
            forall i, j :: i in near && 0 <= j < |distances| && j !in near ==> distances[i] <= distances[j]
    ensures var near := KNearestOf(distances, k).value;
            forall i, j :: 0 <= i < j < |distances| && distances[i] == distances[j] && j in near ==> i in near
    ensures var near := KNearestOf(distances, k).value;
            forall a, b :: 0 <= a < b < |near| ==> distances[near[a]] <= distances[near[b]]
  {
    var p := StableSort(distances, RealLe());
    StableSortCorrect(distances, RealLe());
    PrefixNearest(distances, p, k);
    PrefixTies(distances, p, k);
    PrefixOrdered(distances, p, k);
  }

  /** A prefix of a stable sort holds distinct positions, none farther than
      a position outside it. */
  lemma PrefixNearest(distances: seq<real>, p: seq<int>, k: nat)
    requires IsStableSort(distances, RealLe(), p) && k <= |distances|
    ensures |p| == |distances|
    ensures |p[..k]| == k && NoDuplicates(p[..k]) && IndicesIn(p[..k], |distances|)
    ensures forall i, j :: i in p[..k] && 0 <= j < |distances| && j !in p[..k] ==> distances[i] <= distances[j]
  {
    PermutationElements(p, |distances|);
    var near := p[..k];
    forall i, j | i in near && 0 <= j < |distances| && j !in near
      ensures distances[i] <= distances[j]
    {
      var a :| 0 <= a < k && p[a] == i;
      assert j in multiset(p) by { RangeMultiplicity(|distances|, j); }
      var b :| 0 <= b < |p| && p[b] == j;
      assert b >= k;
      assert Precedes(distances, RealLe(), p[a], p[b]);
    }
  }

  /** A prefix of a stable sort that takes a position takes every lower
      position at the same distance. */
  lemma PrefixTies(distances: seq<real>, p: seq<int>, k: nat)
    requires IsStableSort(distances, RealLe(), p) && k <= |distances|
    ensures |p| == |distances|
    ensures forall i, j :: 0 <= i < j < |distances| && distances[i] == distances[j] && j in p[..k] ==> i in p[..k]
  {
    PermutationElements(p, |distances|);
    var near := p[..k];
    forall i, j | 0 <= i < j < |distances| && distances[i] == distances[j] && j in near
      ensures i in near
    {
      var b :| 0 <= b < k && p[b] == j;
      assert i in multiset(p) by { RangeMultiplicity(|distances|, i); }
      var a :| 0 <= a < |p| && p[a] == i;
      assert a < k;
      assert i == near[a];
    }
  }

  /** A prefix of a stable sort lists its positions nearest first. */
  lemma PrefixOrdered(distances: seq<real>, p: seq<int>, k: nat)
    requires IsStableSort(distances, RealLe(), p) && k <= |distances|
    ensures |p| == |distances|
    ensures forall a, b :: 0 <= a < b < k ==> distances[p[a]] <= distances[p[b]]
  {
    PermutationElements(p, |distances|);
    forall a, b | 0 <= a < b < k ensures distances[p[a]] <= distances[p[b]] {
      assert Precedes(distances, RealLe(), p[a], p[b]);
    }
  }

  /** Any strictly increasing transform of the distances, such as the
      square root euclideanDistance takes, selects the same neighbours. */
  lemma KNearestMonotone(distances: seq<real>, f: real -> real, k: int)
    requires forall x: real, y: real :: x <= y <==> f(x) <= f(y)
    ensures KNearestOf(seq(|distances|, i requires 0 <= i < |distances| => f(distances[i])), k) == KNearestOf(distances, k)
  {
    var mapped := seq(|distances|, i requires 0 <= i < |distances| => f(distances[i]));
    RealLeTotal();
    StableSortSameOrder(mapped, RealLe(), distances, RealLe());
  }

  /** One more query row: its result is appended, or its error ends the
      list. */
  lemma EachRowStep<T>(queries: seq<seq<real>>, f: seq<real> -> Result<T>, i: nat, ps: seq<T>)
    requires i < |queries| && EachRow(queries[..i], f) == Ok(ps)
    ensures EachRow(queries[..i + 1], f) ==
              match f(queries[i])
              case Err(e) => Err(e)
              case Ok(p) => Ok(ps + [p])
  {
    assert queries[..i + 1][..i] == queries[..i];
  }

  lemma {:induction false} EachRowErrPersists<T>(queries: seq<seq<real>>, f: seq<real> -> Result<T>, j: nat, m: nat)
    requires j <= m <= |queries| && EachRow(queries[..j], f).Err?
    ensures EachRow(queries[..m], f) == EachRow(queries[..j], f)
    decreases m - j
  {
    if j < m {
      assert queries[..j + 1][..j] == queries[..j];
      EachRowErrPersists(queries, f, j + 1, m);
    }
  }

  /** A successful run has one result per query row, each f of that row. */
  lemma {:induction false} EachRowSpec<T>(queries: seq<seq<real>>, f: seq<real> -> Result<T>)
    requires EachRow(queries, f).Ok?
    ensures |EachRow(queries, f).value| == |queries|
    ensures forall i :: 0 <= i < |queries| ==> f(queries[i]) == Ok(EachRow(queries, f).value[i])
  {
    if queries != [] {
      var init := queries[..|queries| - 1];
      EachRowSpec(init, f);
      forall i | 0 <= i < |init| ensures init[i] == queries[i] {
      }
    }
  }

  /** When f succeeds on every query row the run succeeds. */
  lemma {:induction false} EachRowSucceeds<T>(queries: seq<seq<real>>, f: seq<real> -> Result<T>)
    requires forall i :: 0 <= i < |queries| ==> f(queries[i]).Ok?
    ensures EachRow(queries, f).Ok?
  {
    if queries != [] {
      var init := queries[..|queries| - 1];
      forall i | 0 <= i < |init| ensures f(init[i]).Ok? {
        assert init[i] == queries[i];
      }
      EachRowSucceeds(init, f);
    }
  }
}
