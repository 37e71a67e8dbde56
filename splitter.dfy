/** Splitting a feature table and a target table into training and test
    rows, and picking target columns.

    The row order comes from shuffling 0, 1, ..., n-1 with a seeded
    java.util.Random; the model takes the shuffled list as a parameter,
    which may be any permutation of those positions. */
module Splitters {
  import opened Seqs
  import opened Cells
  import opened Frames

  /** The four tables of a split, under the names X_train, X_test, y_train
      and y_test. */
  datatype Split<T> = Split(xTrain: T, xTest: T, yTrain: T, yTest: T)

  /** Math.round: the nearest integer, halves rounded up. */
  function RoundHalfUp(x: real): int {
    (x + 0.5).Floor
  }

  /** The number of training rows for n rows and the fraction trainSize. */
  function TrainCount(n: nat, trainSize: real): int {
    RoundHalfUp(Repeated(n, trainSize))
  }

  /** trainTestSplit over a feature table x whose recorded row count is n
      and a target table y, with the shuffled positions. A negative count
      makes `subList(0, count)` throw IllegalArgumentException, a count past
      n makes it throw IndexOutOfBoundsException; then the four selections
      in the order X_train, X_test, y_train, y_test. */
  function SplitOf(x: Table, n: nat, y: Table, trainSize: real, shuffled: seq<int>): Result<Split<Table>>
    requires |shuffled| == n
  {
    var count := TrainCount(n, trainSize);
    if count < 0 then Err(BadRange)
    else if count > n then Err(OutOfRange)
    else SplitParts(x, y, shuffled[..count], shuffled[count..])
  }

  /** The four selections, the first error winning. */
  function SplitParts(x: Table, y: Table, train: seq<int>, test: seq<int>): Result<Split<Table>> {
    var xTrain := SelectRowsOf(x, train);
    var xTest := SelectRowsOf(x, test);
    var yTrain := SelectRowsOf(y, train);
    var yTest := SelectRowsOf(y, test);
    if xTrain.Err? then Err(xTrain.error)
    else if xTest.Err? then Err(xTest.error)
    else if yTrain.Err? then Err(yTrain.error)
    else if yTest.Err? then Err(yTest.error)
    else Ok(Split(xTrain.value, xTest.value, yTrain.value, yTest.value))
  }

  /** What a split returns, against the tables its specification gives:
      the same four names, each bound to a new frame holding its table. */
  ghost predicate SplitYields(r: Result<Split<DataFrame>>, spec: Result<Split<Table>>)
    reads if r.Ok? then {r.value.xTrain, r.value.xTest, r.value.yTrain, r.value.yTest} else {}
  {
    match spec
    case Err(e) => r == Err(e)
    case Ok(s) =>
      && r.Ok?
      && r.value.xTrain.Holds(s.xTrain) && r.value.xTest.Holds(s.xTest)
      && r.value.yTrain.Holds(s.yTrain) && r.value.yTest.Holds(s.yTest)
  }

  // ---------------------------------------------------------------------
  // The methods

  method TrainTestSplit(x: DataFrame, y: DataFrame, trainSize: real, shuffled: seq<int>)
    returns (r: Result<Split<DataFrame>>)
    requires |shuffled| == x.nRows
    ensures SplitYields(r, SplitOf(x.data, x.nRows, y.data, trainSize, shuffled))
    ensures r.Ok? ==> fresh(r.value.xTrain) && fresh(r.value.xTest) && fresh(r.value.yTrain) && fresh(r.value.yTest)
  {
    var totalRows := x.nRows;
    var trainCount := RoundHalfUp(Repeated(totalRows, trainSize));
    if trainCount < 0 {
      return Err(BadRange);
    }
    if trainCount > totalRows {
      return Err(OutOfRange);
    }
    var trainIndices := shuffled[..trainCount];
    var testIndices := shuffled[trainCount..];
    var xTrain := x.SelectRows(trainIndices);
    if xTrain.Err? {
      return Err(xTrain.error);
    }
    var xTest := x.SelectRows(testIndices);
    if xTest.Err? {
      return Err(xTest.error);
    }
    var yTrain := y.SelectRows(trainIndices);
    if yTrain.Err? {
      return Err(yTrain.error);
    }
    var yTest := y.SelectRows(testIndices);
    if yTest.Err? {
      return Err(yTest.error);
    }
    var split := Split(xTrain.value, xTest.value, yTrain.value, yTest.value);
    return Ok(split);
  }

  /** getRowsByIndices: the listed rows of every column, in list order; an
      index outside a column throws. */
  method GetRowsByIndices(df: DataFrame, indices: seq<int>) returns (r: Result<DataFrame>)
    ensures Yields(r, SelectRowsOf(df.data, indices))
    ensures r.Ok? ==> fresh(r.value)
  {
    var filtered := SelectRowsTable(df.data, indices);
    if filtered.Err? {
      return Err(filtered.error);
    }
    var result := new DataFrame(filtered.value);
    return Ok(result);
  }

  /** getTargetColumn: the one column as a new frame. */
  method GetTargetColumn(df: DataFrame, target: string) returns (r: Result<DataFrame>)
    ensures target !in df.data ==> r == Err(ColumnNotFound)
    ensures target in df.data ==> r.Ok? && r.value.Holds(map[target := df.data[target]])
    ensures r.Ok? ==> fresh(r.value)
  {
    if target !in df.data {
      return Err(ColumnNotFound);
    }
    var result := new DataFrame(map[target := df.data[target]]);
    return Ok(result);
  }

  /** getTargetColumns: copies the columns one by one, throwing at the first
      absent name. */
  method GetTargetColumns(df: DataFrame, targets: seq<string>) returns (r: Result<DataFrame>)
    ensures Yields(r, ColumnsOf(df.data, targets))
    ensures r.Ok? ==> fresh(r.value)
  {
    var result := CopyColumns(df.data, targets);
    if result.Err? {
      return Err(result.error);
    }
    var frame := new DataFrame(result.value);
    return Ok(frame);
  }

  /** The copying loop of getTargetColumns. */
  method CopyColumns(data: Table, targets: seq<string>) returns (r: Result<Table>)
    ensures r == ColumnsOf(data, targets)
  {
    var result: Table := map[];
    var k := 0;
    while k < |targets|
      invariant 0 <= k <= |targets|
      invariant forall m :: 0 <= m < k ==> targets[m] in data
      invariant result == map c | c in data && c in targets[..k] :: data[c]
    {
      var target := targets[k];
      if target !in data {
        return Err(ColumnNotFound);
      }
      TakeSnoc(targets, k);
      ColumnsSnoc(data, targets[..k], target);
      result := result[target := data[target]];
      k := k + 1;
    }
    assert targets[..k] == targets;
    return Ok(result);
  }

  /** Copying one more present column into the selection. */
  lemma ColumnsSnoc(t: Table, names: seq<string>, x: string)
    requires x in t
    ensures (map c | c in t && c in names :: t[c])[x := t[x]] == map c | c in t && c in names + [x] :: t[c]
  {
    assert forall c :: c in names + [x] <==> c in names || c == x;
  }

  // ---------------------------------------------------------------------
  // Properties

  /** The training count is the nearest integer to n * trainSize. */
  lemma TrainCountNearest(n: nat, trainSize: real)
    ensures n as real * trainSize - 0.5 < TrainCount(n, trainSize) as real <= n as real * trainSize + 0.5
  {
    RepeatedIsProduct(n, trainSize);
  }

  /** A fraction between 0 and 1 gives a count between 0 and n. */
  lemma TrainCountInRange(n: nat, trainSize: real)
    requires 0.0 <= trainSize <= 1.0
    ensures 0 <= TrainCount(n, trainSize) <= n
  {
    RepeatedIsProduct(n, trainSize);
    assert 0.0 <= n as real * trainSize <= n as real * 1.0;
  }

  /** On tables of n rows with a fraction between 0 and 1 the split
      succeeds: the training tables hold the count of rows, the test tables
      the rest, and stacking training above test rows gives each column's
      cells back, each exactly as often as before. */
  lemma SplitKeepsEveryRow(x: Table, n: nat, y: Table, trainSize: real, shuffled: seq<int>)
    requires IsPermutation(shuffled, n) && Rectangular(x, n) && Rectangular(y, n)
    requires 0.0 <= trainSize <= 1.0
    ensures |shuffled| == n
    ensures SplitOf(x, n, y, trainSize, shuffled).Ok?
    ensures var s := SplitOf(x, n, y, trainSize, shuffled).value;
            var count := TrainCount(n, trainSize);
            0 <= count <= n &&
            Rectangular(s.xTrain, count) && Rectangular(s.xTest, n - count) &&
            Rectangular(s.yTrain, count) && Rectangular(s.yTest, n - count)
    ensures var s := SplitOf(x, n, y, trainSize, shuffled).value;
            s.xTrain.Keys == s.xTest.Keys == x.Keys && s.yTrain.Keys == s.yTest.Keys == y.Keys
    ensures var s := SplitOf(x, n, y, trainSize, shuffled).value;
            forall c :: c in x ==> multiset(s.xTrain[c] + s.xTest[c]) == multiset(x[c])
    ensures var s := SplitOf(x, n, y, trainSize, shuffled).value;
            forall c :: c in y ==> multiset(s.yTrain[c] + s.yTest[c]) == multiset(y[c])
  {
    PermutationElements(shuffled, n);
    TrainCountInRange(n, trainSize);
    var count := TrainCount(n, trainSize);
    var train := shuffled[..count];
    var test := shuffled[count..];
    assert shuffled == train + test;
    assert IndicesIn(train, n) && IndicesIn(test, n);
    var s := SplitOf(x, n, y, trainSize, shuffled).value;
    forall c | c in x ensures multiset(s.xTrain[c] + s.xTest[c]) == multiset(x[c]) {
      GatherConcat(x[c], train, test);
      GatherPermutation(x[c], shuffled);
    }
    forall c | c in y ensures multiset(s.yTrain[c] + s.yTest[c]) == multiset(y[c]) {
      GatherConcat(y[c], train, test);
      GatherPermutation(y[c], shuffled);
    }
  }

  /** No source row is in both parts, and every one is in one of them. */
  lemma SplitPartitionsRows(n: nat, trainSize: real, shuffled: seq<int>)
    requires IsPermutation(shuffled, n) && 0.0 <= trainSize <= 1.0
    ensures 0 <= TrainCount(n, trainSize) <= |shuffled| == n
    ensures var count := TrainCount(n, trainSize);
            forall i :: i in shuffled[..count] ==> i !in shuffled[count..]
    ensures var count := TrainCount(n, trainSize);
            forall i :: 0 <= i < n <==> i in shuffled[..count] || i in shuffled[count..]
  {
    TrainCountInRange(n, trainSize);
    PermutationCut(shuffled, n, TrainCount(n, trainSize));
  }

  /** Cell k of a selected column is the source cell at the k-th index. */
  lemma SelectedCell(t: Table, indices: seq<int>, c: string, k: int)
    requires SelectRowsOf(t, indices).Ok? && c in t && 0 <= k < |indices|
    ensures 0 <= indices[k] < |t[c]| && SelectRowsOf(t, indices).value[c][k] == t[c][indices[k]]
  {
  }

  /** Features and targets are split by the same rows: row k of X_train and
      row k of y_train both come from source row shuffled[k]. */
  lemma SplitAlignedTrain(x: Table, n: nat, y: Table, trainSize: real, shuffled: seq<int>)
    requires |shuffled| == n && SplitOf(x, n, y, trainSize, shuffled).Ok?
    ensures 0 <= TrainCount(n, trainSize) <= n
    ensures var s := SplitOf(x, n, y, trainSize, shuffled).value;
            forall c, k :: c in x && 0 <= k < TrainCount(n, trainSize) ==>
              0 <= shuffled[k] < |x[c]| && s.xTrain[c][k] == x[c][shuffled[k]]
    ensures var s := SplitOf(x, n, y, trainSize, shuffled).value;
            forall d, k :: d in y && 0 <= k < TrainCount(n, trainSize) ==>
              0 <= shuffled[k] < |y[d]| && s.yTrain[d][k] == y[d][shuffled[k]]
  {
    var count := TrainCount(n, trainSize);
    var train := shuffled[..count];
    var s := SplitParts(x, y, train, shuffled[count..]).value;
    forall c, k | c in x && 0 <= k < count
      ensures 0 <= shuffled[k] < |x[c]| && s.xTrain[c][k] == x[c][shuffled[k]]
    {
      SelectedCell(x, train, c, k);
    }
    forall d, k | d in y && 0 <= k < count
      ensures 0 <= shuffled[k] < |y[d]| && s.yTrain[d][k] == y[d][shuffled[k]]
    {
      SelectedCell(y, train, d, k);
    }
  }

  /** Likewise row k of X_test and of y_test both come from source row
      shuffled[count + k], count being the number of training rows. */
  lemma SplitAlignedTest(x: Table, n: nat, y: Table, trainSize: real, shuffled: seq<int>)
    requires |shuffled| == n && SplitOf(x, n, y, trainSize, shuffled).Ok?
    ensures 0 <= TrainCount(n, trainSize) <= n
    ensures var s := SplitOf(x, n, y, trainSize, shuffled).value;
            var count := TrainCount(n, trainSize);
            forall c, k :: c in x && 0 <= k < n - count ==>
              0 <= shuffled[count + k] < |x[c]| && s.xTest[c][k] == x[c][shuffled[count + k]]
    ensures var s := SplitOf(x, n, y, trainSize, shuffled).value;
            var count := TrainCount(n, trainSize);
            forall d, k :: d in y && 0 <= k < n - count ==>
              0 <= shuffled[count + k] < |y[d]| && s.yTest[d][k] == y[d][shuffled[count + k]]
  {
    var count := TrainCount(n, trainSize);
    var test := shuffled[count..];
    var s := SplitParts(x, y, shuffled[..count], test).value;
    forall c, k | c in x && 0 <= k < n - count
      ensures 0 <= shuffled[count + k] < |x[c]| && s.xTest[c][k] == x[c][shuffled[count + k]]
    {
      SelectedCell(x, test, c, k);
    }
    forall d, k | d in y && 0 <= k < n - count
      ensures 0 <= shuffled[count + k] < |y[d]| && s.yTest[d][k] == y[d][shuffled[count + k]]
    {
      SelectedCell(y, test, d, k);
    }
  }

  /** Taking the target columns and then rows gives the same table as
      taking rows and then the target columns, so y_train of a split is the
      targets of the split full table. */
  lemma TargetsCommuteWithRows(t: Table, targets: seq<string>, indices: seq<int>)
    requires ColumnsOf(t, targets).Ok? && SelectRowsOf(t, indices).Ok?
    ensures SelectRowsOf(ColumnsOf(t, targets).value, indices).Ok?
    ensures ColumnsOf(SelectRowsOf(t, indices).value, targets).Ok?
    ensures SelectRowsOf(ColumnsOf(t, targets).value, indices).value == ColumnsOf(SelectRowsOf(t, indices).value, targets).value
  {
    var u := SelectRowsOf(t, indices).value;
    assert forall k :: 0 <= k < |targets| ==> targets[k] in u;
  }

  /** The single-name form is the list form with a one-name list. */
  lemma TargetColumnIsListOfOne(t: Table, target: string)
    ensures ColumnsOf(t, [target]).Ok? <==> target in t
    ensures target in t ==> ColumnsOf(t, [target]).value == map[target := t[target]]
  {
    assert [target][0] == target;
    if target in t {
      assert (map c | c in t && c in [target] :: t[c]) == map[target := t[target]];
    }
  }
}
