/** The k-nearest-neighbours regressor: training stores the feature matrix
    and the first column of the target table read as doubles; prediction
    averages the targets of the k training rows nearest to each query row. */
module Regression {
  import opened Seqs
  import opened Cells
  import opened Frames
  import opened Neighbours
  import Stats

  // ---------------------------------------------------------------------
  // Training: the targets as doubles

  /** Row i's target parsed from its text; a row past the end of the
      target list throws. */
  function TargetAt(targets: seq<Cell>, i: nat): Result<real> {
    if i >= |targets| then Err(OutOfRange) else ParseDouble(targets[i])
  }

  /** The targets of the first m rows, or the error of the first row that
      fails. */
  function TargetsOf(targets: seq<Cell>, m: nat): Result<seq<real>> {
    if m == 0 then Ok([])
    else
      match TargetsOf(targets, m - 1)
      case Err(e) => Err(e)
      case Ok(values) =>
        match TargetAt(targets, m - 1)
        case Err(e) => Err(e)
        case Ok(v) => Ok(values + [v])
  }

  /** What the target array of m rows holds once the loop has stopped: the
      targets before the first failing row and 0.0 from there on. */
  function FilledTargets(targets: seq<Cell>, m: nat): seq<real> {
    if m == 0 then []
    else
      var v := if TargetsOf(targets, m - 1).Ok? && TargetAt(targets, m - 1).Ok?
               then TargetAt(targets, m - 1).value else 0.0;
      FilledTargets(targets, m - 1) + [v]
  }

  // ---------------------------------------------------------------------
  // Prediction: the mean of the nearest targets

  /** The sum of the nearest rows' targets. Reading the target array
      throws when there is none or an index lies past its end; with no
      neighbour nothing is read. */
  function SumAt(targets: Option<seq<real>>, near: seq<int>): Result<real> {
    if near == [] then Ok(0.0)
    else
      match targets
      case None => Err(NullPointer)
      case Some(ts) => if IndicesIn(near, |ts|) then Ok(Sum(Gather(ts, near))) else Err(OutOfRange)
  }

  /** sum / k; with k = 0 the quotient 0.0 / 0 is not a number, which the
      model writes as null. */
  function Average(sum: real, k: int): Cell {
    if k == 0 then Null else RealV(sum / k as real)
  }

  /** The prediction for one query row from the trained state. */
  function PredictRowOf(query: seq<real>, rows: Option<seq<seq<real>>>, targets: Option<seq<real>>, k: int): Result<Cell> {
    match rows
    case None => Err(NullPointer)
    case Some(rs) =>
      match DistancesOf(query, rs)
      case Err(e) => Err(e)
      case Ok(ds) =>
        match KNearestOf(ds, k)
        case Err(e) => Err(e)
        case Ok(near) =>
          match SumAt(targets, near)
          case Err(e) => Err(e)
          case Ok(sum) => Ok(Average(sum, k))
  }

  /** The prediction for a query row as a function of the row. */
  function Predictor(rows: Option<seq<seq<real>>>, targets: Option<seq<real>>, k: int): seq<real> -> Result<Cell> {
    query => PredictRowOf(query, rows, targets, k)
  }

  /** The predictions for the query rows, or the error of the first row
      that fails. */
  function PredictionsOf(queries: seq<seq<real>>, rows: Option<seq<seq<real>>>, targets: Option<seq<real>>, k: int): Result<seq<Cell>> {
    EachRow(queries, Predictor(rows, targets, k))
  }

  /** predict's result: a one-column table named "Predictions". */
  function PredictFrameOf(queries: seq<seq<real>>, rows: Option<seq<seq<real>>>, targets: Option<seq<real>>, k: int): Result<Table> {
    match PredictionsOf(queries, rows, targets, k)
    case Err(e) => Err(e)
    case Ok(ps) => Ok(map["Predictions" := ps])
  }

  // ---------------------------------------------------------------------
  // The regressor

  class KNeighboursRegression {
    var k: int
    var trainFeatures: array2?<real>
    var trainTargets: array?<real>

    constructor(k: int)
      ensures this.k == k && trainFeatures == null && trainTargets == null
    {
      this.k := k;
      trainFeatures := null;
      trainTargets := null;
    }

    /** The training rows, when there are any. */
    ghost function TrainedRows(): Option<seq<seq<real>>>
      reads this, trainFeatures
    {
      if trainFeatures == null then None else Some(RowsOf(trainFeatures))
    }

    /** The training targets, when there are any. */
    ghost function TrainedTargets(): Option<seq<real>>
      reads this, trainTargets
    {
      if trainTargets == null then None else Some(trainTargets[..])
    }

    /** Trains on the feature table x and the first column of y. A failing
        row stops the parsing loop and leaves the target array as far as
        it was filled. */
    method Train(x: DataFrame, y: DataFrame) returns (o: Outcome, ghost headers: seq<string>, ghost targetColumn: string)
      modifies this
      ensures k == old(k) && KeyOrder(headers, x.data)
      ensures !MatrixDefined(x.data, headers, x.nRows, x.nCols) ==>
                o.Fail? && trainFeatures == old(trainFeatures) && trainTargets == old(trainTargets)
      ensures MatrixDefined(x.data, headers, x.nRows, x.nCols) ==>
                trainFeatures != null && fresh(trainFeatures) && RowsOf(trainFeatures) == MatrixOf(x.data, headers, x.nRows, x.nCols)
      ensures MatrixDefined(x.data, headers, x.nRows, x.nCols) && y.data == map[] ==>
                o == Fail(NoColumns) && trainTargets == old(trainTargets)
      ensures MatrixDefined(x.data, headers, x.nRows, x.nCols) && y.data != map[] ==>
                targetColumn in y.data &&
                var targets := y.data[targetColumn];
                && trainTargets != null && fresh(trainTargets)
                && trainTargets[..] == FilledTargets(targets, x.nRows)
                && o == (match TargetsOf(targets, x.nRows) case Ok(_) => Pass case Err(e) => Fail(e))
    {
      targetColumn := "";
      var n := x.nRows;
      var features;
      features, headers := x.To2DArray();
      if features.Err? {
        return Fail(features.error), headers, targetColumn;
      }
      ArrayHoldsMatrix(features.value, x.data, headers, x.nRows, x.nCols);
      trainFeatures := features.value;
      if y.data == map[] {
        return Fail(NoColumns), headers, targetColumn;
      }
      var col :| col in y.data;
      targetColumn := col;
      var values;
      values, o := ParseTargets(y.data[col], n);
      trainTargets := values;
      return o, headers, targetColumn;
    }

    /** Predicts a value for every row of x, in row order. */
    method Predict(x: DataFrame) returns (r: Result<DataFrame>, ghost headers: seq<string>)
      ensures KeyOrder(headers, x.data)
      ensures !MatrixDefined(x.data, headers, x.nRows, x.nCols) ==> r.Err?
      ensures MatrixDefined(x.data, headers, x.nRows, x.nCols) ==>
                Yields(r, PredictFrameOf(MatrixOf(x.data, headers, x.nRows, x.nCols), TrainedRows(), TrainedTargets(), k))
      ensures r.Ok? ==> fresh(r.value)
    {
      var features;
      features, headers := x.To2DArray();
      if features.Err? {
        return Err(features.error), headers;
      }
      ArrayHoldsMatrix(features.value, x.data, headers, x.nRows, x.nCols);
      var predictions := PredictRows(features.value);
      if predictions.Err? {
        return Err(predictions.error), headers;
      }
      var result := new DataFrame(map["Predictions" := predictions.value]);
      return Ok(result), headers;
    }

    /** The loop over the query rows. */
    method PredictRows(matrix: array2<real>) returns (r: Result<seq<Cell>>)
      ensures r == PredictionsOf(RowsOf(matrix), TrainedRows(), TrainedTargets(), k)
    {
      ghost var queries := RowsOf(matrix);
      var n := matrix.Length0;
      var predictions: seq<Cell> := [];
      var i := 0;
      while i < n
        invariant 0 <= i <= n
        invariant queries == RowsOf(matrix)
        invariant EachRow(queries[..i], Predictor(TrainedRows(), TrainedTargets(), k)) == Ok(predictions)
      {
        var p := PredictRow(matrix, i);
        assert queries[i] == RowOf(matrix, i);
        EachRowStep(queries, Predictor(TrainedRows(), TrainedTargets(), k), i, predictions);
        if p.Err? {
          EachRowErrPersists(queries, Predictor(TrainedRows(), TrainedTargets(), k), i + 1, n);
          assert queries[..n] == queries;
          return Err(p.error);
        }
        predictions := predictions + [p.value];
        i := i + 1;
      }
      assert queries[..n] == queries;
      return Ok(predictions);
    }

    /** The prediction for row i of the query matrix. */
    method PredictRow(features: array2<real>, i: int) returns (r: Result<Cell>)
      requires 0 <= i < features.Length0
      ensures r == PredictRowOf(RowOf(features, i), TrainedRows(), TrainedTargets(), k)
    {
      if trainFeatures == null {
        return Err(NullPointer);
      }
      var distances := Distances(features, i, trainFeatures);
      if distances.Err? {
        return Err(distances.error);
      }
      var nearest := KNearestIndices(distances.value, k);
      if nearest.Err? {
        return Err(nearest.error);
      }
      var sum := SumTargets(nearest.value);
      if sum.Err? {
        return Err(sum.error);
      }
      if k == 0 {
        return Ok(Null);
      }
      return Ok(RealV(sum.value / k as real));
    }

    /** The sum of the targets of the nearest rows, in their order. */
    method SumTargets(nearest: array<int>) returns (r: Result<real>)
      ensures r == SumAt(TrainedTargets(), nearest[..])
    {
      if nearest.Length == 0 {
        return Ok(0.0);
      }
      if trainTargets == null {
        return Err(NullPointer);
      }
      var targets := trainTargets;
      ghost var ts := targets[..];
      var sum := 0.0;
      var j := 0;
      while j < nearest.Length
        invariant 0 <= j <= nearest.Length
        invariant IndicesIn(nearest[..j], |ts|) && sum == Sum(Gather(ts, nearest[..j]))
      {
        var idx := nearest[j];
        if !(0 <= idx < targets.Length) {
          assert nearest[..][j] == idx;
          return Err(OutOfRange);
        }
        assert nearest[..j + 1] == nearest[..j] + [idx];
        GatherConcat(ts, nearest[..j], [idx]);
        ghost var gathered := Gather(ts, nearest[..j + 1]);
        assert gathered[..|gathered| - 1] == Gather(ts, nearest[..j]);
        sum := sum + targets[idx];
        j := j + 1;
      }
      assert nearest[..j] == nearest[..];
      return Ok(sum);
    }
  }

  /** The parsing loop: a new array of n targets, filled row by row until
      a row fails. */
  method ParseTargets(targets: seq<Cell>, n: nat) returns (values: array<real>, o: Outcome)
    ensures fresh(values)
    ensures values[..] == FilledTargets(targets, n)
    ensures o == (match TargetsOf(targets, n) case Ok(_) => Pass case Err(e) => Fail(e))
  {
    values := new real[n](_ => 0.0);
    var i := 0;
    while i < n
      invariant 0 <= i <= n
      invariant TargetsOf(targets, i).Ok?
      invariant values[..i] == TargetsOf(targets, i).value
      invariant forall j :: i <= j < n ==> values[j] == 0.0
    {
      if i >= |targets| {
        FilledAfterFailure(targets, i, n);
        assert values[..] == values[..i] + values[i..];
        TargetsErrPersists(targets, i + 1, n);
        return values, Fail(OutOfRange);
      }
      var v := ParseDouble(targets[i]);
      if v.Err? {
        FilledAfterFailure(targets, i, n);
        assert values[..] == values[..i] + values[i..];
        TargetsErrPersists(targets, i + 1, n);
        return values, Fail(v.error);
      }
      values[i] := v.value;
      i := i + 1;
    }
    FilledWhenOk(targets, n);
    assert values[..] == values[..n];
    return values, Pass;
  }

  // ---------------------------------------------------------------------
  // Properties of training

  lemma {:induction false} TargetsErrPersists(targets: seq<Cell>, j: nat, m: nat)
    requires j <= m && TargetsOf(targets, j).Err?
    ensures TargetsOf(targets, m) == TargetsOf(targets, j)
    decreases m - j
  {
    if j < m {
      TargetsErrPersists(targets, j + 1, m);
    }
  }

  /** When every row parses, the array holds exactly the parsed targets. */
  lemma {:induction false} FilledWhenOk(targets: seq<Cell>, m: nat)
    requires TargetsOf(targets, m).Ok?
    ensures FilledTargets(targets, m) == TargetsOf(targets, m).value
  {
    if m > 0 {
      FilledWhenOk(targets, m - 1);
    }
  }

  /** When row i is the first to fail, the array holds the targets before
      it and 0.0 from it on. */
  lemma {:induction false} FilledAfterFailure(targets: seq<Cell>, i: nat, m: nat)
    requires i < m && TargetsOf(targets, i).Ok? && TargetAt(targets, i).Err?
    ensures FilledTargets(targets, m) == TargetsOf(targets, i).value + seq(m - i, _ => 0.0)
    decreases m
  {
    if m == i + 1 {
      FilledWhenOk(targets, i);
    } else {
      FilledAfterFailure(targets, i, m - 1);
      TargetsErrPersists(targets, i + 1, m - 1);
    }
  }

  /** Training succeeds exactly when every one of the first m targets
      exists and is a number, and then stores their values in row order. */
  lemma {:induction false} TargetsSpec(targets: seq<Cell>, m: nat)
    ensures TargetsOf(targets, m).Ok? <==> m <= |targets| && forall i :: 0 <= i < m ==> ParseDouble(targets[i]).Ok?
    ensures TargetsOf(targets, m).Ok? ==>
              |TargetsOf(targets, m).value| == m &&
              forall i :: 0 <= i < m ==> TargetsOf(targets, m).value[i] == ParseDouble(targets[i]).value
  {
    if m > 0 {
      TargetsSpec(targets, m - 1);
    }
  }

  // ---------------------------------------------------------------------
  // Properties of prediction

  /** A successful predict returns one column, "Predictions", with one
      entry per query row, that row's prediction; it succeeds when every
      row has a prediction. */
  lemma PredictFrameSpec(queries: seq<seq<real>>, rows: Option<seq<seq<real>>>, targets: Option<seq<real>>, k: int)
    ensures (forall i :: 0 <= i < |queries| ==> PredictRowOf(queries[i], rows, targets, k).Ok?) ==> PredictFrameOf(queries, rows, targets, k).Ok?
    ensures PredictFrameOf(queries, rows, targets, k).Ok? ==>
              var t := PredictFrameOf(queries, rows, targets, k).value;
              t.Keys == {"Predictions"} && |t["Predictions"]| == |queries| &&
              forall i :: 0 <= i < |queries| ==> PredictRowOf(queries[i], rows, targets, k) == Ok(t["Predictions"][i])
  {
    if forall i :: 0 <= i < |queries| ==> Predictor(rows, targets, k)(queries[i]).Ok? {
      EachRowSucceeds(queries, Predictor(rows, targets, k));
    }
    if PredictFrameOf(queries, rows, targets, k).Ok? {
      EachRowSpec(queries, Predictor(rows, targets, k));
    }
  }

  /** With k at least 1 a prediction is the mean of the targets of the k
      nearest training rows. */
  lemma PredictionIsNeighbourMean(query: seq<real>, rows: seq<seq<real>>, targets: seq<real>, k: int)
    requires 1 <= k && PredictRowOf(query, Some(rows), Some(targets), k).Ok?
    ensures DistancesOf(query, rows).Ok? && KNearestOf(DistancesOf(query, rows).value, k).Ok?
    ensures var near := KNearestOf(DistancesOf(query, rows).value, k).value;
            && |near| == k && IndicesIn(near, |targets|)
            && PredictRowOf(query, Some(rows), Some(targets), k) == Ok(RealV(Stats.Mean(Gather(targets, near))))
  {
    var near := KNearestOf(DistancesOf(query, rows).value, k).value;
    KNearestSpec(DistancesOf(query, rows).value, k);
  }

  /** With k at least 1 a prediction lies between the smallest and the
      largest training target. */
  lemma PredictionWithinTargets(query: seq<real>, rows: seq<seq<real>>, targets: seq<real>, k: int)
    requires 1 <= k && PredictRowOf(query, Some(rows), Some(targets), k).Ok?
    ensures targets != []
    ensures var p := PredictRowOf(query, Some(rows), Some(targets), k).value;
            p.RealV? && Stats.MinOf(targets) <= p.r <= Stats.MaxOf(targets)
  {
    PredictionIsNeighbourMean(query, rows, targets, k);
    var near := KNearestOf(DistancesOf(query, rows).value, k).value;
    var chosen := Gather(targets, near);
    assert near[0] in near;
    Stats.MinOfIsLeast(targets);
    Stats.MaxOfIsGreatest(targets);
    forall j | 0 <= j < |chosen| ensures Stats.MinOf(targets) <= chosen[j] <= Stats.MaxOf(targets) {
      assert chosen[j] == targets[near[j]] && targets[near[j]] in targets;
    }
    Stats.MeanWithinBounds(chosen, Stats.MinOf(targets), Stats.MaxOf(targets));
  }

  /** With k = 0 there are no neighbours and every prediction is the
      0.0 / 0 that the model writes as null. */
  lemma ZeroNeighboursPredictNull(query: seq<real>, rows: seq<seq<real>>, targets: Option<seq<real>>)
    requires DistancesOf(query, rows).Ok?
    ensures PredictRowOf(query, Some(rows), targets, 0) == Ok(Null)
  {
    KNearestSpec(DistancesOf(query, rows).value, 0);
  }
}
