/** Column scalers and their inverses. Each forward scaler maps every
    number x of the column to (x - a) / b, keeps null cells, writes the
    result as `<name>_scaled` into the input table's map, and returns a
    table without the source column; each inverse maps x to x * b + a and
    names its output after the input name with "_scaled" taken out. */
module Scalers {
  import opened Seqs
  import opened Cells
  import opened Frames
  import opened Stats

  /** The column holds no Number cell. */
  predicate NoNumbers(col: seq<Cell>) {
    forall k :: 0 <= k < |col| ==> !IsNumber(col[k])
  }

  /** The forward map of a value. */
  function Scale(x: real, a: real, b: real): real
    requires b != 0.0
  {
    (x - a) / b
  }

  /** The inverse map of a value. */
  function Unscale(x: real, a: real, b: real): real {
    x * b + a
  }

  /** The forward loop: null stays null, any other cell is read with
      `Double.valueOf(toString())` and becomes (x - a) / b; the first cell
      that cannot be read stops the loop with its error. The divisor only
      matters when some cell is a number. */
  function Rescale(col: seq<Cell>, a: real, b: real): Result<seq<Cell>>
    requires b != 0.0 || NoNumbers(col)
  {
    if col == [] then Ok([])
    else
      match Rescale(col[..|col| - 1], a, b)
      case Err(e) => Err(e)
      case Ok(init) =>
        var last := col[|col| - 1];
        if last.Null? then Ok(init + [Null])
        else
          match ParseDouble(last)
          case Err(e) => Err(e)
          case Ok(x) => Ok(init + [RealV(Scale(x, a, b))])
  }

  /** The inverse loop: null stays null, x becomes x * b + a. */
  function Restore(col: seq<Cell>, a: real, b: real): Result<seq<Cell>> {
    if col == [] then Ok([])
    else
      match Restore(col[..|col| - 1], a, b)
      case Err(e) => Err(e)
      case Ok(init) =>
        var last := col[|col| - 1];
        if last.Null? then Ok(init + [Null])
        else
          match ParseDouble(last)
          case Err(e) => Err(e)
          case Ok(x) => Ok(init + [RealV(Unscale(x, a, b))])
  }

  /** A cell as `Double.valueOf(toString())` would give it back: a number
      becomes its double value, anything else is left as it is. */
  function AsDouble(c: Cell): Cell {
    if IsNumber(c) then RealV(NumberValue(c)) else c
  }

  /** The column with every number as a double. */
  function AsDoubles(col: seq<Cell>): seq<Cell> {
    if col == [] then [] else AsDoubles(col[..|col| - 1]) + [AsDouble(col[|col| - 1])]
  }

  lemma NoNumbersOfEmptyNumerics(col: seq<Cell>)
    requires Numerics(col) == []
    ensures NoNumbers(col)
  {
    forall k | 0 <= k < |col| ensures !IsNumber(col[k]) {
      NumberInNumerics(col, k);
    }
  }

  /** Every Number cell contributes to Numerics. */
  lemma {:induction false} NumberInNumerics(col: seq<Cell>, k: int)
    requires 0 <= k < |col|
    ensures IsNumber(col[k]) ==> NumberValue(col[k]) in Numerics(col)
  {
    var n := |col| - 1;
    if k < n {
      NumberInNumerics(col[..n], k);
    }
  }

  /** minMaxScaler's column: a = the minimum, b = maximum - minimum. */
  function MinMaxScaledOf(col: seq<Cell>): Result<seq<Cell>>
    requires Numerics(col) != [] ==> MinOf(Numerics(col)) != MaxOf(Numerics(col))
  {
    var lo, hi := MinOf(Numerics(col)), MaxOf(Numerics(col));
    if Numerics(col) == [] then
      NoNumbersOfEmptyNumerics(col);
      Rescale(col, lo, hi - lo)
    else Rescale(col, lo, hi - lo)
  }

  /** standardScaler's column: meanColumn fails on a column without
      numbers; otherwise a = the mean and b = the standard deviation. */
  function StandardScaledOf(col: seq<Cell>, sd: real): Result<seq<Cell>>
    requires Numerics(col) != [] ==> sd != 0.0
  {
    if Numerics(col) == [] then Err(NoNumericValues)
    else Rescale(col, Mean(Numerics(col)), sd)
  }

  /** An interquartile range of zero is replaced by one. */
  function ClampIqr(iqr: real): (r: real)
    ensures r != 0.0 && (iqr != 0.0 ==> r == iqr)
  {
    if iqr == 0.0 then 1.0 else iqr
  }

  /** robustScaler's column: a = the median, b = Q3 - Q1 (1 when zero). */
  function RobustScaledOf(t: Table, name: string): Result<seq<Cell>>
    requires name in t
  {
    match MedianColumnOf(t, name)
    case Err(e) => Err(e)
    case Ok(median) =>
      match Q1ColumnOf(t, name)
      case Err(e) => Err(e)
      case Ok(q1) =>
        match Q3ColumnOf(t, name)
        case Err(e) => Err(e)
        case Ok(q3) => Rescale(t[name], median, ClampIqr(q3 - q1))
  }

  /** `String.replace(pattern, "")`: every occurrence, scanning left to
      right without overlaps, removed. */
  function RemoveAll(s: string, pattern: string): string
    requires pattern != []
    decreases |s|
  {
    if |s| < |pattern| then s
    else if s[..|pattern|] == pattern then RemoveAll(s[|pattern|..], pattern)
    else [s[0]] + RemoveAll(s[1..], pattern)
  }

  /** The name an inverse scaler writes its output under. */
  function InverseName(name: string): string {
    RemoveAll(name, "_scaled")
  }

  predicate OccursAt(s: string, pattern: string, i: int)
    requires 0 <= i && i + |pattern| <= |s|
  {
    s[i..i + |pattern|] == pattern
  }

  predicate NoOccurrence(s: string, pattern: string) {
    forall i :: 0 <= i && i + |pattern| <= |s| ==> !OccursAt(s, pattern, i)
  }

  /** What a scaler leaves behind: on error nothing changed; otherwise the
      input table's map holds the new column and the returned table is that
      map without the source column, counted before the removal. */
  ghost predicate ScaleResult(before: Table, after: Table, r: Result<DataFrame>, name: string, target: string, spec: Result<seq<Cell>>)
    reads if r.Ok? then {r.value} else {}
  {
    match spec
    case Err(e) => r == Err(e) && after == before
    case Ok(s) =>
      && r.Ok?
      && after == before[target := s]
      && r.value.data == after - {name}
      && r.value.nCols == |after|
      && RowsOfSomeColumn(after, r.value.nRows)
  }

  method RescaleColumn(col: seq<Cell>, a: real, b: real) returns (r: Result<seq<Cell>>)
    requires b != 0.0 || NoNumbers(col)
    ensures r == Rescale(col, a, b)
  {
    var newCol: seq<Cell> := [];
    var i := 0;
    while i < |col|
      invariant 0 <= i <= |col|
      invariant Rescale(col[..i], a, b) == Ok(newCol)
    {
      assert col[..i + 1][..i] == col[..i] && col[..i + 1][i] == col[i];
      var val := col[i];
      if val.Null? {
        newCol := newCol + [Null];
      } else {
        var x := ParseDouble(val);
        if x.Err? {
          RescaleErrPersists(col, a, b, i + 1);
          return Err(x.error);
        }
        newCol := newCol + [RealV(Scale(x.value, a, b))];
      }
      i := i + 1;
    }
    assert col[..i] == col;
    return Ok(newCol);
  }

  method RestoreColumn(col: seq<Cell>, a: real, b: real) returns (r: Result<seq<Cell>>)
    ensures r == Restore(col, a, b)
  {
    var newCol: seq<Cell> := [];
    var i := 0;
    while i < |col|
      invariant 0 <= i <= |col|
      invariant Restore(col[..i], a, b) == Ok(newCol)
    {
      assert col[..i + 1][..i] == col[..i] && col[..i + 1][i] == col[i];
      var val := col[i];
      if val.Null? {
        newCol := newCol + [Null];
      } else {
        var x := ParseDouble(val);
        if x.Err? {
          RestoreErrPersists(col, a, b, i + 1);
          return Err(x.error);
        }
        newCol := newCol + [RealV(Unscale(x.value, a, b))];
      }
      i := i + 1;
    }
    assert col[..i] == col;
    return Ok(newCol);
  }

  /** A failure at a prefix is the failure of the whole column. */
  lemma {:induction false} RescaleErrPersists(col: seq<Cell>, a: real, b: real, n: int)
    requires 0 <= n <= |col| && (b != 0.0 || NoNumbers(col)) && Rescale(col[..n], a, b).Err?
    ensures Rescale(col, a, b) == Rescale(col[..n], a, b)
    decreases |col| - n
  {
    if n < |col| {
      assert col[..n + 1][..n] == col[..n];
      RescaleErrPersists(col, a, b, n + 1);
    } else {
      assert col[..n] == col;
    }
  }

  lemma {:induction false} RestoreErrPersists(col: seq<Cell>, a: real, b: real, n: int)
    requires 0 <= n <= |col| && Restore(col[..n], a, b).Err?
    ensures Restore(col, a, b) == Restore(col[..n], a, b)
    decreases |col| - n
  {
    if n < |col| {
      assert col[..n + 1][..n] == col[..n];
      RestoreErrPersists(col, a, b, n + 1);
    } else {
      assert col[..n] == col;
    }
  }

  /** withColumn on the input table followed by InPlaceRemoveColumn on the
      table it returns. */
  method PutAndRemove(df: DataFrame, name: string, target: string, newCol: seq<Cell>) returns (r: DataFrame)
    requires name in df.data || name == target
    modifies df`data
    ensures df.data == old(df.data)[target := newCol]
    ensures fresh(r) && r.data == df.data - {name} && r.nCols == |df.data| && RowsOfSomeColumn(df.data, r.nRows)
  {
    r := df.WithColumn(target, newCol);
    var removed := r.InPlaceRemoveColumn(name);
  }

  method MinMaxScaler(df: DataFrame, name: string) returns (r: Result<DataFrame>)
    requires name in df.data && Numerics(df.data[name]) != [] ==>
               MinOf(Numerics(df.data[name])) != MaxOf(Numerics(df.data[name]))
    modifies df`data
    ensures name !in old(df.data) ==> r == Err(ColumnNotFound) && df.data == old(df.data)
    ensures name in old(df.data) ==>
              ScaleResult(old(df.data), df.data, r, name, name + "_scaled", MinMaxScaledOf(old(df.data)[name]))
    ensures r.Ok? ==> fresh(r.value)
  {
    if name !in df.data {
      return Err(ColumnNotFound);
    }
    var columnValues := df.data[name];
    var minValue := MinimumValue(df, name);
    var maxValue := MaximumValue(df, name);
    if Numerics(columnValues) == [] {
      NoNumbersOfEmptyNumerics(columnValues);
    }
    var newCol := RescaleColumn(columnValues, minValue.value, maxValue.value - minValue.value);
    if newCol.Err? {
      return Err(newCol.error);
    }
    var newDF := PutAndRemove(df, name, name + "_scaled", newCol.value);
    return Ok(newDF);
  }

  method InverseMinMaxScaler(df: DataFrame, name: string, originalMin: real, originalMax: real) returns (r: Result<DataFrame>)
    modifies df`data
    ensures name !in old(df.data) ==> r == Err(ColumnNotFound) && df.data == old(df.data)
    ensures name in old(df.data) ==>
              ScaleResult(old(df.data), df.data, r, name, InverseName(name),
                          Restore(old(df.data)[name], originalMin, originalMax - originalMin))
    ensures r.Ok? ==> fresh(r.value)
  {
    if name !in df.data {
      return Err(ColumnNotFound);
    }
    var newCol := RestoreColumn(df.data[name], originalMin, originalMax - originalMin);
    if newCol.Err? {
      return Err(newCol.error);
    }
    var newDF := PutAndRemove(df, name, InverseName(name), newCol.value);
    return Ok(newDF);
  }

  /** sd stands for sdValue (see IsSdValue), the root of varianceValue as
      written. A column whose variance as written is negative (a NaN sd)
      or zero (a division by zero) is outside the model. */
  method StandardScaler(df: DataFrame, name: string, sd: real) returns (r: Result<DataFrame>)
    requires name in df.data && Numerics(df.data[name]) != [] ==> IsSdValue(df.data, name, sd) && sd != 0.0
    modifies df`data
    ensures name !in old(df.data) ==> r == Err(ColumnNotFound) && df.data == old(df.data)
    ensures name in old(df.data) ==>
              ScaleResult(old(df.data), df.data, r, name, name + "_scaled", StandardScaledOf(old(df.data)[name], sd))
    ensures r.Ok? ==> fresh(r.value)
  {
    if name !in df.data {
      return Err(ColumnNotFound);
    }
    var columnValues := df.data[name];
    var mean := MeanColumn(df, name);
    if mean.Err? {
      return Err(mean.error);
    }
    var newCol := RescaleColumn(columnValues, mean.value, sd);
    if newCol.Err? {
      return Err(newCol.error);
    }
    var newDF := PutAndRemove(df, name, name + "_scaled", newCol.value);
    return Ok(newDF);
  }

  method InverseStandardScaler(df: DataFrame, name: string, originalMean: real, originalSd: real) returns (r: Result<DataFrame>)
    modifies df`data
    ensures name !in old(df.data) ==> r == Err(ColumnNotFound) && df.data == old(df.data)
    ensures name in old(df.data) ==>
              ScaleResult(old(df.data), df.data, r, name, InverseName(name),
                          Restore(old(df.data)[name], originalMean, originalSd))
    ensures r.Ok? ==> fresh(r.value)
  {
    if name !in df.data {
      return Err(ColumnNotFound);
    }
    var newCol := RestoreColumn(df.data[name], originalMean, originalSd);
    if newCol.Err? {
      return Err(newCol.error);
    }
    var newDF := PutAndRemove(df, name, InverseName(name), newCol.value);
    return Ok(newDF);
  }

  method RobustScaler(df: DataFrame, name: string) returns (r: Result<DataFrame>)
    modifies df`data
    ensures name !in old(df.data) ==> r == Err(ColumnNotFound) && df.data == old(df.data)
    ensures name in old(df.data) ==>
              ScaleResult(old(df.data), df.data, r, name, name + "_scaled", RobustScaledOf(old(df.data), name))
    ensures r.Ok? ==> fresh(r.value)
  {
    if name !in df.data {
      return Err(ColumnNotFound);
    }
    var columnValues := df.data[name];
    var median := MedianColumn(df, name);
    if median.Err? {
      return Err(median.error);
    }
    var q1 := Q1Value(df, name);
    if q1.Err? {
      return Err(q1.error);
    }
    var q3 := Q3Value(df, name);
    if q3.Err? {
      return Err(q3.error);
    }
    var iqr := q3.value - q1.value;
    if iqr == 0.0 {
      iqr := 1.0;
    }
    var newCol := RescaleColumn(columnValues, median.value, iqr);
    if newCol.Err? {
      return Err(newCol.error);
    }
    var newDF := PutAndRemove(df, name, name + "_scaled", newCol.value);
    return Ok(newDF);
  }

  method InverseRobustScaler(df: DataFrame, name: string, originalMedian: real, originalIqr: real) returns (r: Result<DataFrame>)
    modifies df`data
    ensures name !in old(df.data) ==> r == Err(ColumnNotFound) && df.data == old(df.data)
    ensures name in old(df.data) ==>
              ScaleResult(old(df.data), df.data, r, name, InverseName(name),
                          Restore(old(df.data)[name], originalMedian, ClampIqr(originalIqr)))
    ensures r.Ok? ==> fresh(r.value)
  {
    if name !in df.data {
      return Err(ColumnNotFound);
    }
    var iqr := originalIqr;
    if iqr == 0.0 {
      iqr := 1.0;
    }
    var newCol := RestoreColumn(df.data[name], originalMedian, iqr);
    if newCol.Err? {
      return Err(newCol.error);
    }
    var newDF := PutAndRemove(df, name, InverseName(name), newCol.value);
    return Ok(newDF);
  }

  // ---------------------------------------------------------------------
  // Properties

  /** The forward loop fails exactly when the column holds a string, with
      NumberFormatException, and otherwise gives one cell per row. */
  lemma {:induction false} RescaleOkIff(col: seq<Cell>, a: real, b: real)
    requires b != 0.0 || NoNumbers(col)
    ensures Rescale(col, a, b).Ok? <==> forall k :: 0 <= k < |col| ==> !col[k].StrV?
    ensures Rescale(col, a, b).Err? ==> Rescale(col, a, b).error == NotNumeric
    ensures Rescale(col, a, b).Ok? ==> |Rescale(col, a, b).value| == |col|
  {
    if col != [] {
      var n := |col| - 1;
      assert forall k :: 0 <= k < n ==> col[..n][k] == col[k];
      RescaleOkIff(col[..n], a, b);
    }
  }

  /** The same for the inverse loop. */
  lemma {:induction false} RestoreOkIff(col: seq<Cell>, a: real, b: real)
    ensures Restore(col, a, b).Ok? <==> forall k :: 0 <= k < |col| ==> !col[k].StrV?
    ensures Restore(col, a, b).Err? ==> Restore(col, a, b).error == NotNumeric
    ensures Restore(col, a, b).Ok? ==> |Restore(col, a, b).value| == |col|
  {
    if col != [] {
      var n := |col| - 1;
      assert forall k :: 0 <= k < n ==> col[..n][k] == col[k];
      RestoreOkIff(col[..n], a, b);
    }
  }

  /** Row k of a forward-scaled column: null where the input is null,
      (x - a) / b where it holds the number x. */
  lemma {:induction false} RescaleAt(col: seq<Cell>, a: real, b: real, k: int)
    requires b != 0.0 || NoNumbers(col)
    requires Rescale(col, a, b).Ok? && 0 <= k < |col|
    ensures |Rescale(col, a, b).value| == |col| && !col[k].StrV?
    ensures Rescale(col, a, b).value[k] == if col[k].Null? then Null else RealV(Scale(NumberValue(col[k]), a, b))
  {
    var n := |col| - 1;
    RescaleOkIff(col, a, b);
    RescaleOkIff(col[..n], a, b);
    if k < n {
      RescaleAt(col[..n], a, b, k);
    }
  }

  /** Scale and Unscale with the same a and b undo each other. */
  lemma ScaleUnscale(x: real, a: real, b: real)
    requires b != 0.0
    ensures Unscale(Scale(x, a, b), a, b) == x && Scale(Unscale(x, a, b), a, b) == x
  {
  }

  /** Scaling and then inverting with the same a and b gives the column
      back, every number as a double. */
  lemma {:induction false} RescaleThenRestore(col: seq<Cell>, a: real, b: real)
    requires b != 0.0 && Rescale(col, a, b).Ok?
    ensures Restore(Rescale(col, a, b).value, a, b) == Ok(AsDoubles(col))
  {
    if col != [] {
      var n := |col| - 1;
      var last := col[n];
      RescaleThenRestore(col[..n], a, b);
      var s0 := Rescale(col[..n], a, b).value;
      var s := Rescale(col, a, b).value;
      if last.Null? {
        assert s == s0 + [Null];
      } else {
        var x := NumberValue(last);
        assert ParseDouble(last) == Ok(x);
        assert s == s0 + [RealV(Scale(x, a, b))];
        ScaleUnscale(x, a, b);
        assert ParseDouble(s[|s| - 1]) == Ok(Scale(x, a, b));
      }
      assert s[..|s| - 1] == s0;
      assert AsDoubles(col) == AsDoubles(col[..n]) + [AsDouble(last)];
    }
  }

  /** Inverting and then scaling with the same a and b gives the column
      back, every number as a double. */
  lemma {:induction false} RestoreThenRescale(col: seq<Cell>, a: real, b: real)
    requires b != 0.0 && Restore(col, a, b).Ok?
    ensures Rescale(Restore(col, a, b).value, a, b) == Ok(AsDoubles(col))
  {
    if col != [] {
      var n := |col| - 1;
      var last := col[n];
      RestoreThenRescale(col[..n], a, b);
      var s0 := Restore(col[..n], a, b).value;
      var s := Restore(col, a, b).value;
      if last.Null? {
        assert s == s0 + [Null];
      } else {
        var x := NumberValue(last);
        assert ParseDouble(last) == Ok(x);
        assert s == s0 + [RealV(Unscale(x, a, b))];
        ScaleUnscale(x, a, b);
        assert ParseDouble(s[|s| - 1]) == Ok(Unscale(x, a, b));
      }
      assert s[..|s| - 1] == s0;
      assert AsDoubles(col) == AsDoubles(col[..n]) + [AsDouble(last)];
    }
  }

  /** Min-max scaling puts every number of the column in [0, 1]. */
  lemma MinMaxWithinUnit(col: seq<Cell>)
    requires Numerics(col) != [] && MinOf(Numerics(col)) != MaxOf(Numerics(col))
    requires MinMaxScaledOf(col).Ok?
    ensures |MinMaxScaledOf(col).value| == |col|
    ensures forall k :: 0 <= k < |col| && IsNumber(col[k]) ==>
              MinMaxScaledOf(col).value[k].RealV? && 0.0 <= MinMaxScaledOf(col).value[k].r <= 1.0
  {
    var xs := Numerics(col);
    var lo, hi := MinOf(xs), MaxOf(xs);
    MinOfIsLeast(xs);
    MaxOfIsGreatest(xs);
    RescaleOkIff(col, lo, hi - lo);
    forall k | 0 <= k < |col| && IsNumber(col[k])
      ensures MinMaxScaledOf(col).value[k].RealV? && 0.0 <= MinMaxScaledOf(col).value[k].r <= 1.0
    {
      RescaleAt(col, lo, hi - lo, k);
      NumberInNumerics(col, k);
      var x := NumberValue(col[k]);
      QuotientBounds(x - lo, hi - lo, 0.0, 1.0);
    }
  }

  /** Scale applied to each value of a list. */
  function ScaleAll(xs: seq<real>, a: real, b: real): seq<real>
    requires b != 0.0
  {
    if xs == [] then [] else ScaleAll(xs[..|xs| - 1], a, b) + [Scale(xs[|xs| - 1], a, b)]
  }

  /** The numbers of a forward-scaled column are the input's numbers, each
      scaled, in the same order. */
  lemma {:induction false} NumericsOfRescaled(col: seq<Cell>, a: real, b: real)
    requires b != 0.0 && Rescale(col, a, b).Ok?
    ensures Numerics(Rescale(col, a, b).value) == ScaleAll(Numerics(col), a, b)
  {
    if col != [] {
      var n := |col| - 1;
      var last := col[n];
      NumericsOfRescaled(col[..n], a, b);
      var s0 := Rescale(col[..n], a, b).value;
      var s := Rescale(col, a, b).value;
      if last.Null? {
        assert s == s0 + [Null];
        assert s[..|s| - 1] == s0;
        assert Numerics(s) == Numerics(s0);
        assert Numerics(col) == Numerics(col[..n]);
      } else {
        var x := NumberValue(last);
        assert ParseDouble(last) == Ok(x);
        assert s == s0 + [RealV(Scale(x, a, b))];
        assert s[..|s| - 1] == s0;
        assert Numerics(s) == Numerics(s0) + [Scale(x, a, b)];
        var xs := Numerics(col);
        assert xs == Numerics(col[..n]) + [x];
        assert xs[..|xs| - 1] == Numerics(col[..n]);
      }
    }
  }

  /** Scaled values add up to (S - n * a) / b, where S is the sum and n the
      count of the values. */
  lemma {:induction false} ScaledSum(xs: seq<real>, a: real, b: real)
    requires b != 0.0
    ensures |ScaleAll(xs, a, b)| == |xs|
    ensures Sum(ScaleAll(xs, a, b)) * b == Sum(xs) - Repeated(|xs|, a)
  {
    if xs != [] {
      var n := |xs| - 1;
      ScaledSum(xs[..n], a, b);
      SumLast(xs);
      ScaleAllSumLast(xs, a, b);
      ScaleTimes(xs[n], a, b);
      SumStep(Sum(ScaleAll(xs[..n], a, b)), Scale(xs[n], a, b), Sum(ScaleAll(xs, a, b)), b);
    }
  }

  /** Adding one more scaled value. */
  lemma SumStep(scaled: real, y: real, scaled1: real, b: real)
    requires scaled1 == scaled + y
    ensures scaled1 * b == scaled * b + y * b
  {
  }

  lemma ScaleTimes(x: real, a: real, b: real)
    requires b != 0.0
    ensures Scale(x, a, b) * b == x - a
  {
  }

  lemma ScaleAllSumLast(xs: seq<real>, a: real, b: real)
    requires b != 0.0 && xs != []
    ensures Sum(ScaleAll(xs, a, b)) == Sum(ScaleAll(xs[..|xs| - 1], a, b)) + Scale(xs[|xs| - 1], a, b)
  {
    SumAppend(ScaleAll(xs[..|xs| - 1], a, b), Scale(xs[|xs| - 1], a, b));
  }

  lemma SumLast(xs: seq<real>)
    requires xs != []
    ensures Sum(xs) == Sum(xs[..|xs| - 1]) + xs[|xs| - 1]
  {
  }

  /** Standard scaling centres the column: the scaled numbers sum to zero,
      so their mean is zero. */
  lemma StandardScaledCentred(col: seq<Cell>, sd: real)
    requires Numerics(col) != [] ==> sd != 0.0
    requires StandardScaledOf(col, sd).Ok?
    ensures Numerics(StandardScaledOf(col, sd).value) != []
    ensures Mean(Numerics(StandardScaledOf(col, sd).value)) == 0.0
  {
    var xs := Numerics(col);
    var ys := Numerics(StandardScaledOf(col, sd).value);
    NumericsOfRescaled(col, Mean(xs), sd);
    ScaledSum(xs, Mean(xs), sd);
    RepeatedMean(xs);
    ZeroProduct(Sum(ys), sd);
  }

  lemma RepeatedMean(xs: seq<real>)
    requires xs != []
    ensures Repeated(|xs|, Mean(xs)) == Sum(xs)
  {
    RepeatedIsProduct(|xs|, Mean(xs));
  }

  lemma ZeroProduct(x: real, b: real)
    requires b != 0.0 && x * b == 0.0
    ensures x == 0.0
  {
  }

  lemma {:induction false} NoOccurrenceTail(s: string, p: string)
    requires s != [] && NoOccurrence(s, p)
    ensures NoOccurrence(s[1..], p)
  {
    forall i | 0 <= i && i + |p| <= |s[1..]| ensures !OccursAt(s[1..], p, i) {
      assert s[1..][i..i + |p|] == s[i + 1..i + 1 + |p|];
      assert !OccursAt(s, p, i + 1);
    }
  }

  /** The inverse scalers name their output after the forward scaler's
      input: "_scaled" comes back off a name that did not contain it. */
  lemma {:induction false} InverseNameOfScaled(name: string)
    requires NoOccurrence(name, "_scaled")
    ensures InverseName(name + "_scaled") == name
  {
    var p := "_scaled";
    var s := name + p;
    if name == [] {
      assert s == p;
      assert s[..|p|] == p;
      assert s[|p|..] == [];
    } else {
      assert s[..|p|] != p by {
        if |name| >= |p| {
          assert s[..|p|] == name[0..0 + |p|];
          assert !OccursAt(name, p, 0);
        } else {
          assert s[|name|] == '_';
          assert p[1] == 's' && p[2] == 'c' && p[3] == 'a' && p[4] == 'l' && p[5] == 'e' && p[6] == 'd';
          assert s[..|p|][|name|] != p[|name|];
        }
      }
      NoOccurrenceTail(name, p);
      InverseNameOfScaled(name[1..]);
      assert s[1..] == name[1..] + p;
      assert [name[0]] + name[1..] == name;
    }
  }

  /** A name without "_scaled" is its own inverse name. */
  lemma {:induction false} InverseNameUnchanged(name: string)
    requires NoOccurrence(name, "_scaled")
    ensures InverseName(name) == name
    decreases |name|
  {
    var p := "_scaled";
    if |name| >= |p| {
      assert name[..|p|] == name[0..0 + |p|];
      assert !OccursAt(name, p, 0);
      NoOccurrenceTail(name, p);
      InverseNameUnchanged(name[1..]);
      assert [name[0]] + name[1..] == name;
    }
  }

  /** So an inverse scaler given a name without "_scaled" writes its output
      under that very name and then removes it: the column is lost. */
  lemma InverseOfUnscaledNameDropsColumn(before: Table, after: Table, r: Result<DataFrame>, name: string, spec: Result<seq<Cell>>)
    requires NoOccurrence(name, "_scaled") && spec.Ok?
    requires ScaleResult(before, after, r, name, InverseName(name), spec)
    ensures r.Ok? && name !in r.value.data && r.value.data == before - {name}
  {
    InverseNameUnchanged(name);
  }
}
