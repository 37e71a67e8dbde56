/** Outlier removal. A table with fewer than ten rows keeps the values
    within one population standard deviation of the mean; a larger one
    keeps the values between the Tukey fences Q1 - 1.5 IQR and
    Q3 + 1.5 IQR. Every column is then filtered by the same list of kept
    row positions. */
module Outliers {
  import opened Seqs
  import opened Cells
  import opened Frames
  import opened Stats

  /** The interval a column's values must fall in. */
  datatype Bounds =
    | Spread(mean: real, variance: real)  // mean -/+ the square root of variance
    | Fences(lower: real, upper: real)    // inclusive Tukey fences
    | Undefined                           // bounds computed over zero rows: NaN

  /** `lower <= v && v <= upper`. For a spread this is compared on squares:
      |v - mean| <= sqrt(variance) (see SpreadWithinIff). Every comparison
      with NaN is false. */
  predicate Within(b: Bounds, v: real) {
    match b
    case Spread(m, variance) => (v - m) * (v - m) <= variance
    case Fences(lo, hi) => lo <= v <= hi
    case Undefined => false
  }

  /** `Double.valueOf(val.toString())` on every cell, stopping at the first
      cell that fails. */
  function ParseAll(values: seq<Cell>): Result<seq<real>> {
    if values == [] then Ok([])
    else
      match ParseAll(values[..|values| - 1])
      case Err(e) => Err(e)
      case Ok(xs) =>
        match ParseDouble(values[|values| - 1])
        case Err(e) => Err(e)
        case Ok(x) => Ok(xs + [x])
  }

  /** The small-table bounds: sum / n and the squared deviations / n, where
      n is the table's recorded row count. */
  function SpreadOf(xs: seq<real>, n: nat): Bounds {
    if n == 0 then Undefined
    else
      var m := Sum(xs) / (n as real);
      Spread(m, SquaredDeviations(xs, m) / (n as real))
  }

  /** IQR: Q3 - Q1 of the column. */
  function IqrOf(t: Table, name: string): Result<real> {
    match Q1ColumnOf(t, name)
    case Err(e) => Err(e)
    case Ok(q1) =>
      match Q3ColumnOf(t, name)
      case Err(e) => Err(e)
      case Ok(q3) => Ok(q3 - q1)
  }

  /** The large-table bounds. */
  function FencesOf(t: Table, name: string): Result<Bounds> {
    match IqrOf(t, name)
    case Err(e) => Err(e)
    case Ok(iqr) => Ok(Fences(Q1ColumnOf(t, name).value - 1.5 * iqr, Q3ColumnOf(t, name).value + 1.5 * iqr))
  }

  /** The bounds of a present column for a table of n rows. */
  function ColumnBounds(t: Table, n: nat, name: string): Result<Bounds>
    requires name in t
  {
    if n < 10 then
      match ParseAll(t[name])
      case Err(e) => Err(e)
      case Ok(xs) => Ok(SpreadOf(xs, n))
    else FencesOf(t, name)
  }

  /** The bounds the single-column variant computes: iterating over an
      absent column throws NullPointerException, the quartiles of one throw
      IllegalArgumentException. */
  function BoundsOf(t: Table, n: nat, name: string): Result<Bounds> {
    if name in t then ColumnBounds(t, n, name)
    else if n < 10 then Err(NullPointer)
    else Err(ColumnNotFound)
  }

  /** Positions of the values within the bounds, in increasing order. */
  function KeptRows(xs: seq<real>, b: Bounds): seq<int> {
    if xs == [] then []
    else KeptRows(xs[..|xs| - 1], b) + (if Within(b, xs[|xs| - 1]) then [|xs| - 1] else [])
  }

  /** RemoveOutliers(df, columnName): the bounds, then every value of the
      column parsed and checked, then every column gathered at the kept
      positions. */
  function RemoveOutliersOf(t: Table, n: nat, name: string): Result<Table> {
    match BoundsOf(t, n, name)
    case Err(e) => Err(e)
    case Ok(b) =>
      match ParseAll(t[name])
      case Err(e) => Err(e)
      case Ok(xs) => SelectRowsOf(t, KeptRows(xs, b))
  }

  /** The test of row i against the listed columns, in list order: an
      absent column throws, bounds and the cell are computed, and the first
      column the value falls outside of ends the scan with "not valid". */
  function RowCheck(t: Table, n: nat, names: seq<string>, i: int): Result<bool>
    decreases |names|
  {
    if names == [] then Ok(true)
    else
      var c := names[0];
      if c !in t then Err(ColumnNotFound)
      else
        match ColumnBounds(t, n, c)
        case Err(e) => Err(e)
        case Ok(b) =>
          if !(0 <= i < |t[c]|) then Err(OutOfRange)
          else
            match ParseDouble(t[c][i])
            case Err(e) => Err(e)
            case Ok(v) => if !Within(b, v) then Ok(false) else RowCheck(t, n, names[1..], i)
  }

  /** The valid rows among the first m. */
  function KeptRowsAll(t: Table, n: nat, names: seq<string>, m: nat): Result<seq<int>> {
    if m == 0 then Ok([])
    else
      match KeptRowsAll(t, n, names, m - 1)
      case Err(e) => Err(e)
      case Ok(kept) =>
        match RowCheck(t, n, names, m - 1)
        case Err(e) => Err(e)
        case Ok(valid) => Ok(if valid then kept + [m - 1] else kept)
  }

  /** RemoveOutliers(df, columnNames). */
  function RemoveOutliersAllOf(t: Table, n: nat, names: seq<string>): Result<Table> {
    match KeptRowsAll(t, n, names, n)
    case Err(e) => Err(e)
    case Ok(kept) => SelectRowsOf(t, kept)
  }

  /** Row i of column c is present, parses and lies within c's bounds. */
  predicate CellWithin(t: Table, n: nat, c: string, i: int) {
    && c in t
    && ColumnBounds(t, n, c).Ok?
    && 0 <= i < |t[c]|
    && ParseDouble(t[c][i]).Ok?
    && Within(ColumnBounds(t, n, c).value, ParseDouble(t[c][i]).value)
  }

  // ---------------------------------------------------------------------
  // The methods, loop by loop

  method Iqr(df: DataFrame, name: string) returns (r: Result<real>)
    ensures r == IqrOf(df.data, name)
  {
    var q1 := Q1Value(df, name);
    if q1.Err? {
      return Err(q1.error);
    }
    var q3 := Q3Value(df, name);
    if q3.Err? {
      return Err(q3.error);
    }
    return Ok(q3.value - q1.value);
  }

  lemma {:induction false} ParseAllErrPersists(values: seq<Cell>, k: int)
    requires 0 <= k <= |values| && ParseAll(values[..k]).Err?
    ensures ParseAll(values) == ParseAll(values[..k])
    decreases |values| - k
  {
    if k < |values| {
      assert values[..k + 1][..k] == values[..k];
      ParseAllErrPersists(values, k + 1);
    } else {
      assert values[..k] == values;
    }
  }

  /** The sum loop (which parses every cell) and the squared-deviation loop
      of the small-table branch. */
  method SpreadBounds(values: seq<Cell>, n: nat) returns (r: Result<Bounds>)
    ensures ParseAll(values).Err? ==> r == Err(ParseAll(values).error)
    ensures ParseAll(values).Ok? ==> r == Ok(SpreadOf(ParseAll(values).value, n))
  {
    var sum := 0.0;
    var xs: seq<real> := [];
    var i := 0;
    while i < |values|
      invariant 0 <= i <= |values|
      invariant ParseAll(values[..i]) == Ok(xs) && sum == Sum(xs)
    {
      assert values[..i + 1][..i] == values[..i];
      var x := ParseDouble(values[i]);
      if x.Err? {
        ParseAllErrPersists(values, i + 1);
        return Err(x.error);
      }
      SumAppend(xs, x.value);
      xs := xs + [x.value];
      sum := sum + x.value;
      i := i + 1;
    }
    assert values[..i] == values;
    if n == 0 {
      return Ok(Undefined);
    }
    var mean := sum / (n as real);
    var variance := 0.0;
    var j := 0;
    while j < |xs|
      invariant 0 <= j <= |xs|
      invariant variance == SquaredDeviations(xs[..j], mean)
    {
      assert xs[..j + 1][..j] == xs[..j];
      variance := variance + (xs[j] - mean) * (xs[j] - mean);
      j := j + 1;
    }
    assert xs[..j] == xs;
    return Ok(Spread(mean, variance / (n as real)));
  }

  method ColumnBoundsOf(df: DataFrame, n: nat, name: string) returns (r: Result<Bounds>)
    requires name in df.data
    ensures r == ColumnBounds(df.data, n, name)
  {
    if n < 10 {
      r := SpreadBounds(df.data[name], n);
    } else {
      var iqr := Iqr(df, name);
      if iqr.Err? {
        return Err(iqr.error);
      }
      var q1 := Q1Value(df, name);
      var q3 := Q3Value(df, name);
      r := Ok(Fences(q1.value - 1.5 * iqr.value, q3.value + 1.5 * iqr.value));
    }
  }

  /** The filtering loop: every value parsed, the kept positions collected. */
  method FilterRows(values: seq<Cell>, b: Bounds) returns (r: Result<seq<int>>)
    ensures ParseAll(values).Err? ==> r == Err(ParseAll(values).error)
    ensures ParseAll(values).Ok? ==> r == Ok(KeptRows(ParseAll(values).value, b))
  {
    var validIndices: seq<int> := [];
    ghost var xs: seq<real> := [];
    var i := 0;
    while i < |values|
      invariant 0 <= i <= |values|
      invariant ParseAll(values[..i]) == Ok(xs) && validIndices == KeptRows(xs, b) && |xs| == i
    {
      assert values[..i + 1][..i] == values[..i];
      var val := ParseDouble(values[i]);
      if val.Err? {
        ParseAllErrPersists(values, i + 1);
        return Err(val.error);
      }
      assert (xs + [val.value])[..i] == xs;
      xs := xs + [val.value];
      if Within(b, val.value) {
        validIndices := validIndices + [i];
      }
      i := i + 1;
    }
    assert values[..i] == values;
    return Ok(validIndices);
  }

  lemma FencesOfAbsent(t: Table, name: string)
    requires name !in t
    ensures FencesOf(t, name) == Err(ColumnNotFound)
  {
  }

  method RemoveOutliers(df: DataFrame, name: string) returns (r: Result<DataFrame>)
    ensures Yields(r, RemoveOutliersOf(df.data, df.nRows, name))
    ensures r.Ok? ==> fresh(r.value)
  {
    var n := df.nRows;
    var bounds: Result<Bounds>;
    if name !in df.data {
      if n < 10 {
        return Err(NullPointer);
      }
      var iqr := Iqr(df, name);
      FencesOfAbsent(df.data, name);
      return Err(iqr.error);
    }
    var values := df.data[name];
    bounds := ColumnBoundsOf(df, n, name);
    if bounds.Err? {
      return Err(bounds.error);
    }
    var validIndices := FilterRows(values, bounds.value);
    if validIndices.Err? {
      return Err(validIndices.error);
    }
    var filtered := SelectRowsTable(df.data, validIndices.value);
    if filtered.Err? {
      return Err(filtered.error);
    }
    var result := new DataFrame(filtered.value);
    return Ok(result);
  }

  /** The inner loop over the listed columns for row i, with its break. */
  method RowWithinAll(df: DataFrame, n: nat, names: seq<string>, i: int) returns (r: Result<bool>)
    ensures r == RowCheck(df.data, n, names, i)
  {
    var j := 0;
    while j < |names|
      invariant 0 <= j <= |names|
      invariant RowCheck(df.data, n, names, i) == RowCheck(df.data, n, names[j..], i)
    {
      var c := names[j];
      assert names[j..][0] == c && names[j..][1..] == names[j + 1..];
      if c !in df.data {
        return Err(ColumnNotFound);
      }
      var values := df.data[c];
      var bounds := ColumnBoundsOf(df, n, c);
      if bounds.Err? {
        return Err(bounds.error);
      }
      if !(0 <= i < |values|) {
        return Err(OutOfRange);
      }
      var val := ParseDouble(values[i]);
      if val.Err? {
        return Err(val.error);
      }
      if !Within(bounds.value, val.value) {
        return Ok(false);
      }
      j := j + 1;
    }
    return Ok(true);
  }

  method RemoveOutliersAll(df: DataFrame, names: seq<string>) returns (r: Result<DataFrame>)
    ensures Yields(r, RemoveOutliersAllOf(df.data, df.nRows, names))
    ensures r.Ok? ==> fresh(r.value)
  {
    var n := df.nRows;
    var validIndices: seq<int> := [];
    var i := 0;
    while i < n
      invariant 0 <= i <= n
      invariant KeptRowsAll(df.data, n, names, i) == Ok(validIndices)
    {
      var isValid := RowWithinAll(df, n, names, i);
      if isValid.Err? {
        KeptRowsAllErrPersists(df.data, n, names, i + 1, n);
        return Err(isValid.error);
      }
      if isValid.value {
        validIndices := validIndices + [i];
      }
      i := i + 1;
    }
    var filtered := SelectRowsTable(df.data, validIndices);
    if filtered.Err? {
      return Err(filtered.error);
    }
    var result := new DataFrame(filtered.value);
    return Ok(result);
  }

  lemma {:induction false} KeptRowsAllErrPersists(t: Table, n: nat, names: seq<string>, k: nat, m: nat)
    requires k <= m && KeptRowsAll(t, n, names, k).Err?
    ensures KeptRowsAll(t, n, names, m) == KeptRowsAll(t, n, names, k)
    decreases m - k
  {
    if k < m {
      KeptRowsAllErrPersists(t, n, names, k + 1, m);
    }
  }

  // ---------------------------------------------------------------------
  // Properties

  /** A row is kept exactly when its value lies within the bounds; the kept
      positions are increasing, so rows keep their order, and there are no
      more of them than values. */
  lemma {:induction false} KeptRowsSpec(xs: seq<real>, b: Bounds)
    ensures forall i :: i in KeptRows(xs, b) <==> 0 <= i < |xs| && Within(b, xs[i])
    ensures StrictlyIncreasing(KeptRows(xs, b)) && IndicesIn(KeptRows(xs, b), |xs|)
    ensures |KeptRows(xs, b)| <= |xs|
  {
    if xs != [] {
      var n := |xs| - 1;
      KeptRowsSpec(xs[..n], b);
      assert forall i :: 0 <= i < n ==> xs[..n][i] == xs[i];
    }
  }

  /** The squared form of the small-table test is the source's interval
      mean - std <= v <= mean + std, for std the non-negative square root of
      the variance. */
  lemma SpreadWithinIff(m: real, variance: real, std: real, v: real)
    requires std >= 0.0 && std * std == variance
    ensures Within(Spread(m, variance), v) <==> m - std <= v <= m + std
  {
    var d := v - m;
    if -std <= d <= std {
      SquareBelow(d, std);
    }
    if d > std {
      SquareAbove(d, std);
    }
    if d < -std {
      SquareAbove(-d, std);
      assert (-d) * (-d) == d * d;
    }
  }

  lemma SquareBelow(d: real, s: real)
    requires s >= 0.0 && -s <= d <= s
    ensures d * d <= s * s
  {
    if d >= 0.0 {
      assert d * d <= d * s <= s * s;
    } else {
      assert d * d == (-d) * (-d) <= (-d) * s <= s * s;
    }
  }

  lemma SquareAbove(d: real, s: real)
    requires s >= 0.0 && d > s
    ensures d * d > s * s
  {
    assert d * d - d * s == d * (d - s) > 0.0;
    assert d * s - s * s == s * (d - s) >= 0.0;
  }

  /** IQR is never negative once the column has two numbers to sort. */
  lemma IqrNonNegative(t: Table, name: string)
    requires SortedNumericsOf(t, name).Ok? && |SortedNumericsOf(t, name).value| >= 2
    ensures IqrOf(t, name).Ok? && IqrOf(t, name).value >= 0.0
  {
    SortedNumericsAscending(t, name);
    QuartilesOrdered(SortedNumericsOf(t, name).value);
  }

  /** The single-column variant filters every column in lock-step with the
      kept positions of the named column, and the result has no more rows
      than the column. */
  lemma RemoveOutliersFilters(t: Table, n: nat, name: string)
    requires RemoveOutliersOf(t, n, name).Ok?
    ensures name in t && BoundsOf(t, n, name).Ok? && ParseAll(t[name]).Ok?
    ensures var kept := KeptRows(ParseAll(t[name]).value, BoundsOf(t, n, name).value);
            && RemoveOutliersOf(t, n, name).value.Keys == t.Keys
            && IndicesIn(kept, |t[name]|) && StrictlyIncreasing(kept)
            && (forall c :: c in t ==> IndicesIn(kept, |t[c]|) && RemoveOutliersOf(t, n, name).value[c] == Gather(t[c], kept))
  {
    var xs := ParseAll(t[name]).value;
    ParseAllLength(t[name]);
    KeptRowsSpec(xs, BoundsOf(t, n, name).value);
  }

  lemma {:induction false} ParseAllLength(values: seq<Cell>)
    requires ParseAll(values).Ok?
    ensures |ParseAll(values).value| == |values|
  {
    if values != [] {
      ParseAllLength(values[..|values| - 1]);
    }
  }

  /** Each value parsed is the cell's number. */
  lemma {:induction false} ParseAllValues(values: seq<Cell>)
    ensures ParseAll(values).Ok? <==> forall k :: 0 <= k < |values| ==> IsNumber(values[k])
    ensures ParseAll(values).Ok? ==>
              |ParseAll(values).value| == |values| &&
              forall k :: 0 <= k < |values| ==> ParseAll(values).value[k] == NumberValue(values[k])
  {
    if values != [] {
      var n := |values| - 1;
      assert forall k :: 0 <= k < n ==> values[..n][k] == values[k];
      ParseAllValues(values[..n]);
    }
  }

  /** With every column of the same height, the result is rectangular and
      no taller than the input. */
  lemma RemoveOutliersShrinks(t: Table, n: nat, name: string, rows: nat)
    requires Rectangular(t, rows) && RemoveOutliersOf(t, n, name).Ok?
    ensures exists m: nat :: m <= rows && Rectangular(RemoveOutliersOf(t, n, name).value, m)
  {
    RemoveOutliersFilters(t, n, name);
    var xs := ParseAll(t[name]).value;
    var kept := KeptRows(xs, BoundsOf(t, n, name).value);
    ParseAllLength(t[name]);
    KeptRowsSpec(xs, BoundsOf(t, n, name).value);
    assert Rectangular(RemoveOutliersOf(t, n, name).value, |kept|);
  }

  /** A row passes the multi-column test exactly when it lies within the
      bounds of every listed column; so the order of the list does not
      matter to which rows pass. */
  lemma {:induction false} RowCheckTrueIff(t: Table, n: nat, names: seq<string>, i: int)
    ensures RowCheck(t, n, names, i) == Ok(true) <==> forall k :: 0 <= k < |names| ==> CellWithin(t, n, names[k], i)
    decreases |names|
  {
    if names != [] {
      RowCheckTrueIff(t, n, names[1..], i);
      assert forall k :: 1 <= k < |names| ==> names[1..][k - 1] == names[k];
      if forall k :: 1 <= k < |names| ==> CellWithin(t, n, names[k], i) {
        assert forall k :: 0 <= k < |names[1..]| ==> CellWithin(t, n, names[1..][k], i);
      }
    }
  }

  lemma RowCheckOrderFree(t: Table, n: nat, names: seq<string>, others: seq<string>, i: int)
    requires forall c :: c in names <==> c in others
    ensures RowCheck(t, n, names, i) == Ok(true) <==> RowCheck(t, n, others, i) == Ok(true)
  {
    RowCheckTrueIff(t, n, names, i);
    RowCheckTrueIff(t, n, others, i);
    if forall k :: 0 <= k < |names| ==> CellWithin(t, n, names[k], i) {
      forall k | 0 <= k < |others| ensures CellWithin(t, n, others[k], i) {
        assert others[k] in names;
        var j :| 0 <= j < |names| && names[j] == others[k];
      }
    }
    if forall k :: 0 <= k < |others| ==> CellWithin(t, n, others[k], i) {
      forall k | 0 <= k < |names| ensures CellWithin(t, n, names[k], i) {
        assert names[k] in others;
        var j :| 0 <= j < |others| && others[j] == names[k];
      }
    }
  }

  /** The kept rows of the multi-column variant are those among the first m
      that pass the test, in increasing order. */
  lemma {:induction false} KeptRowsAllSpec(t: Table, n: nat, names: seq<string>, m: nat)
    requires KeptRowsAll(t, n, names, m).Ok?
    ensures forall i :: i in KeptRowsAll(t, n, names, m).value <==> 0 <= i < m && RowCheck(t, n, names, i) == Ok(true)
    ensures StrictlyIncreasing(KeptRowsAll(t, n, names, m).value) && IndicesIn(KeptRowsAll(t, n, names, m).value, m)
    ensures |KeptRowsAll(t, n, names, m).value| <= m
  {
    if m > 0 {
      KeptRowsAllSpec(t, n, names, m - 1);
    }
  }

  /** Over a table of zero rows nothing is examined: no column is looked
      up, so even absent names cause no error, and every column comes back
      empty. */
  lemma RemoveOutliersAllNoRows(t: Table, names: seq<string>)
    ensures RemoveOutliersAllOf(t, 0, names) == Ok(map c | c in t :: [])
  {
    forall c | c in t ensures Gather(t[c], []) == [] {
    }
    assert (map c | c in t :: Gather(t[c], [])) == (map c | c in t :: []);
  }

  /** Once a row is examined, an absent first column throws. */
  lemma RemoveOutliersAllAbsent(t: Table, n: nat, names: seq<string>)
    requires n > 0 && names != [] && names[0] !in t
    ensures RemoveOutliersAllOf(t, n, names) == Err(ColumnNotFound)
  {
    assert RowCheck(t, n, names, 0) == Err(ColumnNotFound);
    assert KeptRowsAll(t, n, names, 1) == Err(ColumnNotFound);
    KeptRowsAllErrPersists(t, n, names, 1, n);
  }
}
