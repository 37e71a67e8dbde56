/** Column statistics: value counts, mean, sort, median, mode, extremes,
    sum, variance and quartiles. Each operation looks the column up by name
    and fails with ColumnNotFound when it is absent; the numeric ones read
    only the Number cells of the column. */
module Stats {
  import opened Seqs
  import opened Sorting
  import opened Cells
  import opened Frames

  // ---------------------------------------------------------------------
  // Specification functions

  /** A LinkedHashMap from values to counts: its keys in insertion order and
      the count stored under each. */
  datatype Frequencies = Frequencies(order: seq<Cell>, counts: map<Cell, nat>)

  function Mean(xs: seq<real>): real
    requires xs != []
  {
    Sum(xs) / (|xs| as real)
  }

  /** Smallest value, 0.0 for no values. */
  function MinOf(xs: seq<real>): real {
    if xs == [] then 0.0
    else if |xs| == 1 then xs[0]
    else
      var m := MinOf(xs[..|xs| - 1]);
      if xs[|xs| - 1] < m then xs[|xs| - 1] else m
  }

  /** Largest value, 0.0 for no values. */
  function MaxOf(xs: seq<real>): real {
    if xs == [] then 0.0
    else if |xs| == 1 then xs[0]
    else
      var m := MaxOf(xs[..|xs| - 1]);
      if xs[|xs| - 1] > m then xs[|xs| - 1] else m
  }

  /** The sum of squared distances of the values from m. */
  function SquaredDeviations(xs: seq<real>, m: real): real {
    if xs == [] then 0.0
    else SquaredDeviations(xs[..|xs| - 1], m) + (xs[|xs| - 1] - m) * (xs[|xs| - 1] - m)
  }

  /** varianceValue as the code computes it: the squared deviations divided
      by n, minus one. */
  function VarianceAsWritten(xs: seq<real>): real {
    if |xs| <= 1 then 0.0 else SquaredDeviations(xs, Mean(xs)) / (|xs| as real) - 1.0
  }

  /** The sample variance, which the guard for n <= 1 points to: the squared
      deviations divided by n - 1. */
  function SampleVariance(xs: seq<real>): real {
    if |xs| <= 1 then 0.0 else SquaredDeviations(xs, Mean(xs)) / ((|xs| - 1) as real)
  }

  ghost predicate Ascending(xs: seq<real>) {
    forall i, j :: 0 <= i < j < |xs| ==> xs[i] <= xs[j]
  }

  /** The value picked by modeColumn: a most frequent value, the earliest in
      first-occurrence order among those; null for an empty column. */
  ghost predicate IsModeOf(col: seq<Cell>, m: Cell) {
    if col == [] then m == Null
    else
      && m in Distinct(col)
      && (forall v :: v in col ==> Count(col, v) <= Count(col, m))
      && (forall q :: 0 <= q < IndexOf(Distinct(col), m) ==> Count(col, Distinct(col)[q]) < Count(col, m))
  }

  /** sortByColumn: the row permutation that stably sorts the named column,
      applied to every column. */
  function SortByColumnOf(t: Table, name: string, ascending: bool): Result<Table> {
    if name !in t then Err(ColumnNotFound)
    else if !MutuallyComparable(t[name]) then Err(Incomparable)
    else SelectRowsOf(t, StableSort(t[name], CellOrder(ascending)))
  }

  /** The Number values of the named column after an ascending sort of the
      table, as median, Q1 and Q3 collect them. */
  function SortedNumericsOf(t: Table, name: string): Result<seq<real>> {
    match SortByColumnOf(t, name, true)
    case Err(e) => Err(e)
    case Ok(s) => Ok(Numerics(Gather(t[name], StableSort(t[name], CellLe))))
  }

  /** The middle value of a list, or the mean of its two middle values;
      `get(-1)` fails on an empty list. */
  function Middle(h: seq<real>): Result<real> {
    if |h| % 2 != 0 then Ok(h[|h| / 2])
    else if |h| == 0 then Err(OutOfRange)
    else Ok((h[|h| / 2 - 1] + h[|h| / 2]) / 2.0)
  }

  function Median(xs: seq<real>): real {
    if xs == [] then 0.0 else Middle(xs).value
  }

  /** Q1: the middle of the lower half xs[..n/2]. */
  function Q1Of(xs: seq<real>): Result<real> {
    if xs == [] then Ok(0.0) else Middle(xs[..|xs| / 2])
  }

  /** Q3: the middle of the upper half, which leaves out the median of an
      odd-sized list. */
  function Q3Of(xs: seq<real>): Result<real> {
    if xs == [] then Ok(0.0)
    else
      var start := if |xs| % 2 == 0 then |xs| / 2 else |xs| / 2 + 1;
      Middle(xs[start..])
  }

  function MedianColumnOf(t: Table, name: string): Result<real> {
    match SortedNumericsOf(t, name)
    case Err(e) => Err(e)
    case Ok(xs) => Ok(Median(xs))
  }

  function Q1ColumnOf(t: Table, name: string): Result<real> {
    match SortedNumericsOf(t, name)
    case Err(e) => Err(e)
    case Ok(xs) => Q1Of(xs)
  }

  function Q3ColumnOf(t: Table, name: string): Result<real> {
    match SortedNumericsOf(t, name)
    case Err(e) => Err(e)
    case Ok(xs) => Q3Of(xs)
  }

  /** sdValue is Math.sqrt(varianceValue): a value sd stands for it when it
      is the non-negative square root of the variance as written. No real
      sd stands for a negative variance, whose square root is NaN. */
  ghost predicate IsSdValue(t: Table, name: string, sd: real) {
    name in t && sd >= 0.0 && sd * sd == VarianceAsWritten(Numerics(t[name]))
  }

  lemma MinOfAppend(xs: seq<real>, x: real)
    ensures MinOf(xs + [x]) == if xs == [] || x < MinOf(xs) then x else MinOf(xs)
  {
    assert (xs + [x])[..|xs|] == xs;
  }

  lemma MaxOfAppend(xs: seq<real>, x: real)
    ensures MaxOf(xs + [x]) == if xs == [] || x > MaxOf(xs) then x else MaxOf(xs)
  {
    assert (xs + [x])[..|xs|] == xs;
  }

  // ---------------------------------------------------------------------
  // Operations

  method ValueCounts(df: DataFrame, name: string) returns (r: Result<Frequencies>)
    ensures name !in df.data ==> r == Err(ColumnNotFound)
    ensures name in df.data ==>
              r.Ok? && r.value.order == Distinct(df.data[name]) &&
              (forall v :: v in r.value.counts <==> v in df.data[name]) &&
              (forall v :: v in r.value.counts ==> r.value.counts[v] == Count(df.data[name], v))
  {
    if name !in df.data {
      return Err(ColumnNotFound);
    }
    var col := df.data[name];
    var order: seq<Cell> := [];
    var counts: map<Cell, nat> := map[];
    var i := 0;
    while i < |col|
      invariant 0 <= i <= |col|
      invariant order == Distinct(col[..i])
      invariant forall v :: v in counts <==> v in col[..i]
      invariant forall v :: v in counts ==> counts[v] == Count(col[..i], v)
    {
      var v := col[i];
      assert col[..i + 1] == col[..i] + [v];
      DistinctSnoc(col[..i], v);
      CountPositive(col[..i], v);
      var seen := if v in counts then counts[v] else 0;
      if v !in counts {
        order := order + [v];
      }
      counts := counts[v := seen + 1];
      i := i + 1;
    }
    assert col[..i] == col;
    return Ok(Frequencies(order, counts));
  }

  method MeanColumn(df: DataFrame, name: string) returns (r: Result<real>)
    ensures name !in df.data ==> r == Err(ColumnNotFound)
    ensures name in df.data && Numerics(df.data[name]) == [] ==> r == Err(NoNumericValues)
    ensures name in df.data && Numerics(df.data[name]) != [] ==> r == Ok(Mean(Numerics(df.data[name])))
  {
    if name !in df.data {
      return Err(ColumnNotFound);
    }
    var col := df.data[name];
    var total := 0.0;
    var count := 0;
    var i := 0;
    while i < |col|
      invariant 0 <= i <= |col|
      invariant total == Sum(Numerics(col[..i])) && count == |Numerics(col[..i])|
    {
      NumericsSnoc(col, i);
      if IsNumber(col[i]) {
        SumAppend(Numerics(col[..i]), NumberValue(col[i]));
        total := total + NumberValue(col[i]);
        count := count + 1;
      }
      i := i + 1;
    }
    assert col[..i] == col;
    if count == 0 {
      return Err(NoNumericValues);
    }
    return Ok(total / (count as real));
  }

  method SortByColumn(df: DataFrame, name: string, ascending: bool) returns (r: Result<DataFrame>)
    ensures Yields(r, SortByColumnOf(df.data, name, ascending))
    ensures r.Ok? ==> fresh(r.value)
  {
    if name !in df.data {
      return Err(ColumnNotFound);
    }
    var col := df.data[name];
    var n := |col|;
    var indices := new int[n];
    var i := 0;
    while i < n
      invariant 0 <= i <= n
      invariant forall k :: 0 <= k < i ==> indices[k] == k
    {
      indices[i] := i;
      i := i + 1;
    }
    assert indices[..] == Range(n);
    if !MutuallyComparable(col) {
      return Err(Incomparable);
    }
    SortIndices(indices, col, CellOrder(ascending));
    var sorted := SelectRowsTable(df.data, indices[..]);
    if sorted.Err? {
      return Err(sorted.error);
    }
    var result := new DataFrame(sorted.value);
    return Ok(result);
  }

  /** Sorts the table by the column and collects the column's Number
      values, the first steps shared by median, Q1 and Q3. */
  method SortedNumericValues(df: DataFrame, name: string) returns (r: Result<seq<real>>)
    ensures r == SortedNumericsOf(df.data, name)
  {
    var sorted := SortByColumn(df, name, true);
    if sorted.Err? {
      return Err(sorted.error);
    }
    var columnValues := sorted.value.data[name];
    var nums: seq<real> := [];
    var i := 0;
    while i < |columnValues|
      invariant 0 <= i <= |columnValues|
      invariant nums == Numerics(columnValues[..i])
    {
      NumericsSnoc(columnValues, i);
      if IsNumber(columnValues[i]) {
        nums := nums + [NumberValue(columnValues[i])];
      }
      i := i + 1;
    }
    assert columnValues[..i] == columnValues;
    return Ok(nums);
  }

  method MedianColumn(df: DataFrame, name: string) returns (r: Result<real>)
    ensures r == MedianColumnOf(df.data, name)
  {
    var sorted := SortedNumericValues(df, name);
    if sorted.Err? {
      return Err(sorted.error);
    }
    var nums := sorted.value;
    var size := |nums|;
    if size == 0 {
      return Ok(0.0);
    }
    if size % 2 != 0 {
      return Ok(nums[size / 2]);
    }
    return Ok((nums[size / 2 - 1] + nums[size / 2]) / 2.0);
  }

  method ModeColumn(df: DataFrame, name: string) returns (r: Result<Cell>)
    ensures name !in df.data ==> r == Err(ColumnNotFound)
    ensures name in df.data ==> r.Ok? && IsModeOf(df.data[name], r.value)
  {
    var freq := ValueCounts(df, name);
    if freq.Err? {
      return Err(freq.error);
    }
    ghost var col := df.data[name];
    var order := freq.value.order;
    var counts := freq.value.counts;
    DistinctProperties(col);
    var modeValue := Null;
    var maxFreq := 0;
    ghost var at := 0;
    var k := 0;
    while k < |order|
      invariant 0 <= k <= |order|
      invariant k == 0 ==> modeValue == Null && maxFreq == 0
      invariant 0 <= at <= k
      invariant k > 0 ==> at < k && modeValue == order[at] && maxFreq == Count(col, modeValue)
      invariant forall q :: 0 <= q < k ==> Count(col, order[q]) <= maxFreq
      invariant forall q :: 0 <= q < at ==> Count(col, order[q]) < maxFreq
    {
      var val := order[k];
      var f := counts[val];
      CountPositive(col, val);
      if f > maxFreq {
        maxFreq := f;
        modeValue := val;
        at := k;
      }
      k := k + 1;
    }
    if col != [] {
      assert order[0] in col;
      assert IndexOf(order, modeValue) == at;
      forall v | v in col ensures Count(col, v) <= Count(col, modeValue) {
        var q :| 0 <= q < |order| && order[q] == v;
      }
    }
    return Ok(modeValue);
  }

  method MinimumValue(df: DataFrame, name: string) returns (r: Result<real>)
    ensures name !in df.data ==> r == Err(ColumnNotFound)
    ensures name in df.data ==> r == Ok(MinOf(Numerics(df.data[name])))
  {
    if name !in df.data {
      return Err(ColumnNotFound);
    }
    var col := df.data[name];
    var minimum: Option<real> := None;
    var i := 0;
    while i < |col|
      invariant 0 <= i <= |col|
      invariant minimum == if Numerics(col[..i]) == [] then None else Some(MinOf(Numerics(col[..i])))
    {
      NumericsSnoc(col, i);
      if IsNumber(col[i]) {
        var num := NumberValue(col[i]);
        MinOfAppend(Numerics(col[..i]), num);
        if minimum == None || num < minimum.value {
          minimum := Some(num);
        }
      }
      i := i + 1;
    }
    assert col[..i] == col;
    if minimum == None {
      return Ok(0.0);
    }
    return Ok(minimum.value);
  }

  method MaximumValue(df: DataFrame, name: string) returns (r: Result<real>)
    ensures name !in df.data ==> r == Err(ColumnNotFound)
    ensures name in df.data ==> r == Ok(MaxOf(Numerics(df.data[name])))
  {
    if name !in df.data {
      return Err(ColumnNotFound);
    }
    var col := df.data[name];
    var maximum: Option<real> := None;
    var i := 0;
    while i < |col|
      invariant 0 <= i <= |col|
      invariant maximum == if Numerics(col[..i]) == [] then None else Some(MaxOf(Numerics(col[..i])))
    {
      NumericsSnoc(col, i);
      if IsNumber(col[i]) {
        var num := NumberValue(col[i]);
        MaxOfAppend(Numerics(col[..i]), num);
        if maximum == None || num > maximum.value {
          maximum := Some(num);
        }
      }
      i := i + 1;
    }
    assert col[..i] == col;
    if maximum == None {
      return Ok(0.0);
    }
    return Ok(maximum.value);
  }

  method SumValue(df: DataFrame, name: string) returns (r: Result<real>)
    ensures name !in df.data ==> r == Err(ColumnNotFound)
    ensures name in df.data ==> r == Ok(Sum(Numerics(df.data[name])))
  {
    if name !in df.data {
      return Err(ColumnNotFound);
    }
    var col := df.data[name];
    var sum := 0.0;
    var i := 0;
    while i < |col|
      invariant 0 <= i <= |col|
      invariant sum == Sum(Numerics(col[..i]))
    {
      NumericsSnoc(col, i);
      if IsNumber(col[i]) {
        SumAppend(Numerics(col[..i]), NumberValue(col[i]));
        sum := sum + NumberValue(col[i]);
      }
      i := i + 1;
    }
    assert col[..i] == col;
    return Ok(sum);
  }

  method VarianceValue(df: DataFrame, name: string) returns (r: Result<real>)
    ensures name !in df.data ==> r == Err(ColumnNotFound)
    ensures name in df.data ==> r == Ok(VarianceAsWritten(Numerics(df.data[name])))
  {
    if name !in df.data {
      return Err(ColumnNotFound);
    }
    var nums := CollectNumbers(df.data[name]);
    var n := |nums|;
    if n <= 1 {
      return Ok(0.0);
    }
    var sum := AddUp(nums);
    var mean := sum / (n as real);
    var squaredSum := AddSquaredDeviations(nums, mean);
    return Ok(squaredSum / (n as real) - 1.0);
  }

  /** varianceValue with the divisor n - 1 it is meant to have. */
  method SampleVarianceValue(df: DataFrame, name: string) returns (r: Result<real>)
    ensures name !in df.data ==> r == Err(ColumnNotFound)
    ensures name in df.data ==> r.Ok? && r.value == SampleVariance(Numerics(df.data[name])) && r.value >= 0.0
  {
    if name !in df.data {
      return Err(ColumnNotFound);
    }
    var nums := CollectNumbers(df.data[name]);
    var n := |nums|;
    SampleVarianceNonNegative(nums);
    if n <= 1 {
      return Ok(0.0);
    }
    var sum := AddUp(nums);
    var mean := sum / (n as real);
    var squaredSum := AddSquaredDeviations(nums, mean);
    return Ok(squaredSum / ((n - 1) as real));
  }

  /** The first loop of varianceValue: the Number values in row order. */
  method CollectNumbers(col: seq<Cell>) returns (nums: seq<real>)
    ensures nums == Numerics(col)
  {
    nums := [];
    var i := 0;
    while i < |col|
      invariant 0 <= i <= |col|
      invariant nums == Numerics(col[..i])
    {
      NumericsSnoc(col, i);
      if IsNumber(col[i]) {
        nums := nums + [NumberValue(col[i])];
      }
      i := i + 1;
    }
    assert col[..i] == col;
  }

  /** The second loop of varianceValue: the sum of the values. */
  method AddUp(nums: seq<real>) returns (sum: real)
    ensures sum == Sum(nums)
  {
    sum := 0.0;
    var i := 0;
    while i < |nums|
      invariant 0 <= i <= |nums|
      invariant sum == Sum(nums[..i])
    {
      SumSnoc(nums, i);
      sum := sum + nums[i];
      i := i + 1;
    }
    assert nums[..i] == nums;
  }

  /** The third loop of varianceValue: the squared deviations from the mean. */
  method AddSquaredDeviations(nums: seq<real>, mean: real) returns (squaredSum: real)
    ensures squaredSum == SquaredDeviations(nums, mean)
  {
    squaredSum := 0.0;
    var i := 0;
    while i < |nums|
      invariant 0 <= i <= |nums|
      invariant squaredSum == SquaredDeviations(nums[..i], mean)
    {
      assert nums[..i + 1][..i] == nums[..i];
      squaredSum := squaredSum + (nums[i] - mean) * (nums[i] - mean);
      i := i + 1;
    }
    assert nums[..i] == nums;
  }

  method Q1Value(df: DataFrame, name: string) returns (r: Result<real>)
    ensures r == Q1ColumnOf(df.data, name)
  {
    var sorted := SortedNumericValues(df, name);
    if sorted.Err? {
      return Err(sorted.error);
    }
    var nums := sorted.value;
    var size := |nums|;
    if size == 0 {
      return Ok(0.0);
    }
    var lowerHalf := nums[..size / 2];
    var halfSize := |lowerHalf|;
    if halfSize % 2 != 0 {
      return Ok(lowerHalf[halfSize / 2]);
    }
    if halfSize == 0 {
      return Err(OutOfRange);
    }
    return Ok((lowerHalf[halfSize / 2 - 1] + lowerHalf[halfSize / 2]) / 2.0);
  }

  method Q3Value(df: DataFrame, name: string) returns (r: Result<real>)
    ensures r == Q3ColumnOf(df.data, name)
  {
    var sorted := SortedNumericValues(df, name);
    if sorted.Err? {
      return Err(sorted.error);
    }
    var nums := sorted.value;
    var size := |nums|;
    if size == 0 {
      return Ok(0.0);
    }
    var startIndex := if size % 2 == 0 then size / 2 else size / 2 + 1;
    var upperHalf := nums[startIndex..];
    var halfSize := |upperHalf|;
    if halfSize % 2 != 0 {
      return Ok(upperHalf[halfSize / 2]);
    }
    if halfSize == 0 {
      return Err(OutOfRange);
    }
    return Ok((upperHalf[halfSize / 2 - 1] + upperHalf[halfSize / 2]) / 2.0);
  }

  // ---------------------------------------------------------------------
  // Properties

  /** Total of the counts of the listed values. */
  function TotalCount<T(==)>(values: seq<T>, s: seq<T>): nat {
    if values == [] then 0 else TotalCount(values[..|values| - 1], s) + Count(s, values[|values| - 1])
  }

  lemma {:induction false} TotalCountSnoc<T>(values: seq<T>, s: seq<T>, x: T)
    requires NoDuplicates(values)
    ensures TotalCount(values, s + [x]) == TotalCount(values, s) + (if x in values then 1 else 0)
  {
    if values != [] {
      var init := values[..|values| - 1];
      var last := values[|values| - 1];
      assert values == init + [last];
      TotalCountSnoc(init, s, x);
      CountAppend(s, [x], last);
      assert x in values <==> x in init || x == last;
      assert x == last ==> x !in init;
    }
  }

  /** The counts valueCounts reports add up to the column's length. */
  lemma {:induction false} CountsSumToLength<T>(s: seq<T>)
    ensures TotalCount(Distinct(s), s) == |s|
  {
    if s != [] {
      var init := s[..|s| - 1];
      var x := s[|s| - 1];
      assert s == init + [x];
      CountsSumToLength(init);
      DistinctProperties(init);
      TotalCountSnoc(Distinct(init), init, x);
      if x !in init {
        var d := Distinct(init) + [x];
        assert d[..|d| - 1] == Distinct(init);
        CountPositive(init, x);
        CountAppend(init, [x], x);
      }
    }
  }

  /** Exactly one value satisfies the mode's definition. */
  lemma ModeUnique(col: seq<Cell>, a: Cell, b: Cell)
    requires IsModeOf(col, a) && IsModeOf(col, b)
    ensures a == b
  {
    if col != [] {
      var d := Distinct(col);
      DistinctProperties(col);
      var ia, ib := IndexOf(d, a), IndexOf(d, b);
      assert Count(col, a) == Count(col, b);
      assert Count(col, a) == Count(col, b);
    }
  }

  lemma {:induction false} MinOfIsLeast(xs: seq<real>)
    requires xs != []
    ensures MinOf(xs) in xs && forall x :: x in xs ==> MinOf(xs) <= x
  {
    if |xs| > 1 {
      var init := xs[..|xs| - 1];
      MinOfIsLeast(init);
      assert xs == init + [xs[|xs| - 1]];
    }
  }

  lemma {:induction false} MaxOfIsGreatest(xs: seq<real>)
    requires xs != []
    ensures MaxOf(xs) in xs && forall x :: x in xs ==> x <= MaxOf(xs)
  {
    if |xs| > 1 {
      var init := xs[..|xs| - 1];
      MaxOfIsGreatest(init);
      assert xs == init + [xs[|xs| - 1]];
    }
  }

  lemma {:induction false} SumBounds(xs: seq<real>, lo: real, hi: real)
    requires forall k :: 0 <= k < |xs| ==> lo <= xs[k] <= hi
    ensures (|xs| as real) * lo <= Sum(xs) <= (|xs| as real) * hi
  {
    if xs != [] {
      SumBounds(xs[..|xs| - 1], lo, hi);
    }
  }

  lemma QuotientBounds(a: real, n: real, lo: real, hi: real)
    requires n > 0.0 && n * lo <= a <= n * hi
    ensures lo <= a / n <= hi
  {
    var q := a / n;
    assert q * n == a;
    assert (q - lo) * n >= 0.0;
    assert (hi - q) * n >= 0.0;
  }

  /** The mean lies within any bounds on the values. */
  lemma MeanWithinBounds(xs: seq<real>, lo: real, hi: real)
    requires xs != [] && forall k :: 0 <= k < |xs| ==> lo <= xs[k] <= hi
    ensures lo <= Mean(xs) <= hi
  {
    SumBounds(xs, lo, hi);
    var n := |xs| as real;
    QuotientBounds(Sum(xs), n, lo, hi);
  }

  /** meanColumn lies between minimumValue and maximumValue. */
  lemma MeanBetweenMinMax(xs: seq<real>)
    requires xs != []
    ensures MinOf(xs) <= Mean(xs) <= MaxOf(xs)
  {
    MinOfIsLeast(xs);
    MaxOfIsGreatest(xs);
    assert forall k :: 0 <= k < |xs| ==> xs[k] in xs;
    MeanWithinBounds(xs, MinOf(xs), MaxOf(xs));
  }

  lemma SquareNonNegative(d: real)
    ensures d * d >= 0.0
  {
    if d < 0.0 {
      assert d * d == (-d) * (-d);
    }
  }

  lemma {:induction false} SquaredDeviationsNonNegative(xs: seq<real>, m: real)
    ensures SquaredDeviations(xs, m) >= 0.0
  {
    if xs != [] {
      SquaredDeviationsNonNegative(xs[..|xs| - 1], m);
      SquareNonNegative(xs[|xs| - 1] - m);
    }
  }

  /** The value varianceValue returns is never below -1. */
  lemma VarianceAsWrittenAtLeastMinusOne(xs: seq<real>)
    ensures VarianceAsWritten(xs) >= -1.0
  {
    SquaredDeviationsNonNegative(xs, if xs == [] then 0.0 else Mean(xs));
  }

  /** As written, two equal values have variance -1 (and sdValue then takes
      the square root of a negative number). */
  lemma VarianceAsWrittenNegative()
    ensures VarianceAsWritten([1.0, 1.0]) == -1.0
  {
    assert Sum([1.0, 1.0]) == 2.0 by {
      assert [1.0, 1.0][..1] == [1.0];
    }
    assert SquaredDeviations([1.0, 1.0], 1.0) == 0.0 by {
      assert [1.0, 1.0][..1] == [1.0];
    }
  }

  /** The sample variance is never negative, and is 0 for two equal values. */
  lemma SampleVarianceNonNegative(xs: seq<real>)
    ensures SampleVariance(xs) >= 0.0
    ensures SampleVariance([1.0, 1.0]) == 0.0
  {
    SquaredDeviationsNonNegative(xs, if xs == [] then 0.0 else Mean(xs));
    assert Sum([1.0, 1.0]) == 2.0 by {
      assert [1.0, 1.0][..1] == [1.0];
    }
    assert SquaredDeviations([1.0, 1.0], 1.0) == 0.0 by {
      assert [1.0, 1.0][..1] == [1.0];
    }
  }

  /** What sortByColumn returns: the key column ordered by the comparator,
      every column rearranged by the same stable permutation of the rows,
      and the key column's values kept (a permutation of them). */
  lemma SortByColumnSorted(t: Table, name: string, ascending: bool)
    requires SortByColumnOf(t, name, ascending).Ok?
    ensures var s := SortByColumnOf(t, name, ascending).value;
            var p := StableSort(t[name], CellOrder(ascending));
            && IsStableSort(t[name], CellOrder(ascending), p)
            && s.Keys == t.Keys
            && (forall c :: c in t ==> IndicesIn(p, |t[c]|) && s[c] == Gather(t[c], p))
            && (forall i, j :: 0 <= i < j < |s[name]| ==> CellOrder(ascending)(s[name][i], s[name][j]))
            && multiset(s[name]) == multiset(t[name])
  {
    var s := SortByColumnOf(t, name, ascending).value;
    var col := t[name];
    var p := StableSort(col, CellOrder(ascending));
    CellOrderTotal(ascending);
    StableSortCorrect(col, CellOrder(ascending));
    GatherPermutation(col, p);
    forall i, j | 0 <= i < j < |s[name]| ensures CellOrder(ascending)(s[name][i], s[name][j]) {
      assert Precedes(col, CellOrder(ascending), p[i], p[j]);
    }
  }

  /** All cells of the column are of one kind. */
  ghost predicate OneKind(col: seq<Cell>) {
    forall i, j :: 0 <= i < |col| && 0 <= j < |col| ==> KindRank(col[i]) == KindRank(col[j])
  }

  /** The numbers of a column of one kind sorted by compareTo are ascending. */
  lemma {:induction false} NumericsAscending(col: seq<Cell>)
    requires OneKind(col)
    requires forall i, j :: 0 <= i < j < |col| ==> CellLe(col[i], col[j])
    ensures Ascending(Numerics(col))
  {
    if col != [] {
      var init := col[..|col| - 1];
      var last := col[|col| - 1];
      NumericsAscending(init);
      if IsNumber(last) {
        forall x | x in Numerics(init) ensures x <= NumberValue(last) {
          NumericsFromCells(init, x);
          var i :| 0 <= i < |init| && IsNumber(init[i]) && NumberValue(init[i]) == x;
          assert col[i] == init[i];
          assert CellLe(col[i], last) && KindRank(col[i]) == KindRank(last);
        }
        NumericsSnoc(col, |col| - 1);
        assert col[..|col| - 1] == init;
        var h := Numerics(init);
        forall a, b | 0 <= a < b < |h| + 1 ensures (h + [NumberValue(last)])[a] <= (h + [NumberValue(last)])[b] {
          if b == |h| {
            assert h[a] in h;
          }
        }
      } else {
        NumericsSnoc(col, |col| - 1);
        assert col[..|col| - 1] == init;
      }
    }
  }

  /** median, Q1 and Q3 read an ascending list of numbers. */
  lemma SortedNumericsAscending(t: Table, name: string)
    requires SortedNumericsOf(t, name).Ok?
    ensures Ascending(SortedNumericsOf(t, name).value)
  {
    var col := t[name];
    var g := Gather(col, StableSort(col, CellLe));
    AscendingSortedColumn(t, name);
    PermutedOneKind(col, g);
    NumericsAscending(g);
  }

  /** The ascending sort that median, Q1 and Q3 perform orders the column
      by compareTo and keeps its cells. */
  lemma AscendingSortedColumn(t: Table, name: string)
    requires SortByColumnOf(t, name, true).Ok?
    ensures var g := Gather(t[name], StableSort(t[name], CellLe));
            && MutuallyComparable(t[name])
            && multiset(g) == multiset(t[name])
            && forall i, j :: 0 <= i < j < |g| ==> CellLe(g[i], g[j])
  {
    SortByColumnSorted(t, name, true);
    assert CellOrder(true) == CellLe;
  }

  /** A rearrangement of a column that compareTo accepts is of one kind. */
  lemma PermutedOneKind(col: seq<Cell>, g: seq<Cell>)
    requires MutuallyComparable(col) && multiset(g) == multiset(col)
    ensures OneKind(g)
  {
    if |col| >= 2 {
      forall i | 0 <= i < |g| ensures KindRank(g[i]) == KindRank(col[0]) {
        assert g[i] in multiset(col);
      }
    } else {
      assert |g| == |multiset(g)| == |multiset(col)| == |col|;
    }
  }

  /** The middle of an ascending non-empty list lies between its ends. */
  lemma MiddleWithin(h: seq<real>)
    requires h != [] && Ascending(h)
    ensures Middle(h).Ok? && h[0] <= Middle(h).value <= h[|h| - 1]
  {
  }

  /** Q1 <= median <= Q3 on an ascending list with at least two numbers;
      with exactly one number both quartiles fail (an empty half). */
  lemma QuartilesOrdered(xs: seq<real>)
    requires Ascending(xs) && |xs| >= 2
    ensures Q1Of(xs).Ok? && Q3Of(xs).Ok?
    ensures Q1Of(xs).value <= Median(xs) <= Q3Of(xs).value
  {
    var n := |xs|;
    var lower := xs[..n / 2];
    var start := if n % 2 == 0 then n / 2 else n / 2 + 1;
    var upper := xs[start..];
    MiddleWithin(lower);
    MiddleWithin(upper);
    assert lower[|lower| - 1] == xs[n / 2 - 1];
    assert upper[0] == xs[start];
  }

  lemma QuartilesOfOneNumber(x: real)
    ensures Q1Of([x]) == Err(OutOfRange) && Q3Of([x]) == Err(OutOfRange) && Median([x]) == x
  {
  }
}
