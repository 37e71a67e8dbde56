/** The column-oriented table: a map from column names to lists of cells,
    with the row and column counts recorded when the table is built.

    The backing map is a HashMap, whose iteration order the model leaves
    open: wherever the code takes "the first column" or walks the key set,
    the model picks some key with `:|`, and the contracts hold for every
    choice. */
module Frames {
  import opened Seqs
  import opened Cells

  type Table = map<string, seq<Cell>>

  /** Every column of t holds exactly n cells. */
  ghost predicate Rectangular(t: Table, n: nat) {
    forall c :: c in t ==> |t[c]| == n
  }

  /** The row count the constructor records for t: the length of whichever
      column the map yields first, 0 for an empty map. */
  ghost predicate RowsOfSomeColumn(t: Table, rows: nat) {
    if t == map[] then rows == 0 else exists c :: c in t && rows == |t[c]|
  }

  /** headers lists each column name of t exactly once: a key-set order. */
  ghost predicate KeyOrder(headers: seq<string>, t: Table) {
    NoDuplicates(headers) && forall h :: h in headers <==> h in t
  }

  /** The first five rows of each column (fewer when the column is shorter). */
  function HeadOf(t: Table): Table {
    map c | c in t :: t[c][..Min(5, |t[c]|)]
  }

  /** The last five rows of each column (all of a shorter column). */
  function TailOf(t: Table): Table {
    map c | c in t :: t[c][Max(|t[c]| - 5, 0)..]
  }

  /** The named columns, or an error if any of them is absent. */
  function ColumnsOf(t: Table, names: seq<string>): Result<Table> {
    if forall k :: 0 <= k < |names| ==> names[k] in t then Ok(map c | c in t && c in names :: t[c])
    else Err(ColumnNotFound)
  }

  /** The rows at the given positions, in that order, of every column; an
      error if some position lies outside some column. */
  function SelectRowsOf(t: Table, indices: seq<int>): Result<Table> {
    if forall c :: c in t ==> IndicesIn(indices, |t[c]|) then Ok(map c | c in t :: Gather(t[c], indices))
    else Err(OutOfRange)
  }

  /** The rows of u appended below those of t, column by column. */
  function MergeRowsOf(t: Table, u: Table): Result<Table> {
    if t.Keys == u.Keys then Ok(map c | c in t :: t[c] + u[c]) else Err(ColumnsMismatch)
  }

  /** Cell (i, j) of the matrix of t is defined for every row below `rows`
      and column below `cols`, the columns taken in the order `headers`. */
  ghost predicate MatrixDefined(t: Table, headers: seq<string>, rows: nat, cols: nat) {
    forall i, j :: 0 <= i < rows && 0 <= j < cols ==> EntryDefined(t, headers, i, j)
  }

  /** Row i of the column named headers[j] exists and reads as a double. */
  ghost predicate EntryDefined(t: Table, headers: seq<string>, i: int, j: int) {
    0 <= j < |headers| && headers[j] in t && 0 <= i < |t[headers[j]]| && CellAsDouble(t[headers[j]][i]).Ok?
  }

  /** Row i of the column exists and reads as a double. */
  predicate Readable(col: seq<Cell>, i: int) {
    0 <= i < |col| && CellAsDouble(col[i]).Ok?
  }

  ghost function Entry(t: Table, headers: seq<string>, i: int, j: int): real
    requires EntryDefined(t, headers, i, j)
  {
    CellAsDouble(t[headers[j]][i]).value
  }

  /** Positions n-m .. n-1, the last m rows of an n-row table. */
  function LastRows(n: nat, m: nat): seq<int>
    requires m <= n
  {
    seq(m, k => n - m + k)
  }

  class DataFrame {
    var data: Table
    var nRows: nat
    var nCols: nat

    /** The state `new DataFrame(t)` leaves: a copy of t, its number of
        columns and the height of one of its columns. */
    ghost predicate Holds(t: Table)
      reads this
    {
      data == t && nCols == |t| && RowsOfSomeColumn(t, nRows)
    }

    constructor Empty()
      ensures data == map[] && nRows == 0 && nCols == 0
    {
      data := map[];
      nRows := 0;
      nCols := 0;
    }

    constructor (input: Table)
      ensures Holds(input)
    {
      data := input;
      nCols := |input|;
      if input == map[] {
        nRows := 0;
      } else {
        var c :| c in input;
        nRows := |input[c]|;
      }
    }

    method Head() returns (r: DataFrame)
      ensures fresh(r) && r.Holds(HeadOf(data))
    {
      var d := data;
      var headData: Table := map[];
      var rest := d.Keys;
      while rest != {}
        invariant rest <= d.Keys
        invariant headData.Keys == d.Keys - rest
        invariant forall c :: c in headData ==> headData[c] == d[c][..Min(5, |d[c]|)]
        decreases rest
      {
        var col :| col in rest;
        var colVals := d[col];
        headData := headData[col := colVals[..Min(5, |colVals|)]];
        rest := rest - {col};
      }
      assert headData == HeadOf(d);
      r := new DataFrame(headData);
    }

    method Tail() returns (r: DataFrame)
      ensures fresh(r) && r.Holds(TailOf(data))
    {
      var d := data;
      var tailData: Table := map[];
      var rest := d.Keys;
      while rest != {}
        invariant rest <= d.Keys
        invariant tailData.Keys == d.Keys - rest
        invariant forall c :: c in tailData ==> tailData[c] == d[c][Max(|d[c]| - 5, 0)..]
        decreases rest
      {
        var col :| col in rest;
        var colVals := d[col];
        var start := Max(|colVals| - 5, 0);
        tailData := tailData[col := colVals[start..]];
        rest := rest - {col};
      }
      assert tailData == TailOf(d);
      r := new DataFrame(tailData);
    }

    method GetColumn(name: string) returns (r: Result<DataFrame>)
      ensures name !in data ==> r == Err(ColumnNotFound)
      ensures name in data ==> r.Ok? && fresh(r.value) && r.value.Holds(map[name := data[name]])
    {
      if name !in data {
        return Err(ColumnNotFound);
      }
      var single := new DataFrame(map[name := data[name]]);
      return Ok(single);
    }

    /** The list form of getColumn: checks every name before copying any. */
    method GetColumns(names: seq<string>) returns (r: Result<DataFrame>)
      ensures ColumnsOf(data, names).Err? ==> r == Err(ColumnNotFound)
      ensures ColumnsOf(data, names).Ok? ==> r.Ok? && fresh(r.value) && r.value.Holds(ColumnsOf(data, names).value)
    {
      var k := 0;
      while k < |names|
        invariant 0 <= k <= |names|
        invariant forall m :: 0 <= m < k ==> names[m] in data
      {
        if names[k] !in data {
          return Err(ColumnNotFound);
        }
        k := k + 1;
      }
      var listColumns: Table := map[];
      k := 0;
      while k < |names|
        invariant 0 <= k <= |names|
        invariant listColumns == map c | c in data && c in names[..k] :: data[c]
      {
        assert names[..k + 1] == names[..k] + [names[k]];
        listColumns := listColumns[names[k] := data[names[k]]];
        k := k + 1;
      }
      assert names[..k] == names;
      var df := new DataFrame(listColumns);
      return Ok(df);
    }

    /** Puts the column into this table's map and returns a new table built
        from it; this table's counts are left as they were. */
    method WithColumn(name: string, values: seq<Cell>) returns (r: DataFrame)
      modifies this`data
      ensures data == old(data)[name := values]
      ensures fresh(r) && r.Holds(data)
    {
      data := data[name := values];
      r := new DataFrame(data);
    }

    /** Removes the column from this table's map without updating the counts. */
    method InPlaceRemoveColumn(name: string) returns (o: Outcome)
      modifies this`data
      ensures name in old(data) ==> o == Pass && data == old(data) - {name}
      ensures name !in old(data) ==> o == Fail(ColumnNotFound) && data == old(data)
    {
      if name !in data {
        return Fail(ColumnNotFound);
      }
      data := data - {name};
      return Pass;
    }

    method DropColumn(name: string) returns (r: Result<DataFrame>)
      ensures name !in data ==> r == Err(ColumnNotFound)
      ensures name in data ==> r.Ok? && fresh(r.value) && r.value.Holds(data - {name})
    {
      if name !in data {
        return Err(ColumnNotFound);
      }
      var df := new DataFrame(data - {name});
      return Ok(df);
    }

    /** Builds a copy first and edits the copy's map afterwards, so the copy
        keeps the counts of this table. */
    method WithColumnReplaced(oldName: string, newName: string, values: seq<Cell>) returns (r: Result<DataFrame>)
      ensures oldName !in data ==> r == Err(ColumnNotFound)
      ensures oldName in data ==>
                r.Ok? && fresh(r.value) && r.value.data == (data - {oldName})[newName := values] &&
                r.value.nCols == |data| && RowsOfSomeColumn(data, r.value.nRows)
    {
      if oldName !in data {
        return Err(ColumnNotFound);
      }
      var df := new DataFrame(data);
      df.data := df.data - {oldName};
      df.data := df.data[newName := values];
      return Ok(df);
    }

    /** Joins the columns of two tables side by side. The heights compared
        are those of the first column each map yields. */
    method MergeDataFrameColumns(other: DataFrame) returns (r: Result<DataFrame>)
      ensures data == map[] || other.data == map[] ==> r == Err(NoColumns)
      ensures r.Ok? ==> fresh(r.value) && r.value.Holds(data + other.data) && data.Keys !! other.data.Keys
      ensures r.Ok? || r == Err(DuplicateColumn) ==>
                (exists c, d :: c in data && d in other.data && |data[c]| == |other.data[d]|)
      ensures r == Err(RowCountMismatch) ==>
                (exists c, d :: c in data && d in other.data && |data[c]| != |other.data[d]|)
      ensures r == Err(DuplicateColumn) ==> !(data.Keys !! other.data.Keys)
      ensures data != map[] && other.data != map[] ==>
                (r.Ok? || r == Err(RowCountMismatch) || r == Err(DuplicateColumn))
    {
      if data == map[] || other.data == map[] {
        return Err(NoColumns);
      }
      var c :| c in data;
      var d :| d in other.data;
      if |data[c]| != |other.data[d]| {
        return Err(RowCountMismatch);
      }
      var merged := data;
      var rest := other.data.Keys;
      while rest != {}
        invariant rest <= other.data.Keys
        invariant data.Keys !! (other.data.Keys - rest)
        invariant merged == data + map k | k in other.data && k !in rest :: other.data[k]
        decreases rest
      {
        var k :| k in rest;
        if k in merged {
          return Err(DuplicateColumn);
        }
        merged := merged[k := other.data[k]];
        rest := rest - {k};
      }
      assert merged == data + other.data;
      var df := new DataFrame(merged);
      return Ok(df);
    }

    method MergeDataFrameRows(other: DataFrame) returns (r: Result<DataFrame>)
      ensures MergeRowsOf(data, other.data).Err? ==> r == Err(ColumnsMismatch)
      ensures MergeRowsOf(data, other.data).Ok? ==> r.Ok? && fresh(r.value) && r.value.Holds(MergeRowsOf(data, other.data).value)
    {
      if data.Keys != other.data.Keys {
        return Err(ColumnsMismatch);
      }
      var merged: Table := map[];
      var rest := data.Keys;
      while rest != {}
        invariant rest <= data.Keys
        invariant merged == map c | c in data && c !in rest :: data[c] + other.data[c]
        decreases rest
      {
        var col :| col in rest;
        merged := merged[col := data[col] + other.data[col]];
        rest := rest - {col};
      }
      var df := new DataFrame(merged);
      return Ok(df);
    }

    /** Lists the column names in some key-set order. */
    method Headers() returns (headers: seq<string>)
      ensures KeyOrder(headers, data)
    {
      headers := [];
      var rest := data.Keys;
      while rest != {}
        invariant rest <= data.Keys
        invariant NoDuplicates(headers)
        invariant forall h :: h in headers <==> h in data && h !in rest
        decreases rest
      {
        var h :| h in rest;
        headers := headers + [h];
        rest := rest - {h};
      }
    }

    /** The table as an nRows x nCols matrix, columns in key-set order and
        null read as 0.0; an error when a column is missing, too short, or
        holds a non-numeric cell within that rectangle. */
    method To2DArray() returns (r: Result<array2<real>>, ghost headers: seq<string>)
      ensures KeyOrder(headers, data)
      ensures r.Ok? <==> MatrixDefined(data, headers, nRows, nCols)
      ensures r.Ok? ==> fresh(r.value) && r.value.Length0 == nRows && r.value.Length1 == nCols
      ensures r.Ok? ==> forall i, j :: 0 <= i < nRows && 0 <= j < nCols ==>
                          EntryDefined(data, headers, i, j) && r.value[i, j] == Entry(data, headers, i, j)
    {
      var hs := Headers();
      headers := hs;
      var arr := new real[nRows, nCols];
      var i := 0;
      while i < nRows
        invariant 0 <= i <= nRows
        invariant MatrixDefined(data, hs, i, nCols)
        invariant forall i', j :: 0 <= i' < i && 0 <= j < nCols ==> EntryDefined(data, hs, i', j) && arr[i', j] == Entry(data, hs, i', j)
      {
        var j := 0;
        while j < nCols
          invariant 0 <= j <= nCols
          invariant MatrixDefined(data, hs, i, nCols)
          invariant forall i', j' :: 0 <= i' < i && 0 <= j' < nCols ==> EntryDefined(data, hs, i', j') && arr[i', j'] == Entry(data, hs, i', j')
          invariant forall j' :: 0 <= j' < j ==> EntryDefined(data, hs, i, j') && arr[i, j'] == Entry(data, hs, i, j')
        {
          if j >= |hs| {
            assert !EntryDefined(data, hs, i, j);
            return Err(OutOfRange), headers;
          }
          var values := data[hs[j]];
          if i >= |values| {
            assert !EntryDefined(data, hs, i, j);
            return Err(OutOfRange), headers;
          }
          var v := CellAsDouble(values[i]);
          if v.Err? {
            assert !EntryDefined(data, hs, i, j);
            return Err(v.error), headers;
          }
          arr[i, j] := v.value;
          j := j + 1;
        }
        i := i + 1;
      }
      return Ok(arr), headers;
    }

    /** The only column as a vector of nRows values, null read as 0.0. */
    method To1DArray() returns (r: Result<array<real>>, ghost column: string)
      ensures nCols != 1 ==> r == Err(NotOneColumn)
      ensures nCols == 1 && data == map[] ==> r == Err(NoColumns)
      ensures nCols == 1 && data != map[] ==>
                column in data && (r.Ok? <==> forall i :: 0 <= i < nRows ==> Readable(data[column], i))
      ensures r.Ok? ==>
                fresh(r.value) && r.value.Length == nRows && column in data &&
                forall i :: 0 <= i < nRows ==> Readable(data[column], i) && r.value[i] == CellAsDouble(data[column][i]).value
    {
      column := "";
      if nCols != 1 {
        return Err(NotOneColumn), column;
      }
      var arr := new real[nRows];
      if data == map[] {
        return Err(NoColumns), column;
      }
      var colName :| colName in data;
      column := colName;
      var values := data[colName];
      var i := 0;
      while i < nRows
        invariant 0 <= i <= nRows
        invariant forall i' :: 0 <= i' < i ==> Readable(values, i') && arr[i'] == CellAsDouble(values[i']).value
      {
        if i >= |values| {
          assert !Readable(values, i);
          return Err(OutOfRange), column;
        }
        var v := CellAsDouble(values[i]);
        if v.Err? {
          assert !Readable(values, i);
          return Err(v.error), column;
        }
        arr[i] := v.value;
        i := i + 1;
      }
      return Ok(arr), column;
    }

    method SelectRows(indices: seq<int>) returns (r: Result<DataFrame>)
      ensures SelectRowsOf(data, indices).Err? ==> r == Err(OutOfRange)
      ensures SelectRowsOf(data, indices).Ok? ==> r.Ok? && fresh(r.value) && r.value.Holds(SelectRowsOf(data, indices).value)
    {
      var selected := SelectRowsTable(data, indices);
      if selected.Err? {
        return Err(selected.error);
      }
      var df := new DataFrame(selected.value);
      return Ok(df);
    }
  }

  /** What a method returning a new table yields, against the table (or
      error) its specification gives. */
  ghost predicate Yields(r: Result<DataFrame>, spec: Result<Table>)
    reads if r.Ok? then {r.value} else {}
  {
    match spec
    case Err(e) => r == Err(e)
    case Ok(t) => r.Ok? && r.value.Holds(t)
  }

  /** One column gathered at the given positions, or an error at the first
      position outside it. */
  method GatherColumn(column: seq<Cell>, indices: seq<int>) returns (r: Result<seq<Cell>>)
    ensures IndicesIn(indices, |column|) ==> r == Ok(Gather(column, indices))
    ensures !IndicesIn(indices, |column|) ==> r == Err(OutOfRange)
  {
    var newCol: seq<Cell> := [];
    var k := 0;
    while k < |indices|
      invariant 0 <= k <= |indices|
      invariant IndicesIn(indices[..k], |column|)
      invariant newCol == Gather(column, indices[..k])
    {
      if !(0 <= indices[k] < |column|) {
        return Err(OutOfRange);
      }
      newCol := newCol + [column[indices[k]]];
      k := k + 1;
    }
    assert indices[..k] == indices;
    return Ok(newCol);
  }

  /** Gathers every column of t, walking the key set. */
  method SelectRowsTable(t: Table, indices: seq<int>) returns (r: Result<Table>)
    ensures r == SelectRowsOf(t, indices)
  {
    var selected: Table := map[];
    var rest := t.Keys;
    while rest != {}
      invariant rest <= t.Keys
      invariant forall c :: c in t && c !in rest ==> IndicesIn(indices, |t[c]|)
      invariant selected == map c | c in t && c !in rest :: Gather(t[c], indices)
      decreases rest
    {
      var c :| c in rest;
      var newCol := GatherColumn(t[c], indices);
      if newCol.Err? {
        assert c in t && !IndicesIn(indices, |t[c]|);
        assert SelectRowsOf(t, indices) == Err(OutOfRange);
        return Err(OutOfRange);
      }
      selected := selected[c := newCol.value];
      rest := rest - {c};
    }
    assert selected == map c | c in t :: Gather(t[c], indices);
    return Ok(selected);
  }

  // ---------------------------------------------------------------------
  // Properties of the table operations

  /** Selecting every row in order gives the table back. */
  lemma SelectAllRows(t: Table, n: nat)
    requires Rectangular(t, n)
    ensures SelectRowsOf(t, Range(n)) == Ok(t)
  {
    forall c | c in t ensures Gather(t[c], Range(n)) == t[c] {
      GatherAll(t[c]);
    }
    assert (map c | c in t :: Gather(t[c], Range(n))) == t;
  }

  /** Selecting from a selection is one selection by the composed positions. */
  lemma SelectTwice(t: Table, a: seq<int>, b: seq<int>)
    requires SelectRowsOf(t, a).Ok? && IndicesIn(b, |a|)
    ensures SelectRowsOf(SelectRowsOf(t, a).value, b) == SelectRowsOf(t, Gather(a, b))
  {
    var u := SelectRowsOf(t, a).value;
    forall c | c in t ensures IndicesIn(Gather(a, b), |t[c]|) && Gather(u[c], b) == Gather(t[c], Gather(a, b)) {
      GatherGather(t[c], a, b);
    }
    assert (map c | c in u :: Gather(u[c], b)) == (map c | c in t :: Gather(t[c], Gather(a, b)));
  }

  /** head() is the selection of the first min(5, n) rows. */
  lemma HeadSelectsFirstRows(t: Table, n: nat)
    requires Rectangular(t, n)
    ensures SelectRowsOf(t, Range(Min(5, n))) == Ok(HeadOf(t))
  {
    var m := Min(5, n);
    forall c | c in t ensures Gather(t[c], Range(m)) == t[c][..m] {
    }
    assert (map c | c in t :: Gather(t[c], Range(m))) == HeadOf(t);
  }

  /** tail() is the selection of the last min(5, n) rows. */
  lemma TailSelectsLastRows(t: Table, n: nat)
    requires Rectangular(t, n)
    ensures SelectRowsOf(t, LastRows(n, Min(5, n))) == Ok(TailOf(t))
  {
    var m := Min(5, n);
    forall c | c in t ensures Gather(t[c], LastRows(n, m)) == t[c][Max(|t[c]| - 5, 0)..] {
    }
    assert (map c | c in t :: Gather(t[c], LastRows(n, m))) == TailOf(t);
  }

  /** Appending rows and then selecting the first n rows (or the rest)
      recovers each of the two tables. */
  lemma MergeRowsThenSplit(t: Table, u: Table, n: nat, m: nat)
    requires Rectangular(t, n) && Rectangular(u, m) && t.Keys == u.Keys
    ensures MergeRowsOf(t, u).Ok? && Rectangular(MergeRowsOf(t, u).value, n + m)
    ensures SelectRowsOf(MergeRowsOf(t, u).value, Range(n)) == Ok(t)
    ensures SelectRowsOf(MergeRowsOf(t, u).value, LastRows(n + m, m)) == Ok(u)
  {
    var merged := MergeRowsOf(t, u).value;
    forall c | c in t ensures Gather(merged[c], Range(n)) == t[c] && Gather(merged[c], LastRows(n + m, m)) == u[c] {
      assert merged[c] == t[c] + u[c];
    }
    assert (map c | c in merged :: Gather(merged[c], Range(n))) == t;
    assert (map c | c in merged :: Gather(merged[c], LastRows(n + m, m))) == u;
  }
}
