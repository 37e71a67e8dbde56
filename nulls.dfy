/** Null handling: dropping the rows that hold a null in any listed column,
    and replacing the nulls of one column by a given value. */
module Nulls {
  import opened Seqs
  import opened Cells
  import opened Frames

  /** Row i holds no null in the listed columns, checked in list order with
      a break at the first null; `data.get(col)` of an absent column is
      null and dereferencing it throws, and a short column throws on
      `get(i)`. */
  function NullCheck(t: Table, names: seq<string>, i: int): Result<bool>
    decreases |names|
  {
    if names == [] then Ok(true)
    else
      var c := names[0];
      if c !in t then Err(NullPointer)
      else if !(0 <= i < |t[c]|) then Err(OutOfRange)
      else if t[c][i].Null? then Ok(false)
      else NullCheck(t, names[1..], i)
  }

  /** The rows among the first m that pass the null test. */
  function NonNullRows(t: Table, names: seq<string>, m: nat): Result<seq<int>> {
    if m == 0 then Ok([])
    else
      match NonNullRows(t, names, m - 1)
      case Err(e) => Err(e)
      case Ok(kept) =>
        match NullCheck(t, names, m - 1)
        case Err(e) => Err(e)
        case Ok(valid) => Ok(if valid then kept + [m - 1] else kept)
  }

  /** dropRowsWithNulls over a table whose recorded row count is n. */
  function DropRowsWithNullsOf(t: Table, n: nat, names: seq<string>): Result<Table> {
    match NonNullRows(t, names, n)
    case Err(e) => Err(e)
    case Ok(kept) => SelectRowsOf(t, kept)
  }

  /** Each null of the column replaced by the value. */
  function FillNulls(col: seq<Cell>, value: Cell): seq<Cell> {
    seq(|col|, k requires 0 <= k < |col| => if col[k].Null? then value else col[k])
  }

  /** ReplaceNullsWithValue: iterating over an absent column throws. */
  function ReplaceNullsOf(t: Table, name: string, value: Cell): Result<Table> {
    if name !in t then Err(NullPointer) else Ok(t[name := FillNulls(t[name], value)])
  }

  // ---------------------------------------------------------------------
  // The methods

  /** The inner loop over the listed columns for row i. */
  method RowHasNoNulls(df: DataFrame, names: seq<string>, i: int) returns (r: Result<bool>)
    ensures r == NullCheck(df.data, names, i)
  {
    var j := 0;
    while j < |names|
      invariant 0 <= j <= |names|
      invariant NullCheck(df.data, names, i) == NullCheck(df.data, names[j..], i)
    {
      var col := names[j];
      assert names[j..][0] == col && names[j..][1..] == names[j + 1..];
      if col !in df.data {
        return Err(NullPointer);
      }
      var values := df.data[col];
      if !(0 <= i < |values|) {
        return Err(OutOfRange);
      }
      if values[i].Null? {
        return Ok(false);
      }
      j := j + 1;
    }
    return Ok(true);
  }

  lemma {:induction false} NonNullRowsErrPersists(t: Table, names: seq<string>, k: nat, m: nat)
    requires k <= m && NonNullRows(t, names, k).Err?
    ensures NonNullRows(t, names, m) == NonNullRows(t, names, k)
    decreases m - k
  {
    if k < m {
      NonNullRowsErrPersists(t, names, k + 1, m);
    }
  }

  method DropRowsWithNulls(df: DataFrame, names: seq<string>) returns (r: Result<DataFrame>)
    ensures Yields(r, DropRowsWithNullsOf(df.data, df.nRows, names))
    ensures r.Ok? ==> fresh(r.value)
  {
    var n := df.nRows;
    var validIndices: seq<int> := [];
    var i := 0;
    while i < n
      invariant 0 <= i <= n
      invariant NonNullRows(df.data, names, i) == Ok(validIndices)
    {
      var isValid := RowHasNoNulls(df, names, i);
      if isValid.Err? {
        NonNullRowsErrPersists(df.data, names, i + 1, n);
        return Err(isValid.error);
      }
      if isValid.value {
        validIndices := validIndices + [i];
      }
      i := i + 1;
    }
    var filtered := SelectRowsTable(df.data, validIndices);
    if filtered.Err? {
      return Err(filtered.error);
    }
    var result := new DataFrame(filtered.value);
    return Ok(result);
  }

  /** Builds the new column in a new list and puts it into a copy of the
      map, so the input table is left as it was. */
  method ReplaceNullsWithValue(df: DataFrame, name: string, value: Cell) returns (r: Result<DataFrame>)
    ensures Yields(r, ReplaceNullsOf(df.data, name, value))
    ensures r.Ok? ==> fresh(r.value)
  {
    var data := df.data;
    if name !in data {
      return Err(NullPointer);
    }
    var column := data[name];
    var newColumn: seq<Cell> := [];
    var i := 0;
    while i < |column|
      invariant 0 <= i <= |column|
      invariant newColumn == FillNulls(column[..i], value)
    {
      newColumn := newColumn + [if column[i].Null? then value else column[i]];
      i := i + 1;
    }
    assert column[..i] == column;
    data := data[name := newColumn];
    var result := new DataFrame(data);
    return Ok(result);
  }

  // ---------------------------------------------------------------------
  // Properties

  /** A row passes exactly when every listed column is present, long
      enough and not null at that row. */
  lemma {:induction false} NullCheckTrueIff(t: Table, names: seq<string>, i: int)
    ensures NullCheck(t, names, i) == Ok(true) <==>
              forall k :: 0 <= k < |names| ==> names[k] in t && 0 <= i < |t[names[k]]| && !t[names[k]][i].Null?
    decreases |names|
  {
    if names != [] {
      NullCheckTrueIff(t, names[1..], i);
      assert forall k :: 1 <= k < |names| ==> names[1..][k - 1] == names[k];
    }
  }

  /** The kept rows are those among the first m that pass, in increasing
      order. */
  lemma {:induction false} NonNullRowsSpec(t: Table, names: seq<string>, m: nat)
    requires NonNullRows(t, names, m).Ok?
    ensures forall i :: i in NonNullRows(t, names, m).value <==> 0 <= i < m && NullCheck(t, names, i) == Ok(true)
    ensures StrictlyIncreasing(NonNullRows(t, names, m).value) && IndicesIn(NonNullRows(t, names, m).value, m)
    ensures |NonNullRows(t, names, m).value| <= m
  {
    if m > 0 {
      NonNullRowsSpec(t, names, m - 1);
    }
  }

  /** After dropping, the listed columns hold no null; every column is the
      input column at the same increasing positions, and there are at most
      n rows. */
  lemma DropRowsListedHaveNoNulls(t: Table, n: nat, names: seq<string>)
    requires DropRowsWithNullsOf(t, n, names).Ok?
    ensures NonNullRows(t, names, n).Ok?
    ensures DropRowsWithNullsOf(t, n, names).value.Keys == t.Keys
    ensures var kept := NonNullRows(t, names, n).value;
            StrictlyIncreasing(kept) && |kept| <= n
    ensures var kept := NonNullRows(t, names, n).value;
            forall c :: c in t ==> IndicesIn(kept, |t[c]|) && DropRowsWithNullsOf(t, n, names).value[c] == Gather(t[c], kept)
    ensures var u := DropRowsWithNullsOf(t, n, names).value;
            forall c, j :: c in names && c in u && 0 <= j < |u[c]| ==> !u[c][j].Null?
  {
    var kept: seq<int> := NonNullRows(t, names, n).value;
    var u: Table := DropRowsWithNullsOf(t, n, names).value;
    NonNullRowsSpec(t, names, n);
    assert u == map c | c in t :: Gather(t[c], kept);
    forall c: string, j: int | c in names && c in u && 0 <= j < |u[c]|
      ensures !u[c][j].Null?
    {
      assert kept[j] in kept;
      NullCheckTrueIff(t, names, kept[j]);
      var k :| 0 <= k < |names| && names[k] == c;
      assert u[c][j] == t[c][kept[j]];
    }
  }

  /** Columns that are not listed keep their nulls: here column "b" is not
      listed and its null survives. */
  lemma UnlistedColumnsKeepNulls()
    ensures DropRowsWithNullsOf(map["a" := [IntV(1)], "b" := [Null]], 1, ["a"]) == Ok(map["a" := [IntV(1)], "b" := [Null]])
  {
    var t := map["a" := [IntV(1)], "b" := [Null]];
    var names := ["a"];
    assert names[0] == "a" && names[1..] == [];
    assert NullCheck(t, names, 0) == Ok(true);
    assert NonNullRows(t, names, 0) == Ok([]);
    assert NonNullRows(t, names, 1) == Ok([] + [0]);
    assert [] + [0] == [0];
    assert Gather(t["a"], [0]) == t["a"] && Gather(t["b"], [0]) == t["b"];
    assert (map c | c in t :: Gather(t[c], [0])) == t;
  }

  /** Replacement changes only the nulls of the named column: the other
      cells and columns and the column's length stay as they were, and a
      null cell becomes the value. */
  lemma ReplaceNullsChangesOnlyNulls(t: Table, name: string, value: Cell)
    requires name in t
    ensures var u := ReplaceNullsOf(t, name, value).value;
            && u.Keys == t.Keys
            && (forall c :: c in t && c != name ==> u[c] == t[c])
            && |u[name]| == |t[name]|
            && (forall k :: 0 <= k < |t[name]| ==> u[name][k] == (if t[name][k].Null? then value else t[name][k]))
  {
  }

  /** With a non-null value no null remains in the column. */
  lemma ReplaceNullsLeavesNoNull(t: Table, name: string, value: Cell)
    requires name in t && !value.Null?
    ensures forall k :: 0 <= k < |ReplaceNullsOf(t, name, value).value[name]| ==> !ReplaceNullsOf(t, name, value).value[name][k].Null?
  {
  }

  /** Replacing twice with the same value is replacing once. */
  lemma ReplaceNullsIdempotent(t: Table, name: string, value: Cell)
    requires name in t
    ensures ReplaceNullsOf(ReplaceNullsOf(t, name, value).value, name, value) == ReplaceNullsOf(t, name, value)
  {
    var col := t[name];
    var once := FillNulls(col, value);
    assert FillNulls(once, value) == once by {
      forall k | 0 <= k < |once| ensures FillNulls(once, value)[k] == once[k] {
      }
    }
    assert t[name := once][name := once] == t[name := once];
  }
}
