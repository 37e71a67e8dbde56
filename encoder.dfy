/** Categorical encodings of a table column: label codes, one-hot
    indicator columns and target (mean) encoding, each in a single-column
    and a list-of-columns form. */
module Encoders {
  import opened Seqs
  import opened Cells
  import opened Frames
  import opened Stats

  // ---------------------------------------------------------------------
  // Label encoding

  /** The code labelEncoding gives each row. The counter advances on every
      row, not only on a new value, so a value's code is the position of
      its first occurrence: codes grow in first-seen order, from 0, with gaps. */
  function LabelCodes(col: seq<Cell>): seq<Cell> {
    seq(|col|, i requires 0 <= i < |col| => IntV(IndexOf(col, col[i])))
  }

  /** The named column replaced by `<name>_Encoded` holding its codes. */
  function LabelEncodingOf(t: Table, name: string): Result<Table> {
    if name !in t then Err(ColumnNotFound)
    else Ok((t - {name})[name + "_Encoded" := LabelCodes(t[name])])
  }

  /** The list form: each name in turn, on the table the previous ones left. */
  function LabelEncodingAllOf(t: Table, names: seq<string>): Result<Table>
    decreases |names|
  {
    if names == [] then Ok(t)
    else
      match LabelEncodingOf(t, names[0])
      case Err(e) => Err(e)
      case Ok(u) => LabelEncodingAllOf(u, names[1..])
  }

  /** A value not met before row i has its first occurrence at i. */
  lemma FirstOccurrenceAt<T>(s: seq<T>, i: int)
    requires 0 <= i < |s| && s[i] !in s[..i]
    ensures IndexOf(s, s[i]) == i
  {
    assert forall j :: 0 <= j < i ==> s[..i][j] == s[j];
  }

  /** The loop with the putIfAbsent map and the counter. */
  method EncodeLabels(col: seq<Cell>) returns (codes: seq<Cell>)
    ensures codes == LabelCodes(col)
  {
    var uniq: map<Cell, int> := map[];
    var code := 0;
    codes := [];
    var i := 0;
    while i < |col|
      invariant 0 <= i <= |col| && code == i
      invariant forall v :: v in uniq <==> v in col[..i]
      invariant forall v :: v in uniq ==> v in col && uniq[v] == IndexOf(col, v)
      invariant codes == LabelCodes(col)[..i]
    {
      var val := col[i];
      PrefixMembersSnoc(col, i);
      if val !in uniq {
        FirstOccurrenceAt(col, i);
        uniq := uniq[val := code];
      }
      code := code + 1;
      LabelCodesSnoc(col, i);
      codes := codes + [IntV(uniq[val])];
      i := i + 1;
    }
  }

  lemma PrefixMembersSnoc<T>(s: seq<T>, i: int)
    requires 0 <= i < |s|
    ensures forall v :: v in s[..i + 1] <==> v in s[..i] || v == s[i]
  {
    assert s[..i + 1] == s[..i] + [s[i]];
  }

  lemma LabelCodesSnoc(col: seq<Cell>, i: int)
    requires 0 <= i < |col|
    ensures LabelCodes(col)[..i + 1] == LabelCodes(col)[..i] + [IntV(IndexOf(col, col[i]))]
  {
    var codes := LabelCodes(col);
    assert codes[i] == IntV(IndexOf(col, col[i]));
    TakeSnoc(codes, i);
  }

  method LabelEncoding(df: DataFrame, name: string) returns (r: Result<DataFrame>)
    ensures Yields(r, LabelEncodingOf(df.data, name))
    ensures r.Ok? ==> fresh(r.value)
  {
    var labelEncoded := df.data;
    if name !in labelEncoded {
      return Err(ColumnNotFound);
    }
    var encodedColumn := EncodeLabels(labelEncoded[name]);
    labelEncoded := labelEncoded - {name};
    labelEncoded := labelEncoded[name + "_Encoded" := encodedColumn];
    var out := new DataFrame(labelEncoded);
    return Ok(out);
  }

  method LabelEncodingAll(df: DataFrame, names: seq<string>) returns (r: Result<DataFrame>)
    ensures Yields(r, LabelEncodingAllOf(df.data, names))
    ensures r.Ok? ==> fresh(r.value)
  {
    var labelEncoded := df.data;
    var k := 0;
    while k < |names|
      invariant 0 <= k <= |names|
      invariant LabelEncodingAllOf(df.data, names) == LabelEncodingAllOf(labelEncoded, names[k..])
    {
      assert names[k..][1..] == names[k + 1..];
      var col := names[k];
      if col !in labelEncoded {
        return Err(ColumnNotFound);
      }
      var encodedColumn := EncodeLabels(labelEncoded[col]);
      labelEncoded := labelEncoded - {col};
      labelEncoded := labelEncoded[col + "_Encoded" := encodedColumn];
      k := k + 1;
    }
    var out := new DataFrame(labelEncoded);
    return Ok(out);
  }

  /** Two rows get the same code exactly when they hold equal values. */
  lemma LabelCodesSameIff(col: seq<Cell>, i: int, j: int)
    requires 0 <= i < |col| && 0 <= j < |col|
    ensures LabelCodes(col)[i] == LabelCodes(col)[j] <==> col[i] == col[j]
  {
    var a, b := IndexOf(col, col[i]), IndexOf(col, col[j]);
    assert col[a] == col[i] && col[b] == col[j];
  }

  /** Each code is a row position at or before its own row, holding the
      same value, so the codes decode back to the column; a row's code is
      its own position exactly when it is the value's first occurrence. */
  lemma LabelCodesDecode(col: seq<Cell>)
    ensures forall i :: 0 <= i < |col| ==>
              LabelCodes(col)[i].IntV? && 0 <= LabelCodes(col)[i].i <= i && col[LabelCodes(col)[i].i] == col[i]
    ensures forall i :: 0 <= i < |col| ==> (LabelCodes(col)[i] == IntV(i) <==> col[i] !in col[..i])
  {
    forall i | 0 <= i < |col|
      ensures 0 <= LabelCodes(col)[i].i <= i && col[LabelCodes(col)[i].i] == col[i]
      ensures LabelCodes(col)[i] == IntV(i) <==> col[i] !in col[..i]
    {
      var k := IndexOf(col, col[i]);
      assert k <= i;
      if col[i] !in col[..i] {
        FirstOccurrenceAt(col, i);
      } else {
        var j :| 0 <= j < i && col[..i][j] == col[i];
        assert col[j] == col[i];
      }
    }
  }

  /** Codes are not consecutive: the value first seen at row 3 gets code 3. */
  lemma LabelCodesExample()
    ensures LabelCodes([StrV("a"), StrV("b"), StrV("a"), StrV("c")]) == [IntV(0), IntV(1), IntV(0), IntV(3)]
  {
    var col := [StrV("a"), StrV("b"), StrV("a"), StrV("c")];
    assert IndexOf(col, StrV("b")) == 1 by {
      assert col[1..][0] == StrV("b");
    }
    assert IndexOf(col, StrV("c")) == 3 by {
      assert col[1..][1..][1..][0] == StrV("c");
    }
  }

  // ---------------------------------------------------------------------
  // One-hot encoding

  /** The characters `\s` matches in a Java regular expression. */
  predicate IsSpace(ch: char) {
    ch == ' ' || ch == '\t' || ch == '\n' || ch == '\U{000B}' || ch == '\U{000C}' || ch == '\r'
  }

  predicate NoSpaces(s: string) {
    forall k :: 0 <= k < |s| ==> !IsSpace(s[k])
  }

  /** s without its leading run of whitespace. */
  function DropSpaces(s: string): (r: string)
    ensures |r| <= |s| && r == s[|s| - |r|..]
    ensures s != [] && IsSpace(s[0]) ==> |r| < |s|
    ensures r != [] ==> !IsSpace(r[0])
  {
    if s != [] && IsSpace(s[0]) then DropSpaces(s[1..]) else s
  }

  /** `replaceAll("\\s+", "_")`: every maximal run of whitespace becomes
      one underscore. */
  function CollapseSpaces(s: string): string
    decreases |s|
  {
    if s == [] then []
    else if IsSpace(s[0]) then "_" + CollapseSpaces(DropSpaces(s))
    else [s[0]] + CollapseSpaces(s[1..])
  }

  /** The collapsed string holds no whitespace. */
  lemma {:induction false} CollapseSpacesNoSpaces(s: string)
    ensures NoSpaces(CollapseSpaces(s))
    decreases |s|
  {
    if s != [] {
      if IsSpace(s[0]) {
        CollapseSpacesNoSpaces(DropSpaces(s));
        NoSpacesConcat("_", CollapseSpaces(DropSpaces(s)));
      } else {
        CollapseSpacesNoSpaces(s[1..]);
        NoSpacesConcat([s[0]], CollapseSpaces(s[1..]));
      }
    }
  }

  lemma NoSpacesConcat(a: string, b: string)
    requires NoSpaces(a) && NoSpaces(b)
    ensures NoSpaces(a + b)
  {
    assert forall k :: |a| <= k < |a + b| ==> (a + b)[k] == b[k - |a|];
  }

  /** A string without whitespace is left alone, so collapsing twice is
      collapsing once. */
  lemma {:induction false} CollapseSpacesIdentity(s: string)
    requires NoSpaces(s)
    ensures CollapseSpaces(s) == s
    decreases |s|
  {
    if s != [] {
      CollapseSpacesIdentity(s[1..]);
    }
  }

  lemma CollapseSpacesIdempotent(s: string)
    ensures CollapseSpaces(CollapseSpaces(s)) == CollapseSpaces(s)
  {
    CollapseSpacesNoSpaces(s);
    CollapseSpacesIdentity(CollapseSpaces(s));
  }

  lemma CollapseSpacesExample()
    ensures CollapseSpaces("a \t b") == "a_b"
  {
    CollapseRunExample();
    assert "a \t b"[1..] == " \t b";
  }

  lemma CollapseRunExample()
    ensures CollapseSpaces(" \t b") == "_b"
  {
    DropRunExample();
    assert "b"[1..] == [];
    assert CollapseSpaces("b") == "b";
  }

  lemma DropRunExample()
    ensures DropSpaces(" \t b") == "b"
  {
    assert " \t b"[1..] == "\t b" && "\t b"[1..] == " b" && " b"[1..] == "b";
  }

  /** The indicator column's name: `<name>_<label>`. */
  function IndicatorName(name: string, text: string): string {
    name + "_" + text
  }

  /** The column named `key`: 1 in the rows whose value is labelled `key`,
      0 elsewhere. */
  function Indicator(col: seq<Cell>, name: string, labelOf: Cell -> string, key: string): seq<Cell> {
    seq(|col|, i requires 0 <= i < |col| => if IndicatorName(name, labelOf(col[i])) == key then IntV(1) else IntV(0))
  }

  /** One indicator column per label of a value of the column. */
  function OneHotOf(col: seq<Cell>, name: string, labelOf: Cell -> string): Table {
    map key | key in IndicatorNames(col, name, labelOf) :: Indicator(col, name, labelOf, key)
  }

  /** The indicator names of the values of a column. */
  function IndicatorNames(col: seq<Cell>, name: string, labelOf: Cell -> string): set<string> {
    set c | c in col :: IndicatorName(name, labelOf(c))
  }

  /** oneHotEncoding: the indicator columns are added, and the source column
      stays (the table that dropColumn returns is discarded). A null value has
      no toString. */
  function OneHotEncodingOf(t: Table, name: string, labelOf: Cell -> string): Result<Table> {
    if name !in t then Err(ColumnNotFound)
    else if Null in t[name] then Err(NullPointer)
    else Ok(t + OneHotOf(t[name], name, labelOf))
  }

  /** The label the list form gives a value: its text, whitespace collapsed. */
  function Collapsed(show: Cell -> string): Cell -> string {
    c => CollapseSpaces(show(c))
  }

  function OneHotEncodingAllOf(t: Table, names: seq<string>, show: Cell -> string): Result<Table>
    decreases |names|
  {
    if names == [] then Ok(t)
    else
      match OneHotEncodingOf(t, names[0], Collapsed(show))
      case Err(e) => Err(e)
      case Ok(u) => OneHotEncodingAllOf(u, names[1..], show)
  }

  /** The indicator column after the rows before i have been marked. */
  function PartialIndicator(col: seq<Cell>, name: string, labelOf: Cell -> string, key: string, i: int): seq<Cell> {
    seq(|col|, j requires 0 <= j < |col| => if j < i && IndicatorName(name, labelOf(col[j])) == key then IntV(1) else IntV(0))
  }

  lemma IndicatorNamesSnoc(s: seq<Cell>, x: Cell, name: string, labelOf: Cell -> string)
    ensures IndicatorNames(s + [x], name, labelOf) == IndicatorNames(s, name, labelOf) + {IndicatorName(name, labelOf(x))}
  {
    assert forall c :: c in s + [x] <==> c in s || c == x;
  }

  lemma IndicatorNamesSameElements(s: seq<Cell>, u: seq<Cell>, name: string, labelOf: Cell -> string)
    requires forall c :: c in s <==> c in u
    ensures IndicatorNames(s, name, labelOf) == IndicatorNames(u, name, labelOf)
  {
  }

  /** Marking row i changes only the column of row i's label. */
  lemma PartialIndicatorStep(col: seq<Cell>, name: string, labelOf: Cell -> string, key: string, i: int)
    requires 0 <= i < |col|
    ensures key == IndicatorName(name, labelOf(col[i])) ==>
              PartialIndicator(col, name, labelOf, key, i + 1) == PartialIndicator(col, name, labelOf, key, i)[i := IntV(1)]
    ensures key != IndicatorName(name, labelOf(col[i])) ==>
              PartialIndicator(col, name, labelOf, key, i + 1) == PartialIndicator(col, name, labelOf, key, i)
  {
  }

  lemma PartialIndicatorEnds(col: seq<Cell>, name: string, labelOf: Cell -> string, key: string)
    ensures PartialIndicator(col, name, labelOf, key, 0) == seq(|col|, _ => IntV(0))
    ensures PartialIndicator(col, name, labelOf, key, |col|) == Indicator(col, name, labelOf, key)
  {
  }

  /** A zero column per first-seen category; toString fails on null. */
  method ZeroColumns(values: seq<Cell>, name: string, labelOf: Cell -> string) returns (r: Result<Table>)
    ensures Null in values ==> r == Err(NullPointer)
    ensures Null !in values ==>
              r.Ok? && r.value.Keys == IndicatorNames(values, name, labelOf) &&
              forall key :: key in r.value ==> r.value[key] == PartialIndicator(values, name, labelOf, key, 0)
  {
    var categories := Distinct(values);
    DistinctProperties(values);
    var zeros := seq(|values|, _ => IntV(0));
    var onehot: Table := map[];
    var k := 0;
    while k < |categories|
      invariant 0 <= k <= |categories|
      invariant Null !in categories[..k]
      invariant onehot.Keys == IndicatorNames(categories[..k], name, labelOf)
      invariant forall key :: key in onehot ==> onehot[key] == zeros
    {
      assert categories[..k + 1] == categories[..k] + [categories[k]];
      IndicatorNamesSnoc(categories[..k], categories[k], name, labelOf);
      if categories[k] == Null {
        return Err(NullPointer);
      }
      onehot := onehot[IndicatorName(name, labelOf(categories[k])) := zeros];
      k := k + 1;
    }
    assert categories[..k] == categories;
    IndicatorNamesSameElements(categories, values, name, labelOf);
    forall key | key in onehot ensures onehot[key] == PartialIndicator(values, name, labelOf, key, 0) {
      PartialIndicatorEnds(values, name, labelOf, key);
    }
    return Ok(onehot);
  }

  /** Sets a 1 in every row under the column of that row's label. */
  method MarkRows(values: seq<Cell>, name: string, labelOf: Cell -> string, zeroed: Table) returns (onehot: Table)
    requires zeroed.Keys == IndicatorNames(values, name, labelOf)
    requires forall key :: key in zeroed ==> zeroed[key] == PartialIndicator(values, name, labelOf, key, 0)
    ensures onehot == OneHotOf(values, name, labelOf)
  {
    onehot := zeroed;
    var i := 0;
    while i < |values|
      invariant 0 <= i <= |values|
      invariant onehot.Keys == zeroed.Keys
      invariant forall key :: key in onehot ==> onehot[key] == PartialIndicator(values, name, labelOf, key, i)
    {
      var colName := IndicatorName(name, labelOf(values[i]));
      assert values[i] in values;
      forall key | key in onehot {
        PartialIndicatorStep(values, name, labelOf, key, i);
      }
      onehot := onehot[colName := onehot[colName][i := IntV(1)]];
      i := i + 1;
    }
    forall key | key in onehot ensures onehot[key] == Indicator(values, name, labelOf, key) {
      PartialIndicatorEnds(values, name, labelOf, key);
    }
    assert onehot == OneHotOf(values, name, labelOf);
  }

  /** The indicator columns of one source column. */
  method OneHotColumns(values: seq<Cell>, name: string, labelOf: Cell -> string) returns (r: Result<Table>)
    ensures Null in values ==> r == Err(NullPointer)
    ensures Null !in values ==> r == Ok(OneHotOf(values, name, labelOf))
  {
    var zeroed := ZeroColumns(values, name, labelOf);
    if zeroed.Err? {
      return zeroed;
    }
    var onehot := MarkRows(values, name, labelOf, zeroed.value);
    return Ok(onehot);
  }

  /** The columns of t whose names are in keys. */
  function Restrict(t: Table, keys: set<string>): Table {
    map k | k in t && k in keys :: t[k]
  }

  lemma RestrictGrow(base: Table, t: Table, keys: set<string>, k: string)
    requires k in t
    ensures base + Restrict(t, keys + {k}) == (base + Restrict(t, keys))[k := t[k]]
  {
  }

  lemma RestrictAll(t: Table)
    ensures Restrict(t, t.Keys) == t
  {
  }

  /** Adds the indicator columns to a copy of the table one by one with
      withColumn; the copy keeps the counts of the original. */
  method AddColumns(newdf: DataFrame, columns: Table)
    modifies newdf`data
    ensures newdf.data == old(newdf.data) + columns
  {
    ghost var before := newdf.data;
    var rest := columns.Keys;
    while rest != {}
      invariant rest <= columns.Keys
      invariant newdf.data == before + Restrict(columns, columns.Keys - rest)
      decreases rest
    {
      var key :| key in rest;
      RestrictGrow(before, columns, columns.Keys - rest, key);
      assert columns.Keys - (rest - {key}) == (columns.Keys - rest) + {key};
      var grown := newdf.WithColumn(key, columns[key]);
      rest := rest - {key};
    }
    RestrictAll(columns);
  }

  method OneHotEncoding(df: DataFrame, name: string, show: Cell -> string) returns (r: Result<DataFrame>)
    ensures OneHotEncodingOf(df.data, name, show).Err? ==> r == Err(OneHotEncodingOf(df.data, name, show).error)
    ensures OneHotEncodingOf(df.data, name, show).Ok? ==>
              r.Ok? && fresh(r.value) && r.value.data == OneHotEncodingOf(df.data, name, show).value &&
              r.value.nCols == |df.data| && RowsOfSomeColumn(df.data, r.value.nRows)
  {
    if name !in df.data {
      return Err(ColumnNotFound);
    }
    var values := df.data[name];
    var onehot := OneHotColumns(values, name, show);
    if onehot.Err? {
      return Err(onehot.error);
    }
    var newdf := new DataFrame(df.data);
    AddColumns(newdf, onehot.value);
    var dropped := newdf.DropColumn(name);
    return Ok(newdf);
  }

  /** One pass of the list form's loop on the working copy. */
  method OneHotStep(newdf: DataFrame, columnName: string, show: Cell -> string) returns (o: Outcome)
    modifies newdf`data
    ensures OneHotEncodingOf(old(newdf.data), columnName, Collapsed(show)).Err? ==>
              o == Fail(OneHotEncodingOf(old(newdf.data), columnName, Collapsed(show)).error)
    ensures OneHotEncodingOf(old(newdf.data), columnName, Collapsed(show)).Ok? ==>
              o == Pass && newdf.data == OneHotEncodingOf(old(newdf.data), columnName, Collapsed(show)).value
  {
    if columnName !in newdf.data {
      return Fail(ColumnNotFound);
    }
    var values := newdf.data[columnName];
    var onehot := OneHotColumns(values, columnName, Collapsed(show));
    if onehot.Err? {
      return Fail(onehot.error);
    }
    AddColumns(newdf, onehot.value);
    var dropped := newdf.DropColumn(columnName);
    return Pass;
  }

  method OneHotEncodingAll(df: DataFrame, names: seq<string>, show: Cell -> string) returns (r: Result<DataFrame>)
    ensures OneHotEncodingAllOf(df.data, names, show).Err? ==> r == Err(OneHotEncodingAllOf(df.data, names, show).error)
    ensures OneHotEncodingAllOf(df.data, names, show).Ok? ==>
              r.Ok? && fresh(r.value) && r.value.data == OneHotEncodingAllOf(df.data, names, show).value &&
              r.value.nCols == |df.data| && RowsOfSomeColumn(df.data, r.value.nRows)
  {
    var newdf := new DataFrame(df.data);
    var k := 0;
    while k < |names|
      invariant 0 <= k <= |names|
      invariant fresh(newdf) && newdf.nCols == |df.data| && RowsOfSomeColumn(df.data, newdf.nRows)
      invariant OneHotEncodingAllOf(df.data, names, show) == OneHotEncodingAllOf(newdf.data, names[k..], show)
    {
      assert names[k..][1..] == names[k + 1..];
      var o := OneHotStep(newdf, names[k], show);
      if o.Fail? {
        return Err(o.error);
      }
      k := k + 1;
    }
    return Ok(newdf);
  }

  /** Every row has a 1 in exactly one indicator column, the one named after
      its own labelOf, and 0 in all others. */
  lemma OneHotExactlyOne(col: seq<Cell>, name: string, labelOf: Cell -> string, i: int)
    requires 0 <= i < |col|
    ensures IndicatorName(name, labelOf(col[i])) in OneHotOf(col, name, labelOf)
    ensures forall key :: key in OneHotOf(col, name, labelOf) ==>
              |OneHotOf(col, name, labelOf)[key]| == |col| &&
              (OneHotOf(col, name, labelOf)[key][i] == IntV(1) <==> key == IndicatorName(name, labelOf(col[i]))) &&
              (OneHotOf(col, name, labelOf)[key][i] == IntV(0) <==> key != IndicatorName(name, labelOf(col[i])))
  {
    assert col[i] in col;
  }

  /** With distinct labels for distinct values, each indicator column marks
      exactly the rows of one value of the column. */
  lemma OneHotDecodes(col: seq<Cell>, name: string, labelOf: Cell -> string)
    requires forall a, b :: a in col && b in col && labelOf(a) == labelOf(b) ==> a == b
    ensures forall key :: key in OneHotOf(col, name, labelOf) ==>
              exists c :: c in col && forall i :: 0 <= i < |col| ==> (OneHotOf(col, name, labelOf)[key][i] == IntV(1) <==> col[i] == c)
  {
    forall key | key in OneHotOf(col, name, labelOf)
      ensures exists c :: c in col && forall i :: 0 <= i < |col| ==> (OneHotOf(col, name, labelOf)[key][i] == IntV(1) <==> col[i] == c)
    {
      var c :| c in col && key == IndicatorName(name, labelOf(c));
      forall i | 0 <= i < |col| ensures OneHotOf(col, name, labelOf)[key][i] == IntV(1) <==> col[i] == c {
        assert col[i] in col;
        assert key[|name| + 1..] == labelOf(c);
        assert IndicatorName(name, labelOf(col[i]))[|name| + 1..] == labelOf(col[i]);
      }
    }
  }

  /** The source column is still there after the indicators are added. */
  lemma OneHotKeepsSource(t: Table, name: string, labelOf: Cell -> string)
    requires OneHotEncodingOf(t, name, labelOf).Ok?
    ensures name in OneHotEncodingOf(t, name, labelOf).value
    ensures OneHotEncodingOf(t, name, labelOf).value[name] == t[name]
    ensures forall c :: c in t ==> c in OneHotEncodingOf(t, name, labelOf).value
  {
    assert name !in OneHotOf(t[name], name, labelOf) by {
      forall c | c in t[name] ensures |IndicatorName(name, labelOf(c))| > |name| {
      }
    }
  }

  /** The list form names its indicators `<name>_<label>` with a label free
      of whitespace. */
  lemma OneHotAllLabelsHaveNoSpaces(col: seq<Cell>, name: string, show: Cell -> string)
    ensures forall key :: key in OneHotOf(col, name, Collapsed(show)) ==>
              |key| > |name| && key[..|name| + 1] == name + "_" && NoSpaces(key[|name| + 1..])
  {
    forall key | key in OneHotOf(col, name, Collapsed(show))
      ensures |key| > |name| && key[..|name| + 1] == name + "_" && NoSpaces(key[|name| + 1..])
    {
      var c :| c in col && key == IndicatorName(name, Collapsed(show)(c));
      CollapseSpacesNoSpaces(show(c));
      assert key[|name| + 1..] == CollapseSpaces(show(c));
    }
  }

  // ---------------------------------------------------------------------
  // Target encoding

  /** `Double.valueOf(targets.get(i).toString())` for the rows below n, in
      row order: the first row past the end of the target column or not
      holding a number stops the computation with that error. */
  function ParseTargets(targets: seq<Cell>, n: nat): (r: Result<seq<real>>)
    ensures r.Ok? ==> |r.value| == n
  {
    if n == 0 then Ok([])
    else
      match ParseTargets(targets, n - 1)
      case Err(e) => Err(e)
      case Ok(ys) =>
        if n - 1 >= |targets| then Err(OutOfRange)
        else
          match ParseDouble(targets[n - 1])
          case Err(e) => Err(e)
          case Ok(y) => Ok(ys + [y])
  }

  /** The target values of the rows holding category c. */
  function GroupValues(cats: seq<Cell>, ys: seq<real>, c: Cell): seq<real>
    requires |ys| == |cats|
  {
    if cats == [] then []
    else
      GroupValues(cats[..|cats| - 1], ys[..|ys| - 1], c) + (if cats[|cats| - 1] == c then [ys[|ys| - 1]] else [])
  }

  lemma {:induction false} GroupValuesCount(cats: seq<Cell>, ys: seq<real>, c: Cell)
    requires |ys| == |cats|
    ensures |GroupValues(cats, ys, c)| == Count(cats, c)
  {
    if cats != [] {
      GroupValuesCount(cats[..|cats| - 1], ys[..|ys| - 1], c);
    }
  }

  /** The mean target of category c, which occurs in the column. */
  function GroupMean(cats: seq<Cell>, ys: seq<real>, c: Cell): real
    requires |ys| == |cats| && c in cats
  {
    CountPositive(cats, c);
    GroupValuesCount(cats, ys, c);
    Mean(GroupValues(cats, ys, c))
  }

  /** Each row's category replaced by its group's mean target. */
  function GroupMeans(cats: seq<Cell>, ys: seq<real>): seq<Cell>
    requires |ys| == |cats|
  {
    seq(|cats|, i requires 0 <= i < |cats| => RealV(GroupMean(cats, ys, cats[i])))
  }

  /** The encoded column for the categories, or the first parse error. */
  function TargetMeansOf(cats: seq<Cell>, targets: seq<Cell>): Result<seq<Cell>> {
    match ParseTargets(targets, |cats|)
    case Err(e) => Err(e)
    case Ok(ys) => Ok(GroupMeans(cats, ys))
  }

  /** targetEncoding: the category column replaced by `<name>_TargetEncoded`. */
  function TargetEncodingOf(t: Table, category: string, target: string): Result<Table> {
    if category !in t || target !in t then Err(ColumnNotFound)
    else
      match TargetMeansOf(t[category], t[target])
      case Err(e) => Err(e)
      case Ok(encoded) => Ok((t - {category})[category + "_TargetEncoded" := encoded])
  }

  /** The list form keeps the category columns and adds one encoded column
      for each, all against the target column as first read. */
  function TargetEncodingFold(t: Table, names: seq<string>, targets: seq<Cell>): Result<Table>
    decreases |names|
  {
    if names == [] then Ok(t)
    else if names[0] !in t then Err(ColumnNotFound)
    else
      match TargetMeansOf(t[names[0]], targets)
      case Err(e) => Err(e)
      case Ok(encoded) => TargetEncodingFold(t[names[0] + "_TargetEncoded" := encoded], names[1..], targets)
  }

  function TargetEncodingAllOf(t: Table, names: seq<string>, target: string): Result<Table> {
    if target !in t then Err(ColumnNotFound) else TargetEncodingFold(t, names, t[target])
  }

  /** Once a row fails to parse, the whole parse fails the same way. */
  lemma {:induction false} ParseTargetsErrPersists(targets: seq<Cell>, m: nat, n: nat)
    requires m <= n && ParseTargets(targets, m).Err?
    ensures ParseTargets(targets, n) == ParseTargets(targets, m)
    decreases n - m
  {
    if m < n {
      ParseTargetsErrPersists(targets, m, n - 1);
    }
  }

  lemma GroupValuesSnoc(cats: seq<Cell>, ys: seq<real>, i: int, y: real, c: Cell)
    requires 0 <= i < |cats| && |ys| == i
    ensures GroupValues(cats[..i + 1], ys + [y], c) ==
              GroupValues(cats[..i], ys, c) + (if cats[i] == c then [y] else [])
  {
    assert cats[..i + 1][..i] == cats[..i];
    assert (ys + [y])[..i] == ys;
  }

  /** Sums and counts per category of the rows of cats. */
  ghost predicate TotalsOf(cats: seq<Cell>, ys: seq<real>, sums: map<Cell, real>, counts: map<Cell, int>)
    requires |ys| == |cats|
  {
    && (forall c :: (c in sums <==> c in cats) && (c in counts <==> c in cats))
    && (forall c :: c in sums ==> sums[c] == Sum(GroupValues(cats, ys, c)) && counts[c] == Count(cats, c))
  }

  lemma GroupValuesAppend(cats: seq<Cell>, ys: seq<real>, x: Cell, y: real, c: Cell)
    requires |ys| == |cats|
    ensures Sum(GroupValues(cats + [x], ys + [y], c)) == Sum(GroupValues(cats, ys, c)) + (if x == c then y else 0.0)
  {
    assert (cats + [x])[..|cats|] == cats;
    assert (ys + [y])[..|ys|] == ys;
    SumAppend(GroupValues(cats, ys, c), y);
    assert GroupValues(cats, ys, c) + [] == GroupValues(cats, ys, c);
  }

  lemma TotalsStepValue(cats: seq<Cell>, ys: seq<real>, x: Cell, y: real, sums: map<Cell, real>, counts: map<Cell, int>, c: Cell)
    requires |ys| == |cats| && TotalsOf(cats, ys, sums, counts)
    ensures (if c == x then (if x in sums then sums[x] else 0.0) + y else if c in sums then sums[c] else 0.0)
            == Sum(GroupValues(cats + [x], ys + [y], c))
    ensures (if c == x then (if x in counts then counts[x] else 0) + 1 else if c in counts then counts[c] else 0)
            == Count(cats + [x], c)
  {
    CountAppend(cats, [x], c);
    GroupValuesAppend(cats, ys, x, y, c);
    CountPositive(cats, c);
    GroupValuesCount(cats, ys, c);
  }

  /** Adding one more row's target to its category's totals. */
  lemma TotalsStep(cats: seq<Cell>, ys: seq<real>, x: Cell, y: real, sums: map<Cell, real>, counts: map<Cell, int>)
    requires |ys| == |cats| && TotalsOf(cats, ys, sums, counts)
    ensures TotalsOf(cats + [x], ys + [y],
                     sums[x := (if x in sums then sums[x] else 0.0) + y],
                     counts[x := (if x in counts then counts[x] else 0) + 1])
  {
    TotalsStepKeys(cats, x, sums, counts, (if x in sums then sums[x] else 0.0) + y, (if x in counts then counts[x] else 0) + 1);
    TotalsStepValues(cats, ys, x, y, sums, counts);
  }

  /** The categories with totals are those seen so far. */
  lemma TotalsStepKeys(cats: seq<Cell>, x: Cell, sums: map<Cell, real>, counts: map<Cell, int>, s: real, n: int)
    requires forall c :: (c in sums <==> c in cats) && (c in counts <==> c in cats)
    ensures forall c :: (c in sums[x := s] <==> c in cats + [x]) && (c in counts[x := n] <==> c in cats + [x])
  {
    assert forall c :: c in cats + [x] <==> c in cats || c == x;
  }

  lemma TotalsStepValues(cats: seq<Cell>, ys: seq<real>, x: Cell, y: real, sums: map<Cell, real>, counts: map<Cell, int>)
    requires |ys| == |cats| && TotalsOf(cats, ys, sums, counts)
    ensures var sums' := sums[x := (if x in sums then sums[x] else 0.0) + y];
            var counts' := counts[x := (if x in counts then counts[x] else 0) + 1];
            forall c :: c in sums' ==> sums'[c] == Sum(GroupValues(cats + [x], ys + [y], c)) && counts'[c] == Count(cats + [x], c)
  {
    var sums' := sums[x := (if x in sums then sums[x] else 0.0) + y];
    var counts' := counts[x := (if x in counts then counts[x] else 0) + 1];
    forall c | c in sums'
      ensures sums'[c] == Sum(GroupValues(cats + [x], ys + [y], c)) && counts'[c] == Count(cats + [x], c)
    {
      TotalsStepValue(cats, ys, x, y, sums, counts, c);
    }
  }

  /** The sum and count loop, in row order, parsing each target as it goes. */
  method GroupTotals(cats: seq<Cell>, targets: seq<Cell>) returns (r: Result<seq<real>>, sums: map<Cell, real>, counts: map<Cell, int>)
    ensures r == ParseTargets(targets, |cats|)
    ensures r.Ok? ==> forall c :: (c in sums <==> c in cats) && (c in counts <==> c in cats)
    ensures r.Ok? ==> forall c :: c in sums ==>
              sums[c] == Sum(GroupValues(cats, r.value, c)) && counts[c] == Count(cats, c)
  {
    sums := map[];
    counts := map[];
    var ys: seq<real> := [];
    var i := 0;
    while i < |cats|
      invariant 0 <= i <= |cats|
      invariant ParseTargets(targets, i) == Ok(ys)
      invariant TotalsOf(cats[..i], ys, sums, counts)
    {
      if i >= |targets| {
        ParseTargetsErrPersists(targets, i + 1, |cats|);
        return Err(OutOfRange), sums, counts;
      }
      var targetValue := ParseDouble(targets[i]);
      if targetValue.Err? {
        ParseTargetsErrPersists(targets, i + 1, |cats|);
        return Err(targetValue.error), sums, counts;
      }
      var category := cats[i];
      var y := targetValue.value;
      TotalsStep(cats[..i], ys, category, y, sums, counts);
      assert cats[..i + 1] == cats[..i] + [category];
      sums := sums[category := (if category in sums then sums[category] else 0.0) + y];
      counts := counts[category := (if category in counts then counts[category] else 0) + 1];
      ys := ys + [y];
      i := i + 1;
    }
    assert cats[..i] == cats;
    return Ok(ys), sums, counts;
  }

  /** The three loops of targetEncoding: totals per category, the mean per
      category, and the encoded column. */
  method TargetMeans(cats: seq<Cell>, targets: seq<Cell>) returns (r: Result<seq<Cell>>)
    ensures r == TargetMeansOf(cats, targets)
  {
    var parsed, sums, counts := GroupTotals(cats, targets);
    if parsed.Err? {
      return Err(parsed.error);
    }
    ghost var ys := parsed.value;
    var means := CategoryMeans(cats, ys, sums, counts);
    var encodedColumn: seq<Cell> := [];
    var j := 0;
    while j < |cats|
      invariant 0 <= j <= |cats|
      invariant encodedColumn == GroupMeans(cats, ys)[..j]
    {
      assert cats[j] in cats;
      TakeSnoc(GroupMeans(cats, ys), j);
      encodedColumn := encodedColumn + [RealV(means[cats[j]])];
      j := j + 1;
    }
    assert GroupMeans(cats, ys)[..j] == GroupMeans(cats, ys);
    return Ok(encodedColumn);
  }

  /** The loop over the categories of the totals, dividing each sum by its
      count. */
  method CategoryMeans(cats: seq<Cell>, ghost ys: seq<real>, sums: map<Cell, real>, counts: map<Cell, int>)
    returns (means: map<Cell, real>)
    requires |ys| == |cats|
    requires forall c :: (c in sums <==> c in cats) && (c in counts <==> c in cats)
    requires forall c :: c in sums ==> sums[c] == Sum(GroupValues(cats, ys, c)) && counts[c] == Count(cats, c)
    ensures forall c :: c in cats ==> c in means && means[c] == GroupMean(cats, ys, c)
  {
    means := map[];
    var rest := sums.Keys;
    while rest != {}
      invariant rest <= sums.Keys
      invariant means.Keys == sums.Keys - rest
      invariant forall c :: c in means ==> c in cats && means[c] == GroupMean(cats, ys, c)
      decreases rest
    {
      var category := Pick(rest);
      CountPositive(cats, category);
      GroupValuesCount(cats, ys, category);
      means := means[category := sums[category] / (counts[category] as real)];
      rest := rest - {category};
    }
  }

  method TargetEncoding(df: DataFrame, category: string, target: string) returns (r: Result<DataFrame>)
    ensures Yields(r, TargetEncodingOf(df.data, category, target))
    ensures r.Ok? ==> fresh(r.value)
  {
    var data := df.data;
    if category !in data || target !in data {
      return Err(ColumnNotFound);
    }
    var encodedColumn := TargetMeans(data[category], data[target]);
    if encodedColumn.Err? {
      return Err(encodedColumn.error);
    }
    var encodedData := data - {category};
    encodedData := encodedData[category + "_TargetEncoded" := encodedColumn.value];
    var out := new DataFrame(encodedData);
    return Ok(out);
  }

  method TargetEncodingAll(df: DataFrame, names: seq<string>, target: string) returns (r: Result<DataFrame>)
    ensures Yields(r, TargetEncodingAllOf(df.data, names, target))
    ensures r.Ok? ==> fresh(r.value)
  {
    var data := df.data;
    if target !in data {
      return Err(ColumnNotFound);
    }
    var targets := data[target];
    var k := 0;
    while k < |names|
      invariant 0 <= k <= |names|
      invariant TargetEncodingAllOf(df.data, names, target) == TargetEncodingFold(data, names[k..], targets)
    {
      assert names[k..][1..] == names[k + 1..];
      var categoricalColumn := names[k];
      if categoricalColumn !in data {
        return Err(ColumnNotFound);
      }
      var encodedColumn := TargetMeans(data[categoricalColumn], targets);
      if encodedColumn.Err? {
        return Err(encodedColumn.error);
      }
      data := data[categoricalColumn + "_TargetEncoded" := encodedColumn.value];
      k := k + 1;
    }
    var out := new DataFrame(data);
    return Ok(out);
  }

  /** The parse succeeds exactly when the target column is long enough and
      holds a number in every row read, and then yields those numbers. */
  lemma {:induction false} ParseTargetsOk(targets: seq<Cell>, n: nat)
    ensures ParseTargets(targets, n).Ok? <==> n <= |targets| && forall k :: 0 <= k < n ==> IsNumber(targets[k])
    ensures ParseTargets(targets, n).Ok? ==>
              forall k :: 0 <= k < n ==> ParseTargets(targets, n).value[k] == NumberValue(targets[k])
  {
    if n > 0 {
      ParseTargetsOk(targets, n - 1);
    }
  }

  lemma {:induction false} GroupValuesWithin(cats: seq<Cell>, ys: seq<real>, c: Cell, lo: real, hi: real)
    requires |ys| == |cats|
    requires forall j :: 0 <= j < |cats| && cats[j] == c ==> lo <= ys[j] <= hi
    ensures forall k :: 0 <= k < |GroupValues(cats, ys, c)| ==> lo <= GroupValues(cats, ys, c)[k] <= hi
  {
    if cats != [] {
      var n := |cats| - 1;
      assert forall j :: 0 <= j < n ==> cats[..n][j] == cats[j] && ys[..n][j] == ys[j];
      GroupValuesWithin(cats[..n], ys[..n], c, lo, hi);
    }
  }

  /** A row's encoded value lies within the targets of the rows sharing its
      category; in particular a group with one target value encodes to it. */
  lemma TargetMeanWithinGroup(cats: seq<Cell>, ys: seq<real>, i: int, lo: real, hi: real)
    requires |ys| == |cats| && 0 <= i < |cats|
    requires forall j :: 0 <= j < |cats| && cats[j] == cats[i] ==> lo <= ys[j] <= hi
    ensures lo <= GroupMeans(cats, ys)[i].r <= hi
  {
    CountPositive(cats, cats[i]);
    GroupValuesCount(cats, ys, cats[i]);
    GroupValuesWithin(cats, ys, cats[i], lo, hi);
    MeanWithinBounds(GroupValues(cats, ys, cats[i]), lo, hi);
  }

  /** Rows of one category share one encoded value. */
  lemma TargetMeansAgreeWithinGroup(cats: seq<Cell>, ys: seq<real>, i: int, j: int)
    requires |ys| == |cats| && 0 <= i < |cats| && 0 <= j < |cats| && cats[i] == cats[j]
    ensures GroupMeans(cats, ys)[i] == GroupMeans(cats, ys)[j]
  {
  }
}
