/** The values a table cell can hold, the exceptions the library raises,
    and the conversions it applies to cells: `Double.valueOf(cell.toString())`
    for numbers and `Comparable.compareTo` for sorting. */
module Cells {
  import opened Seqs
  import opened Sorting

  /** A cell: a boxed Integer, a boxed Double, a String, or null. */
  datatype Cell = IntV(i: int) | RealV(r: real) | StrV(s: string) | Null

  /** The exceptions the library lets escape, named after their cause. */
  datatype Error =
    | ColumnNotFound    // IllegalArgumentException: a named column is absent
    | NoNumericValues   // IllegalArgumentException: no Number in the column
    | RowCountMismatch  // IllegalArgumentException: tables of different heights
    | DuplicateColumn   // IllegalArgumentException: a column name in both tables
    | ColumnsMismatch   // IllegalArgumentException: different column sets
    | NotOneColumn      // IllegalArgumentException: to1DArray on a wider table
    | TooFewClasses     // IllegalArgumentException: fewer than two target classes
    | NotNumeric        // NumberFormatException from Double.valueOf / parseDouble
    | NullPointer       // NullPointerException
    | OutOfRange        // IndexOutOfBoundsException
    | Incomparable      // ClassCastException or NullPointerException in compareTo
    | NoColumns         // NoSuchElementException: first column of an empty table
    | NegativeSize      // NegativeArraySizeException
    | BadRange          // IllegalArgumentException: subList whose start lies past its end

  datatype Result<T> = Ok(value: T) | Err(error: Error)
  datatype Outcome = Pass | Fail(error: Error)
  datatype Option<T> = None | Some(value: T)

  /** `cell instanceof Number`. */
  predicate IsNumber(c: Cell) { c.IntV? || c.RealV? }

  /** `((Number) cell).doubleValue()`. */
  function NumberValue(c: Cell): real
    requires IsNumber(c)
  {
    if c.IntV? then c.i as real else c.r
  }

  /** `Double.valueOf(cell.toString())`: numbers convert, a null cell has no
      `toString`, and a string is taken not to spell a number. */
  function ParseDouble(c: Cell): Result<real> {
    match c
    case IntV(i) => Ok(i as real)
    case RealV(r) => Ok(r)
    case StrV(_) => Err(NotNumeric)
    case Null => Err(NullPointer)
  }

  /** The conversion used when a table becomes a matrix: null reads as 0.0. */
  function CellAsDouble(c: Cell): Result<real> {
    if c.Null? then Ok(0.0) else ParseDouble(c)
  }

  /** The values of the Number cells of a column, in row order. */
  function Numerics(col: seq<Cell>): seq<real> {
    if col == [] then []
    else
      var last := col[|col| - 1];
      Numerics(col[..|col| - 1]) + (if IsNumber(last) then [NumberValue(last)] else [])
  }

  function Sum(xs: seq<real>): real {
    if xs == [] then 0.0 else Sum(xs[..|xs| - 1]) + xs[|xs| - 1]
  }

  /** n copies of a added up: the product n * a, kept as a sum so that
      proofs about it stay linear. */
  function Repeated(n: nat, a: real): real {
    if n == 0 then 0.0 else Repeated(n - 1, a) + a
  }

  lemma {:induction false} RepeatedIsProduct(n: nat, a: real)
    ensures Repeated(n, a) == n as real * a
  {
    if n > 0 {
      RepeatedIsProduct(n - 1, a);
      assert (n - 1) as real * a + a == n as real * a;
    }
  }

  /** Numerics and Sum grow one row at a time, as the loops that compute them do. */
  lemma NumericsSnoc(col: seq<Cell>, i: int)
    requires 0 <= i < |col|
    ensures IsNumber(col[i]) ==> Numerics(col[..i + 1]) == Numerics(col[..i]) + [NumberValue(col[i])]
    ensures !IsNumber(col[i]) ==> Numerics(col[..i + 1]) == Numerics(col[..i])
  {
    assert col[..i + 1][..i] == col[..i];
    assert Numerics(col[..i]) + [] == Numerics(col[..i]);
  }

  lemma SumSnoc(xs: seq<real>, i: int)
    requires 0 <= i < |xs|
    ensures Sum(xs[..i + 1]) == Sum(xs[..i]) + xs[i]
  {
    assert xs[..i + 1][..i] == xs[..i];
  }

  lemma SumAppend(xs: seq<real>, x: real)
    ensures Sum(xs + [x]) == Sum(xs) + x
  {
    assert (xs + [x])[..|xs|] == xs;
  }

  lemma {:induction false} NumericsLength(col: seq<Cell>)
    ensures |Numerics(col)| <= |col|
  {
    if col != [] {
      NumericsLength(col[..|col| - 1]);
    }
  }

  /** Every value of Numerics(col) comes from a Number cell of col. */
  lemma {:induction false} NumericsFromCells(col: seq<Cell>, x: real)
    requires x in Numerics(col)
    ensures exists i :: 0 <= i < |col| && IsNumber(col[i]) && NumberValue(col[i]) == x
  {
    var init := col[..|col| - 1];
    if x in Numerics(init) {
      NumericsFromCells(init, x);
      var i :| 0 <= i < |init| && IsNumber(init[i]) && NumberValue(init[i]) == x;
      assert col[i] == init[i];
    } else {
      assert IsNumber(col[|col| - 1]) && NumberValue(col[|col| - 1]) == x;
    }
  }

  /** The UTF-16 code units Java stores for one character: one unit below
      U+10000, otherwise a high and a low surrogate. */
  function CodeUnits(c: char): (u: seq<int>)
    ensures |u| == 1 || |u| == 2
    ensures |u| == 1 <==> (c as int) < 0x1_0000
    ensures |u| == 2 ==> 0xD800 <= u[0] < 0xDC00 <= u[1] < 0xE000
  {
    var v := c as int;
    if v < 0x1_0000 then [v]
    else [0xD800 + (v - 0x1_0000) / 0x400, 0xDC00 + (v - 0x1_0000) % 0x400]
  }

  /** A Java string's contents: the code units of its characters in turn. */
  function Utf16(s: string): seq<int> {
    if s == [] then [] else CodeUnits(s[0]) + Utf16(s[1..])
  }

  /** Lexicographic order on code units, a proper prefix first. */
  predicate UnitsLe(x: seq<int>, y: seq<int>) {
    if x == [] then true
    else if y == [] then false
    else if x[0] != y[0] then x[0] < y[0]
    else UnitsLe(x[1..], y[1..])
  }

  /** `String.compareTo(y) <= 0`, which compares UTF-16 code units. */
  predicate StrLe(x: string, y: string) {
    UnitsLe(Utf16(x), Utf16(y))
  }

  lemma {:induction false} UnitsLeTotal(x: seq<int>, y: seq<int>)
    ensures UnitsLe(x, y) || UnitsLe(y, x)
  {
    if x != [] && y != [] && x[0] == y[0] {
      UnitsLeTotal(x[1..], y[1..]);
    }
  }

  lemma {:induction false} UnitsLeTransitive(x: seq<int>, y: seq<int>, z: seq<int>)
    requires UnitsLe(x, y) && UnitsLe(y, z)
    ensures UnitsLe(x, z)
  {
    if x != [] && y != [] && z != [] && x[0] == y[0] && y[0] == z[0] {
      UnitsLeTransitive(x[1..], y[1..], z[1..]);
    }
  }

  lemma StrLeTotal(x: string, y: string)
    ensures StrLe(x, y) || StrLe(y, x)
  {
    UnitsLeTotal(Utf16(x), Utf16(y));
  }

  lemma StrLeTransitive(x: string, y: string, z: string)
    requires StrLe(x, y) && StrLe(y, z)
    ensures StrLe(x, z)
  {
    UnitsLeTransitive(Utf16(x), Utf16(y), Utf16(z));
  }

  /** Code-unit order is not code-point order: a character above U+FFFF
      starts with a surrogate, which sorts before U+E000..U+FFFF. */
  lemma SurrogateSortsFirst()
    ensures StrLe("\U{10000}", "\U{E000}") && !StrLe("\U{E000}", "\U{10000}")
    ensures '\U{10000}' > '\U{E000}'
  {
    assert Utf16("\U{10000}") == [0xD800, 0xDC00];
    assert Utf16("\U{E000}") == [0xE000];
  }

  /** The rank that orders cells of different kinds; Java refuses to compare
      such cells, so this order is used only where they are all of one kind. */
  function KindRank(c: Cell): nat {
    match c
    case IntV(_) => 0
    case RealV(_) => 1
    case StrV(_) => 2
    case Null => 3
  }

  /** `a.compareTo(b) <= 0` for cells of one kind. */
  predicate CellLe(a: Cell, b: Cell) {
    match (a, b)
    case (IntV(x), IntV(y)) => x <= y
    case (RealV(x), RealV(y)) => x <= y
    case (StrV(x), StrV(y)) => StrLe(x, y)
    case _ => KindRank(a) <= KindRank(b)
  }

  /** Ascending order uses `v1.compareTo(v2)`, descending `v2.compareTo(v1)`. */
  function CellOrder(ascending: bool): (Cell, Cell) -> bool {
    if ascending then CellLe else (a: Cell, b: Cell) => CellLe(b, a)
  }

  /** The comparator never throws on this column: fewer than two cells are
      never compared, otherwise all cells are non-null and of one class. */
  predicate MutuallyComparable(col: seq<Cell>) {
    |col| < 2 || forall i :: 0 <= i < |col| ==> !col[i].Null? && KindRank(col[i]) == KindRank(col[0])
  }

  lemma CellOrderTotal(ascending: bool)
    ensures TotalPreorder(CellOrder(ascending))
  {
    forall a: Cell, b: Cell ensures CellLe(a, b) || CellLe(b, a) {
      if a.StrV? && b.StrV? {
        StrLeTotal(a.s, b.s);
      }
    }
    forall a: Cell, b: Cell, c: Cell | CellLe(a, b) && CellLe(b, c) ensures CellLe(a, c) {
      if a.StrV? && b.StrV? && c.StrV? {
        StrLeTransitive(a.s, b.s, c.s);
      }
    }
  }
}
