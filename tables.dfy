/**
 * The abstract table every variant of the data-health engine works on: a
 * pandas DataFrame as column names, column dtypes and rows of cells, with
 * the column-wise scans the pre-checks and the quality score are made of.
 */
module Tables {
  import opened Seqs
  import opened Text

  /** The dtype families the engine tells apart (`is_numeric_dtype`, `object`, `datetime64[ns]`). */
  datatype Kind = Numeric | Object | Datetime

  /** One cell: NaN/NaT (missing), a number, a string, or a timestamp (an abstract instant). */
  datatype Cell = Missing | Num(value: real) | Str(text: string) | Date(instant: int)

  type Row = seq<Cell>

  datatype Table = Table(names: seq<string>, kinds: seq<Kind>, rows: seq<Row>)

  /** What a column of the given dtype can hold. */
  predicate Fits(k: Kind, c: Cell) {
    match k
    case Numeric => c.Missing? || c.Num?
    case Datetime => c.Missing? || c.Date?
    case Object => true
  }

  /** One dtype per column, every row as wide as the header, every cell fitting its column's dtype. */
  predicate WellFormed(t: Table) {
    |t.kinds| == |t.names| &&
    (forall i :: 0 <= i < |t.rows| ==> |t.rows[i]| == |t.names|) &&
    (forall i, j :: 0 <= i < |t.rows| && 0 <= j < |t.rows[i]| ==> Fits(t.kinds[j], t.rows[i][j]))
  }

  /** `dataset[col]` for the column at position `j`. */
  function Column(t: Table, j: nat): (c: seq<Cell>)
    requires WellFormed(t) && j < |t.names|
    ensures |c| == |t.rows|
    ensures forall i :: 0 <= i < |t.rows| ==> c[i] == t.rows[i][j]
    ensures forall i :: 0 <= i < |c| ==> Fits(t.kinds[j], c[i])
  {
    seq(|t.rows|, i requires 0 <= i < |t.rows| => t.rows[i][j])
  }

  /** `dataset[col] = cells`, with the dtype pandas infers for the new values. */
  function SetColumn(t: Table, j: nat, cells: seq<Cell>, k: Kind): (r: Table)
    requires WellFormed(t) && j < |t.names| && |cells| == |t.rows|
    requires forall i :: 0 <= i < |cells| ==> Fits(k, cells[i])
    ensures WellFormed(r)
    ensures r.names == t.names && r.kinds == t.kinds[j := k] && |r.rows| == |t.rows|
    ensures Column(r, j) == cells
    ensures forall l :: 0 <= l < |t.names| && l != j ==> Column(r, l) == Column(t, l)
  {
    var r := Table(t.names, t.kinds[j := k],
                   seq(|t.rows|, i requires 0 <= i < |t.rows| => t.rows[i][j := cells[i]]));
    assert forall l :: 0 <= l < |t.names| && l != j ==> Column(r, l) == Column(t, l) by {
      forall l | 0 <= l < |t.names| && l != j ensures Column(r, l) == Column(t, l) {
      }
    }
    r
  }

  /** `dataset.index` position lookup by name: the first column called `name`. */
  function IndexOfName(names: seq<string>, name: string): (j: nat)
    requires name in names
    ensures j < |names| && names[j] == name && name !in names[..j]
  {
    if names[0] == name then 0
    else
      assert names == [names[0]] + names[1..];
      var j := IndexOfName(names[1..], name);
      assert names[..j + 1] == [names[0]] + names[1..][..j];
      j + 1
  }

  // ---------------------------------------------------------------------
  // Cell tests

  /** `pd.isnull(x)`. */
  predicate IsMissing(c: Cell) { c.Missing? }

  predicate IsNum(c: Cell) { c.Num? }

  /**
   * `astype(str).str.contains(r"^\s|\s$")`: only a string cell can match;
   * `str()` of a number, of NaN ("nan") or of a timestamp never starts or
   * ends with whitespace.
   */
  predicate HasEdgeWhitespace(c: Cell) {
    c.Str? && EdgeWhitespace(c.text)
  }

  /**
   * `isinstance(x, (int, float))` for a cell of an object column: numbers,
   * and NaN, which is a float.
   */
  predicate IsFloatLike(c: Cell) { c.Num? || c.Missing? }

  /** `not isinstance(x, (int, float)) and pd.notnull(x)`. */
  predicate IsNonNumberValue(c: Cell) { c.Str? || c.Date? }

  // ---------------------------------------------------------------------
  // Python types of cells (`dataset[col].apply(type)`)

  datatype PyType = FloatType | StrType | TimestampType | NaTType

  /** `type(x)` of a cell: a missing value is a float NaN except in a datetime column, where it is NaT. */
  function TypeOf(k: Kind, c: Cell): PyType {
    match c
    case Num(_) => FloatType
    case Str(_) => StrType
    case Date(_) => TimestampType
    case Missing => if k == Datetime then NaTType else FloatType
  }

  /** `set(dataset[col].apply(type).unique())`. */
  function Types(k: Kind, cells: seq<Cell>): set<PyType> {
    if cells == [] then {}
    else Types(k, cells[..|cells| - 1]) + {TypeOf(k, cells[|cells| - 1])}
  }

  lemma {:induction false} TypesMembers(k: Kind, cells: seq<Cell>)
    ensures forall ty :: ty in Types(k, cells) <==> exists i :: 0 <= i < |cells| && TypeOf(k, cells[i]) == ty
  {
    if cells != [] {
      var n := |cells| - 1;
      TypesMembers(k, cells[..n]);
      forall ty | ty in Types(k, cells) ensures exists i :: 0 <= i < |cells| && TypeOf(k, cells[i]) == ty {
        if ty != TypeOf(k, cells[n]) {
          assert Types(k, cells) == Types(k, cells[..n]) + {TypeOf(k, cells[n])};
          assert ty in Types(k, cells[..n]);
          var i :| 0 <= i < n && TypeOf(k, cells[..n][i]) == ty;
          assert TypeOf(k, cells[i]) == ty;
        }
      }
      forall ty | exists i :: 0 <= i < |cells| && TypeOf(k, cells[i]) == ty ensures ty in Types(k, cells) {
        var i :| 0 <= i < |cells| && TypeOf(k, cells[i]) == ty;
        if i < n {
          assert cells[..n][i] == cells[i];
        }
      }
    }
  }

  /** `len(dataset[col].apply(type).unique()) == 1`. */
  predicate SingleTyped(k: Kind, cells: seq<Cell>) {
    |Types(k, cells)| == 1
  }

  /** `len(dataset[col].apply(type).unique()) > 1`. */
  predicate MixedTypes(k: Kind, cells: seq<Cell>) {
    |Types(k, cells)| > 1
  }

  /**
   * A column has a single Python type exactly when it is not empty and every
   * cell has the type of the first, and mixed exactly when some cell has
   * another type; an empty column is neither.
   */
  lemma SingleTypedIff(k: Kind, cells: seq<Cell>)
    ensures SingleTyped(k, cells) <==> cells != [] && forall i :: 0 <= i < |cells| ==> TypeOf(k, cells[i]) == TypeOf(k, cells[0])
    ensures MixedTypes(k, cells) <==> exists i :: 0 <= i < |cells| && TypeOf(k, cells[i]) != TypeOf(k, cells[0])
  {
    TypesMembers(k, cells);
    var s := Types(k, cells);
    if cells == [] {
      assert s == {};
    } else {
      var t0 := TypeOf(k, cells[0]);
      assert t0 in s;
      if forall i :: 0 <= i < |cells| ==> TypeOf(k, cells[i]) == t0 {
        assert s == {t0};
      } else {
        var i :| 0 <= i < |cells| && TypeOf(k, cells[i]) != t0;
        var t1 := TypeOf(k, cells[i]);
        assert {t0, t1} <= s;
        assert |{t0, t1}| == 2;
        SubsetCard({t0, t1}, s);
      }
    }
  }

  lemma SubsetCard<T>(a: set<T>, b: set<T>)
    requires a <= b
    ensures |a| <= |b|
  {
    assert b == a + (b - a);
  }

  // ---------------------------------------------------------------------
  // Column-wise sums

  /** `sum(f(dataset[col]) for col in dataset.columns[:n])`. */
  function SumColumns(t: Table, f: (Kind, seq<Cell>) -> nat, n: nat): nat
    requires WellFormed(t) && n <= |t.names|
  {
    if n == 0 then 0 else SumColumns(t, f, n - 1) + f(t.kinds[n - 1], Column(t, n - 1))
  }

  /** A sum over columns is zero exactly when every term is. */
  lemma {:induction false} SumColumnsZero(t: Table, f: (Kind, seq<Cell>) -> nat, n: nat)
    requires WellFormed(t) && n <= |t.names|
    ensures SumColumns(t, f, n) == 0 <==> forall j :: 0 <= j < n ==> f(t.kinds[j], Column(t, j)) == 0
  {
    if n > 0 {
      SumColumnsZero(t, f, n - 1);
    }
  }

  function MissingInColumn(k: Kind, cells: seq<Cell>): nat { Count(cells, IsMissing) }

  function WhitespaceInColumn(k: Kind, cells: seq<Cell>): nat { Count(cells, HasEdgeWhitespace) }

  /** Cells of a non-numeric column that are `isinstance(x, (int, float))`; NaT is not a float. */
  function NumbersInTextColumn(k: Kind, cells: seq<Cell>): nat {
    match k
    case Numeric => 0
    case Object => Count(cells, IsFloatLike)
    case Datetime => Count(cells, IsNum)
  }

  /** Non-null cells of a numeric column that are not `int`/`float`. */
  function NonNumbersInNumericColumn(k: Kind, cells: seq<Cell>): nat {
    if k == Numeric then Count(cells, IsNonNumberValue) else 0
  }

  function MixedColumn(k: Kind, cells: seq<Cell>): nat {
    if MixedTypes(k, cells) then 1 else 0
  }

  function SingleTypedColumn(k: Kind, cells: seq<Cell>): nat {
    if SingleTyped(k, cells) then 1 else 0
  }

  /** `dataset.isnull().sum().sum()`. */
  function BlankCells(t: Table): nat
    requires WellFormed(t)
  {
    SumColumns(t, MissingInColumn, |t.names|)
  }

  /** Edge-whitespace cells over all columns. */
  function WhitespaceCells(t: Table): nat
    requires WellFormed(t)
  {
    SumColumns(t, WhitespaceInColumn, |t.names|)
  }

  /** Numbers (and NaN) in non-numeric columns. */
  function NumbersInTextColumns(t: Table): nat
    requires WellFormed(t)
  {
    SumColumns(t, NumbersInTextColumn, |t.names|)
  }

  /** Non-number values in numeric columns. */
  function NonNumbersInNumericColumns(t: Table): nat
    requires WellFormed(t)
  {
    SumColumns(t, NonNumbersInNumericColumn, |t.names|)
  }

  /** Columns holding more than one Python type. */
  function MixedTypeColumns(t: Table): nat
    requires WellFormed(t)
  {
    SumColumns(t, MixedColumn, |t.names|)
  }

  /** Columns holding exactly one Python type. */
  function SingleTypedColumns(t: Table): nat
    requires WellFormed(t)
  {
    SumColumns(t, SingleTypedColumn, |t.names|)
  }

  /** `dataset.duplicated().sum()`: rows equal to an earlier row (NaN equals NaN). */
  function DuplicateRows(t: Table): nat {
    RepeatCount(t.rows)
  }

  /** Column `j` holds at least one present cell. */
  predicate HasValueIn(t: Table, j: nat) {
    exists i :: 0 <= i < |t.rows| && j < |t.rows[i]| && !t.rows[i][j].Missing?
  }

  /** No cell of the table is missing. */
  predicate NoMissingCell(t: Table) {
    forall i, j :: 0 <= i < |t.rows| && 0 <= j < |t.rows[i]| ==> !t.rows[i][j].Missing?
  }

  /** No cell of the table has edge whitespace. */
  predicate NoEdgeWhitespace(t: Table) {
    forall i, j :: 0 <= i < |t.rows| && 0 <= j < |t.rows[i]| ==> !HasEdgeWhitespace(t.rows[i][j])
  }

  /** A column-wise count is zero exactly when no cell of the table passes the test. */
  lemma CellCountZero(t: Table, f: (Kind, seq<Cell>) -> nat, p: Cell -> bool)
    requires WellFormed(t)
    requires forall k, cells :: f(k, cells) == Count(cells, p)
    ensures SumColumns(t, f, |t.names|) == 0 <==>
            forall i, j :: 0 <= i < |t.rows| && 0 <= j < |t.names| ==> !p(t.rows[i][j])
  {
    SumColumnsZero(t, f, |t.names|);
    if SumColumns(t, f, |t.names|) == 0 {
      forall i, j | 0 <= i < |t.rows| && 0 <= j < |t.names| ensures !p(t.rows[i][j]) {
        assert f(t.kinds[j], Column(t, j)) == Count(Column(t, j), p) == 0;
        assert Column(t, j)[i] == t.rows[i][j];
      }
    } else {
      var j :| 0 <= j < |t.names| && f(t.kinds[j], Column(t, j)) != 0;
      assert Count(Column(t, j), p) != 0;
      var i :| 0 <= i < |t.rows| && p(Column(t, j)[i]);
    }
  }

  /** Blank Cells is zero exactly when no cell is missing. */
  lemma BlankCellsZero(t: Table)
    requires WellFormed(t)
    ensures BlankCells(t) == 0 <==> NoMissingCell(t)
  {
    CellCountZero(t, MissingInColumn, IsMissing);
  }

  /** Whitespace Issues is zero exactly when no cell has edge whitespace. */
  lemma WhitespaceCellsZero(t: Table)
    requires WellFormed(t)
    ensures WhitespaceCells(t) == 0 <==> NoEdgeWhitespace(t)
  {
    CellCountZero(t, WhitespaceInColumn, HasEdgeWhitespace);
  }

  /**
   * A numeric dtype holds only numbers and NaN, so the "Non-Numeric in
   * Numeric Columns" count is zero for every table.
   */
  lemma NonNumbersInNumericColumnsZero(t: Table)
    requires WellFormed(t)
    ensures NonNumbersInNumericColumns(t) == 0
  {
    SumColumnsZero(t, NonNumbersInNumericColumn, |t.names|);
    forall j | 0 <= j < |t.names| ensures NonNumbersInNumericColumn(t.kinds[j], Column(t, j)) == 0 {
      if t.kinds[j] == Numeric {
        var c := Column(t, j);
        assert forall i :: 0 <= i < |c| ==> !IsNonNumberValue(c[i]);
      }
    }
  }

  /** `isinstance(x, (int, float))` in a column excluded by `select_dtypes(include=["number"])`. */
  predicate NumberInTextCell(k: Kind, c: Cell) {
    (k == Object && IsFloatLike(c)) || (k == Datetime && IsNum(c))
  }

  /**
   * Numeric in Non-Numeric Columns is zero exactly when no object column
   * holds a number or NaN (a datetime column cannot hold a number).
   */
  lemma NumbersInTextColumnsZero(t: Table)
    requires WellFormed(t)
    ensures NumbersInTextColumns(t) == 0 <==>
            forall i, j :: 0 <= i < |t.rows| && 0 <= j < |t.names| ==> !NumberInTextCell(t.kinds[j], t.rows[i][j])
  {
    SumColumnsZero(t, NumbersInTextColumn, |t.names|);
    forall j | 0 <= j < |t.names|
      ensures NumbersInTextColumn(t.kinds[j], Column(t, j)) == 0 <==>
              forall i :: 0 <= i < |t.rows| ==> !NumberInTextCell(t.kinds[j], t.rows[i][j])
    {
      NumbersInTextColumnZero(t.kinds[j], Column(t, j));
    }
  }

  /** One column's count is zero exactly when none of its cells is a number in a text column. */
  lemma NumbersInTextColumnZero(k: Kind, cells: seq<Cell>)
    ensures NumbersInTextColumn(k, cells) == 0 <==> forall i :: 0 <= i < |cells| ==> !NumberInTextCell(k, cells[i])
  {
  }

  /** A sum of 0/1 indicators is at most the number of terms, and equal to it exactly when every term is 1. */
  lemma {:induction false} IndicatorSum(t: Table, f: (Kind, seq<Cell>) -> nat, n: nat)
    requires WellFormed(t) && n <= |t.names|
    requires forall k, cells :: f(k, cells) <= 1
    ensures SumColumns(t, f, n) <= n
    ensures SumColumns(t, f, n) == n <==> forall j :: 0 <= j < n ==> f(t.kinds[j], Column(t, j)) == 1
  {
    if n > 0 {
      IndicatorSum(t, f, n - 1);
    }
  }
}
