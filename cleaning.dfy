/**
 * Column-wise cleaning transformations: `fillna`, `astype(str).str.strip()`,
 * the "N/A" replacement of numbers in text columns, `pd.to_numeric`,
 * `pd.to_datetime` and `strftime`, placeholder replacement, and
 * `ffill`/`bfill`, together with the loop over all columns that the
 * workflows run them in.
 */
module Cleaning {
  import opened Wrappers
  import opened Text
  import opened Tables
  import opened ColumnStats

  /** How `pd.to_datetime` is asked to read a column. */
  datatype DateSpec = Inferred | DayFirst | WithFormat(pattern: string)

  /**
   * The conversions pandas performs internally, which this model does not
   * reimplement: `str()` of a float and of a Timestamp (neither starts or
   * ends with whitespace), `pd.to_numeric` of a string (None when it is
   * coerced to NaN) and of a Timestamp, `pd.to_datetime` of a number or a
   * string (None for NaT), and `strftime`.
   */
  datatype Codec = Codec(
    showNumber: real -> string,
    showInstant: int -> string,
    parseNumber: string -> Option<real>,
    instantNumber: int -> real,
    parseDate: (Cell, DateSpec) -> Option<int>,
    formatInstant: (int, string) -> string)

  /** `str(x)` of a cell, as `astype(str)` produces it. */
  function TextOf(codec: Codec, k: Kind, c: Cell): string {
    match c
    case Missing => if k == Datetime then "NaT" else "nan"
    case Num(x) => codec.showNumber(x)
    case Str(s) => s
    case Date(i) => codec.showInstant(i)
  }

  /** `pd.to_numeric(x, errors='coerce')` of one cell. */
  function ToNumber(codec: Codec, c: Cell): (r: Cell)
    ensures Fits(Numeric, r)
  {
    match c
    case Missing => Missing
    case Num(x) => c
    case Str(s) => (match codec.parseNumber(s) case Some(x) => Num(x) case None => Missing)
    case Date(i) => Num(codec.instantNumber(i))
  }

  /** `pd.to_datetime(x, errors='coerce')` of one cell: missing stays NaT, a timestamp stays itself. */
  function ToInstant(codec: Codec, c: Cell, spec: DateSpec): Option<int> {
    match c
    case Missing => None
    case Date(i) => Some(i)
    case _ => codec.parseDate(c, spec)
  }

  // ---------------------------------------------------------------------
  // One column

  /** `Series.fillna(v)`: missing cells take `v`, every other cell is kept. */
  function FillCells(cells: seq<Cell>, v: Cell): (r: seq<Cell>)
    ensures |r| == |cells|
  {
    seq(|cells|, i requires 0 <= i < |cells| => if cells[i].Missing? then v else cells[i])
  }

  /** Filling with a value leaves no missing cell and keeps every present cell. */
  lemma FillCellsEffect(cells: seq<Cell>, v: Cell)
    requires !v.Missing?
    ensures forall i :: 0 <= i < |cells| ==> !FillCells(cells, v)[i].Missing?
    ensures forall i :: 0 <= i < |cells| && !cells[i].Missing? ==> FillCells(cells, v)[i] == cells[i]
  {
  }

  /** The dtype after `fillna(v)`: a value the dtype cannot hold turns the column into `object`. */
  function FillKind(k: Kind, cells: seq<Cell>, v: Cell): Kind {
    if Fits(k, v) || forall i :: 0 <= i < |cells| ==> !cells[i].Missing? then k else Object
  }

  lemma FillFits(k: Kind, cells: seq<Cell>, v: Cell)
    requires forall i :: 0 <= i < |cells| ==> Fits(k, cells[i])
    ensures forall i :: 0 <= i < |cells| ==> Fits(FillKind(k, cells, v), FillCells(cells, v)[i])
  {
  }

  /** `fillna(mean)`: nothing changes when the column has no number (the mean is NaN). */
  function FillWithMean(cells: seq<Cell>): seq<Cell> {
    match Mean(cells)
    case Some(m) => FillCells(cells, Num(m))
    case None => cells
  }

  /** `astype(str).str.strip()`. */
  function StripCells(codec: Codec, k: Kind, cells: seq<Cell>): (r: seq<Cell>)
    ensures |r| == |cells|
    ensures forall i :: 0 <= i < |r| ==> r[i].Str? && !HasEdgeWhitespace(r[i])
  {
    seq(|cells|, i requires 0 <= i < |cells| => Str(Strip(TextOf(codec, k, cells[i]))))
  }

  /** `apply(lambda x: text if isinstance(x, (int, float)) else x)` on an object column. */
  function NumbersToText(cells: seq<Cell>, text: string): (r: seq<Cell>)
    ensures |r| == |cells|
    ensures forall i :: 0 <= i < |r| ==> !IsFloatLike(r[i])
  {
    seq(|cells|, i requires 0 <= i < |cells| => if IsFloatLike(cells[i]) then Str(text) else cells[i])
  }

  /** `pd.to_numeric(column, errors='coerce')`. */
  function CoerceCells(codec: Codec, cells: seq<Cell>): (r: seq<Cell>)
    ensures |r| == |cells|
    ensures forall i :: 0 <= i < |r| ==> Fits(Numeric, r[i])
  {
    seq(|cells|, i requires 0 <= i < |cells| => ToNumber(codec, cells[i]))
  }

  /** On a column that already holds only numbers, coercion changes nothing. */
  lemma CoerceNumbersUnchanged(codec: Codec, cells: seq<Cell>)
    requires forall i :: 0 <= i < |cells| ==> Fits(Numeric, cells[i])
    ensures CoerceCells(codec, cells) == cells
  {
  }

  /** `pd.to_datetime(column, errors='coerce')`. */
  function ParseCells(codec: Codec, cells: seq<Cell>, spec: DateSpec): (r: seq<Cell>)
    ensures |r| == |cells|
    ensures forall i :: 0 <= i < |r| ==> Fits(Datetime, r[i])
  {
    seq(|cells|, i requires 0 <= i < |cells| =>
      match ToInstant(codec, cells[i], spec) case Some(t) => Date(t) case None => Missing)
  }

  /** `pd.to_datetime(column, errors='coerce').dt.strftime(pattern)`: NaT becomes NaN. */
  function ReformatCells(codec: Codec, cells: seq<Cell>, spec: DateSpec, pattern: string): (r: seq<Cell>)
    ensures |r| == |cells|
    ensures forall i :: 0 <= i < |r| ==> r[i].Missing? || r[i].Str?
  {
    seq(|cells|, i requires 0 <= i < |cells| =>
      match ToInstant(codec, cells[i], spec)
      case Some(t) => Str(codec.formatInstant(t, pattern))
      case None => Missing)
  }

  /** `replace(placeholders, NA)`: a string cell equal to a placeholder becomes missing. */
  function ReplaceCells(cells: seq<Cell>, placeholders: seq<string>): (r: seq<Cell>)
    ensures |r| == |cells|
  {
    seq(|cells|, i requires 0 <= i < |cells| =>
      if cells[i].Str? && cells[i].text in placeholders then Missing else cells[i])
  }

  /** Exactly the cells equal to a placeholder become missing; all others are kept. */
  lemma ReplaceCellsEffect(cells: seq<Cell>, placeholders: seq<string>)
    ensures forall i :: 0 <= i < |cells| ==>
              (ReplaceCells(cells, placeholders)[i] != cells[i] <==> cells[i].Str? && cells[i].text in placeholders)
    ensures forall i :: 0 <= i < |cells| ==>
              (ReplaceCells(cells, placeholders)[i].Missing? <==>
                 cells[i].Missing? || (cells[i].Str? && cells[i].text in placeholders))
  {
  }

  /** Replacing one placeholder after another is replacing all of them at once. */
  lemma {:induction false} ReplaceCellsStep(cells: seq<Cell>, placeholders: seq<string>, p: string)
    ensures ReplaceCells(ReplaceCells(cells, placeholders), [p]) == ReplaceCells(cells, placeholders + [p])
  {
  }

  /**
   * `[p.strip() for p in text.split(",")]`: the placeholders typed into the
   * text box; each is free of commas and of edge whitespace.
   */
  function ParsePlaceholders(text: string): (ps: seq<string>)
    ensures |ps| >= 1
    ensures forall k :: 0 <= k < |ps| ==> ',' !in ps[k] && !EdgeWhitespace(ps[k])
  {
    var parts := Split(text, ',');
    forall k | 0 <= k < |parts| ensures ',' !in Strip(parts[k]) {
      StripKeepsCharacters(parts[k], ',');
    }
    seq(|parts|, k requires 0 <= k < |parts| => Strip(parts[k]))
  }

  /**
   * Placeholders without commas or edge whitespace, typed joined by commas,
   * are read back exactly.
   */
  lemma ParsePlaceholdersJoin(ps: seq<string>)
    requires |ps| >= 1
    requires forall k :: 0 <= k < |ps| ==> ',' !in ps[k] && !EdgeWhitespace(ps[k])
    ensures ParsePlaceholders(Join(ps, ",")) == ps
  {
    SplitJoin(ps, ',');
  }

  /** The text box's default "None,null,NA" gives the three placeholders. */
  lemma DefaultPlaceholderText()
    ensures ParsePlaceholders("None,null,NA") == ["None", "null", "NA"]
  {
    var ps := ["None", "null", "NA"];
    assert Join(ps, ",") == "None,null,NA";
    ParsePlaceholdersJoin(ps);
  }

  // ---------------------------------------------------------------------
  // The loop over all columns

  /** Which column names the date actions select (`in col.lower()`). */
  datatype NameTest = DateOrYear | DateOrTime | DateOnly

  predicate Selects(test: NameTest, name: string) {
    var n := Lower(name);
    match test
    case DateOrYear => Contains(n, "date") || Contains(n, "year")
    case DateOrTime => Contains(n, "date") || Contains(n, "time")
    case DateOnly => Contains(n, "date")
  }

  /** A transformation the workflows apply to every column they select. */
  datatype ColumnOp =
    | FillNumericMean                                  // numeric columns: fillna(mean)
    | FillNumericMeanIn(columns: seq<string>)          // numeric columns named in `columns`: fillna(mean)
    | FillNonNumeric(text: string)                     // non-numeric columns: fillna(text)
    | TrimAll                                          // every column: astype(str).str.strip()
    | NumbersToNA(text: string)                        // non-numeric columns: numbers become `text`
    | CoerceNumeric                                    // numeric columns: to_numeric(errors='coerce')
    | ReplacePlaceholders(placeholders: seq<string>)   // every column: replace(placeholders, NA)
    | FillForwardBackward                              // every column: ffill() then bfill()
    | ParseDates(test: NameTest, spec: DateSpec)       // selected columns: to_datetime
    | ReformatDates(test: NameTest, spec: DateSpec, pattern: string)  // selected: to_datetime, strftime

  /** The new dtype and cells of one column under `op`. */
  function ApplyColumnOp(op: ColumnOp, codec: Codec, name: string, k: Kind, cells: seq<Cell>): (r: (Kind, seq<Cell>))
    requires forall i :: 0 <= i < |cells| ==> Fits(k, cells[i])
    ensures |r.1| == |cells|
    ensures forall i :: 0 <= i < |cells| ==> Fits(r.0, r.1[i])
  {
    match op
    case FillNumericMean =>
      if k == Numeric then (k, FillWithMean(cells)) else (k, cells)
    case FillNumericMeanIn(columns) =>
      if k == Numeric && name in columns then (k, FillWithMean(cells)) else (k, cells)
    case FillNonNumeric(text) =>
      if k == Numeric then (k, cells) else (FillKind(k, cells, Str(text)), FillCells(cells, Str(text)))
    case TrimAll =>
      (Object, StripCells(codec, k, cells))
    case NumbersToNA(text) =>
      if k == Object then (k, NumbersToText(cells, text)) else (k, cells)
    case CoerceNumeric =>
      if k == Numeric then (Numeric, CoerceCells(codec, cells)) else (k, cells)
    case ReplacePlaceholders(ps) =>
      (k, ReplaceCells(cells, ps))
    case FillForwardBackward =>
      FillsStayInColumn(k, cells);
      (k, BackwardFill(ForwardFill(cells)))
    case ParseDates(test, spec) =>
      if Selects(test, name) then (Datetime, ParseCells(codec, cells, spec)) else (k, cells)
    case ReformatDates(test, spec, pattern) =>
      if Selects(test, name) then (Object, ReformatCells(codec, cells, spec, pattern)) else (k, cells)
  }

  /** Forward and backward fill only copy values within a column, so they keep its dtype. */
  lemma FillsStayInColumn(k: Kind, cells: seq<Cell>)
    requires forall i :: 0 <= i < |cells| ==> Fits(k, cells[i])
    ensures forall i :: 0 <= i < |cells| ==> Fits(k, BackwardFill(ForwardFill(cells))[i])
  {
    var f := ForwardFill(cells);
    assert forall i :: 0 <= i < |cells| ==> Fits(k, f[i]);
  }

  /** The table after applying `op` to its first `n` columns, one column after another. */
  function MapColumns(t: Table, op: ColumnOp, codec: Codec, n: nat): (r: Table)
    requires WellFormed(t) && n <= |t.names|
    ensures WellFormed(r) && r.names == t.names && |r.rows| == |t.rows|
  {
    if n == 0 then t
    else
      var prev := MapColumns(t, op, codec, n - 1);
      var j := n - 1;
      var c := ApplyColumnOp(op, codec, prev.names[j], prev.kinds[j], Column(prev, j));
      SetColumn(prev, j, c.1, c.0)
  }

  /** Columns the loop has not reached yet are untouched. */
  lemma {:induction false} MapColumnsPending(t: Table, op: ColumnOp, codec: Codec, n: nat, j: nat)
    requires WellFormed(t) && n <= j < |t.names|
    ensures var r := MapColumns(t, op, codec, n);
            r.kinds[j] == t.kinds[j] && Column(r, j) == Column(t, j)
  {
    if n > 0 {
      MapColumnsPending(t, op, codec, n - 1, j);
      MapColumnsKeeps(t, op, codec, n, j);
    }
  }

  /** After the loop has passed column `j`, it holds `op` applied to the original column. */
  lemma {:induction false} MapColumnsDone(t: Table, op: ColumnOp, codec: Codec, n: nat, j: nat)
    requires WellFormed(t) && j < n <= |t.names|
    ensures var r := MapColumns(t, op, codec, n);
            var c := ApplyColumnOp(op, codec, t.names[j], t.kinds[j], Column(t, j));
            r.kinds[j] == c.0 && Column(r, j) == c.1
  {
    if j == n - 1 {
      MapColumnsPending(t, op, codec, n - 1, j);
    } else {
      MapColumnsDone(t, op, codec, n - 1, j);
      MapColumnsKeeps(t, op, codec, n, j);
    }
  }

  /** One more turn of the loop keeps every column but column `n - 1`. */
  lemma MapColumnsKeeps(t: Table, op: ColumnOp, codec: Codec, n: nat, j: nat)
    requires WellFormed(t) && 0 < n <= |t.names| && j < |t.names| && j != n - 1
    ensures var prev := MapColumns(t, op, codec, n - 1);
            var r := MapColumns(t, op, codec, n);
            r.kinds[j] == prev.kinds[j] && Column(r, j) == Column(prev, j)
  {
  }

  /** The whole-table form of `op`: every column transformed. */
  function MapAllColumns(t: Table, op: ColumnOp, codec: Codec): (r: Table)
    requires WellFormed(t)
    ensures WellFormed(r) && r.names == t.names && |r.rows| == |t.rows|
    ensures forall j :: 0 <= j < |t.names| ==>
              r.kinds[j] == ApplyColumnOp(op, codec, t.names[j], t.kinds[j], Column(t, j)).0 &&
              Column(r, j) == ApplyColumnOp(op, codec, t.names[j], t.kinds[j], Column(t, j)).1
  {
    var r := MapColumns(t, op, codec, |t.names|);
    forall j | 0 <= j < |t.names|
      ensures r.kinds[j] == ApplyColumnOp(op, codec, t.names[j], t.kinds[j], Column(t, j)).0 &&
              Column(r, j) == ApplyColumnOp(op, codec, t.names[j], t.kinds[j], Column(t, j)).1
    {
      MapColumnsDone(t, op, codec, |t.names|, j);
    }
    r
  }

  /** The whole-table form is the column loop run to the last column. */
  lemma MapAllIsMapColumns(t: Table, op: ColumnOp, codec: Codec)
    requires WellFormed(t)
    ensures MapAllColumns(t, op, codec) == MapColumns(t, op, codec, |t.names|)
  {
  }

  // ---------------------------------------------------------------------
  // What each whole-table operation achieves

  /**
   * "Fill with Mean": only numeric columns change, only in their missing
   * cells, and a numeric column holding a number has no missing cell left.
   */
  lemma FillMeanEffect(t: Table, codec: Codec)
    requires WellFormed(t)
    ensures var r := MapAllColumns(t, FillNumericMean, codec);
            r.kinds == t.kinds &&
            (forall j :: 0 <= j < |t.names| && t.kinds[j] != Numeric ==> Column(r, j) == Column(t, j)) &&
            (forall i, j :: 0 <= i < |t.rows| && 0 <= j < |t.names| && !t.rows[i][j].Missing? ==>
               r.rows[i][j] == t.rows[i][j]) &&
            (forall j :: 0 <= j < |t.names| && t.kinds[j] == Numeric && Mean(Column(t, j)).Some? ==>
               forall i :: 0 <= i < |t.rows| ==> !r.rows[i][j].Missing?)
  {
    var r := MapAllColumns(t, FillNumericMean, codec);
    forall i, j | 0 <= i < |t.rows| && 0 <= j < |t.names| && !t.rows[i][j].Missing?
      ensures r.rows[i][j] == t.rows[i][j]
    {
      assert Column(r, j)[i] == r.rows[i][j];
      assert Column(t, j)[i] == t.rows[i][j];
    }
    forall j | 0 <= j < |t.names| && t.kinds[j] == Numeric && Mean(Column(t, j)).Some?
      ensures forall i :: 0 <= i < |t.rows| ==> !r.rows[i][j].Missing?
    {
      forall i | 0 <= i < |t.rows| ensures !r.rows[i][j].Missing? {
        assert Column(r, j)[i] == r.rows[i][j];
      }
    }
  }

  /** "Fill with 'Missing'": no non-numeric column keeps a missing cell; numeric columns are untouched. */
  lemma FillNonNumericEffect(t: Table, codec: Codec, text: string)
    requires WellFormed(t)
    ensures var r := MapAllColumns(t, FillNonNumeric(text), codec);
            (forall j :: 0 <= j < |t.names| && t.kinds[j] == Numeric ==>
               r.kinds[j] == Numeric && Column(r, j) == Column(t, j)) &&
            (forall i, j :: 0 <= i < |t.rows| && 0 <= j < |t.names| && t.kinds[j] != Numeric ==>
               !r.rows[i][j].Missing?)
  {
    var r := MapAllColumns(t, FillNonNumeric(text), codec);
    forall i, j | 0 <= i < |t.rows| && 0 <= j < |t.names| && t.kinds[j] != Numeric
      ensures !r.rows[i][j].Missing?
    {
      assert Column(r, j)[i] == r.rows[i][j];
    }
  }

  /** Trimming every column leaves no edge-whitespace cell: the Whitespace Issues count drops to zero. */
  lemma TrimEffect(t: Table, codec: Codec)
    requires WellFormed(t)
    ensures WhitespaceCells(MapAllColumns(t, TrimAll, codec)) == 0
  {
    var r := MapAllColumns(t, TrimAll, codec);
    forall i, j | 0 <= i < |r.rows| && 0 <= j < |r.rows[i]| ensures !HasEdgeWhitespace(r.rows[i][j]) {
      assert Column(r, j)[i] == r.rows[i][j];
    }
    WhitespaceCellsZero(r);
  }

  /** Trimming twice is trimming once: the second pass finds only stripped strings. */
  lemma TrimIdempotent(t: Table, codec: Codec)
    requires WellFormed(t)
    ensures var once := MapAllColumns(t, TrimAll, codec);
            MapAllColumns(once, TrimAll, codec) == once
  {
    var once := MapAllColumns(t, TrimAll, codec);
    var twice := MapAllColumns(once, TrimAll, codec);
    forall j | 0 <= j < |once.names| ensures twice.kinds[j] == once.kinds[j] && Column(twice, j) == Column(once, j) {
      StripStable(codec, Column(once, j));
    }
    SameColumns(twice, once);
  }

  /** Stripping text that has no edge whitespace gives it back unchanged. */
  lemma StripStable(codec: Codec, cells: seq<Cell>)
    requires forall i :: 0 <= i < |cells| ==> cells[i].Str? && !HasEdgeWhitespace(cells[i])
    ensures StripCells(codec, Object, cells) == cells
  {
    forall i | 0 <= i < |cells| ensures StripCells(codec, Object, cells)[i] == cells[i] {
      assert !EdgeWhitespace(cells[i].text);
    }
  }

  /** Two tables with the same header, dtypes, height and columns are equal. */
  lemma SameColumns(a: Table, b: Table)
    requires WellFormed(a) && WellFormed(b)
    requires a.names == b.names && a.kinds == b.kinds && |a.rows| == |b.rows|
    requires forall j :: 0 <= j < |a.names| ==> Column(a, j) == Column(b, j)
    ensures a == b
  {
    forall i | 0 <= i < |a.rows| ensures a.rows[i] == b.rows[i] {
      forall j | 0 <= j < |a.names| ensures a.rows[i][j] == b.rows[i][j] {
        assert Column(a, j)[i] == a.rows[i][j];
        assert Column(b, j)[i] == b.rows[i][j];
      }
    }
  }

  /** Replacing numbers in non-numeric columns leaves the Numeric-in-Non-Numeric count at zero. */
  lemma NumbersToNAEffect(t: Table, codec: Codec, text: string)
    requires WellFormed(t)
    ensures NumbersInTextColumns(MapAllColumns(t, NumbersToNA(text), codec)) == 0
  {
    var r := MapAllColumns(t, NumbersToNA(text), codec);
    SumColumnsZero(r, NumbersInTextColumn, |r.names|);
    forall j | 0 <= j < |r.names| ensures NumbersInTextColumn(r.kinds[j], Column(r, j)) == 0 {
      NumbersToNAColumn(codec, text, t.names[j], t.kinds[j], Column(t, j));
    }
  }

  /** Replacing numbers in one column leaves none of its cells a number in a text column. */
  lemma NumbersToNAColumn(codec: Codec, text: string, name: string, k: Kind, cells: seq<Cell>)
    requires forall i :: 0 <= i < |cells| ==> Fits(k, cells[i])
    ensures var c := ApplyColumnOp(NumbersToNA(text), codec, name, k, cells);
            NumbersInTextColumn(c.0, c.1) == 0
  {
    if k == Datetime {
      assert forall i :: 0 <= i < |cells| ==> !IsNum(cells[i]);
    }
  }

  /**
   * Coercing numeric columns leaves the Non-Numeric-in-Numeric count at
   * zero; as a numeric dtype already holds only numbers, it changes nothing.
   */
  lemma CoerceEffect(t: Table, codec: Codec)
    requires WellFormed(t)
    ensures MapAllColumns(t, CoerceNumeric, codec) == t
    ensures NonNumbersInNumericColumns(MapAllColumns(t, CoerceNumeric, codec)) == 0
  {
    var r := MapAllColumns(t, CoerceNumeric, codec);
    forall j | 0 <= j < |t.names| ensures Column(r, j) == Column(t, j) {
      if t.kinds[j] == Numeric {
        CoerceNumbersUnchanged(codec, Column(t, j));
      }
    }
    SameColumns(r, t);
    NonNumbersInNumericColumnsZero(r);
  }

  /** Placeholder replacement: exactly the cells equal to a placeholder become missing, nothing else changes. */
  lemma PlaceholderEffect(t: Table, codec: Codec, ps: seq<string>)
    requires WellFormed(t)
    ensures var r := MapAllColumns(t, ReplacePlaceholders(ps), codec);
            r.kinds == t.kinds &&
            forall i, j :: 0 <= i < |t.rows| && 0 <= j < |t.names| ==>
              r.rows[i][j] == if t.rows[i][j].Str? && t.rows[i][j].text in ps then Missing else t.rows[i][j]
  {
    var r := MapAllColumns(t, ReplacePlaceholders(ps), codec);
    forall i, j | 0 <= i < |t.rows| && 0 <= j < |t.names|
      ensures r.rows[i][j] == if t.rows[i][j].Str? && t.rows[i][j].text in ps then Missing else t.rows[i][j]
    {
      assert Column(r, j)[i] == r.rows[i][j];
      assert Column(t, j)[i] == t.rows[i][j];
    }
  }

  /**
   * Forward then backward fill: every column with a value has no missing
   * cell left, and present cells are kept.
   */
  lemma ForwardBackwardEffect(t: Table, codec: Codec)
    requires WellFormed(t)
    ensures var r := MapAllColumns(t, FillForwardBackward, codec);
            r.kinds == t.kinds &&
            (forall i, j :: 0 <= i < |t.rows| && 0 <= j < |t.names| && !t.rows[i][j].Missing? ==>
               r.rows[i][j] == t.rows[i][j]) &&
            (forall j :: 0 <= j < |t.names| && HasValueIn(t, j) ==>
               forall i :: 0 <= i < |t.rows| ==> !r.rows[i][j].Missing?)
  {
    var r := MapAllColumns(t, FillForwardBackward, codec);
    forall i, j | 0 <= i < |t.rows| && 0 <= j < |t.names| && !t.rows[i][j].Missing?
      ensures r.rows[i][j] == t.rows[i][j]
    {
      var c := Column(t, j);
      ForwardBackwardFill(c);
      assert c[i] == t.rows[i][j];
      assert Column(r, j)[i] == r.rows[i][j];
    }
    forall j | 0 <= j < |t.names| && HasValueIn(t, j)
      ensures forall i :: 0 <= i < |t.rows| ==> !r.rows[i][j].Missing?
    {
      var c := Column(t, j);
      var w :| 0 <= w < |t.rows| && !t.rows[w][j].Missing?;
      assert !c[w].Missing?;
      ForwardBackwardFill(c);
      forall i | 0 <= i < |t.rows| ensures !r.rows[i][j].Missing? {
        assert Column(r, j)[i] == r.rows[i][j];
      }
    }
  }
}
