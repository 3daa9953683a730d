/**
 * The data quality score of the Smart Data Health Center: a 0.4/0.3/0.3
 * blend of the share of present cells, the share of non-duplicate rows and
 * the share of single-typed columns, times 100, and its colour band.
 */
module HealthScore {
  import opened Wrappers
  import opened Tables

  /** `sum(dataset[col].isnull().mean() for the first n columns)` for a table with rows. */
  function RatioSum(t: Table, n: nat): real
    requires WellFormed(t) && n <= |t.names| && |t.rows| > 0
  {
    if n == 0 then 0.0
    else RatioSum(t, n - 1) + MissingInColumn(t.kinds[n - 1], Column(t, n - 1)) as real / |t.rows| as real
  }

  /** The per-column missing ratios add up to the missing cells over the height. */
  lemma {:induction false} RatioSumIsShare(t: Table, n: nat)
    requires WellFormed(t) && n <= |t.names| && |t.rows| > 0
    ensures RatioSum(t, n) == SumColumns(t, MissingInColumn, n) as real / |t.rows| as real
  {
    if n > 0 {
      RatioSumIsShare(t, n - 1);
      var h := |t.rows| as real;
      var prev := SumColumns(t, MissingInColumn, n - 1) as real;
      var last := MissingInColumn(t.kinds[n - 1], Column(t, n - 1)) as real;
      DivAdd(prev, last, h);
    }
  }

  lemma DivAdd(a: real, b: real, h: real)
    requires h > 0.0
    ensures a / h + b / h == (a + b) / h
  {
    var x, y := a / h, b / h;
    assert x * h == a && y * h == b;
    assert (x + y) * h == a + b;
  }

  lemma DivDiv(b: real, h: real, w: real)
    requires h > 0.0 && w > 0.0
    ensures (b / h) / w == b / (h * w)
  {
    var x := b / h;
    var y := x / w;
    assert x * h == b && y * w == x;
    assert y * (h * w) == b;
  }

  /** For 0 <= a <= b with b > 0, a / b lies in [0, 1], is 0 only for a = 0 and 1 only for a = b. */
  lemma DivUnit(a: real, b: real)
    requires 0.0 <= a <= b && b > 0.0
    ensures 0.0 <= a / b <= 1.0
    ensures a / b == 0.0 <==> a == 0.0
    ensures a / b == 1.0 <==> a == b
  {
    var q := a / b;
    assert q * b == a;
  }

  /** A column-wise count whose terms never exceed the height is at most width times height. */
  lemma {:induction false} SumColumnsBound(t: Table, f: (Kind, seq<Cell>) -> nat, n: nat)
    requires WellFormed(t) && n <= |t.names|
    requires forall k, cells :: f(k, cells) <= |cells|
    ensures SumColumns(t, f, n) <= n * |t.rows|
  {
    if n > 0 {
      SumColumnsBound(t, f, n - 1);
      assert f(t.kinds[n - 1], Column(t, n - 1)) <= |t.rows|;
    }
  }

  /**
   * `1 - dataset.isnull().mean().mean()`: one minus the share of missing
   * cells; it is 1 exactly when no cell is missing.
   */
  function MissingMetric(t: Table): (m: real)
    requires WellFormed(t) && |t.rows| > 0 && |t.names| > 0
    ensures m == 1.0 - BlankCells(t) as real / (|t.rows| * |t.names|) as real
    ensures 0.0 <= m <= 1.0
    ensures m == 1.0 <==> NoMissingCell(t)
  {
    MissingShare(t);
    1.0 - RatioSum(t, |t.names|) / |t.names| as real
  }

  /** The mean of the per-column missing ratios is the share of missing cells, a value in [0, 1]. */
  lemma MissingShare(t: Table)
    requires WellFormed(t) && |t.rows| > 0 && |t.names| > 0
    ensures RatioSum(t, |t.names|) / |t.names| as real == BlankCells(t) as real / (|t.rows| * |t.names|) as real
    ensures 0.0 <= BlankCells(t) as real / (|t.rows| * |t.names|) as real <= 1.0
    ensures BlankCells(t) as real / (|t.rows| * |t.names|) as real == 0.0 <==> NoMissingCell(t)
  {
    RatioSumIsShare(t, |t.names|);
    SumColumnsBound(t, MissingInColumn, |t.names|);
    CellShare(BlankCells(t), |t.rows|, |t.names|);
    BlankCellsZero(t);
  }

  lemma CellShare(b: nat, h: nat, w: nat)
    requires h > 0 && w > 0 && b <= w * h
    ensures (b as real / h as real) / w as real == b as real / (h * w) as real
    ensures 0.0 <= b as real / (h * w) as real <= 1.0
    ensures b as real / (h * w) as real == 0.0 <==> b == 0
  {
    var hw := (h * w) as real;
    assert hw == h as real * w as real;
    DivDiv(b as real, h as real, w as real);
    DivUnit(b as real, hw);
  }

  /**
   * `1 - dataset.duplicated().sum() / len(dataset)` (0 subtracted for an
   * empty table): a table without rows scores a perfect 1.
   */
  function DuplicateMetric(t: Table): (d: real)
    ensures |t.rows| == 0 ==> d == 1.0
    ensures 0.0 <= d <= 1.0
    ensures d == 1.0 <==> DuplicateRows(t) == 0
  {
    1.0 - (if |t.rows| > 0 then
             DivUnit(DuplicateRows(t) as real, |t.rows| as real);
             DuplicateRows(t) as real / |t.rows| as real
           else 0.0)
  }

  /** Every column holds a single Python type. */
  predicate AllSingleTyped(t: Table)
    requires WellFormed(t)
  {
    forall j :: 0 <= j < |t.names| ==> SingleTyped(t.kinds[j], Column(t, j))
  }

  /**
   * The share of columns holding exactly one Python type: 0 for a table
   * without columns, 1 exactly when every column is single-typed.
   */
  function TypeConsistency(t: Table): (c: real)
    requires WellFormed(t)
    ensures |t.names| == 0 ==> c == 0.0
    ensures 0.0 <= c <= 1.0
    ensures |t.names| > 0 ==> (c == 1.0 <==> AllSingleTyped(t))
  {
    IndicatorSum(t, SingleTypedColumn, |t.names|);
    if |t.names| > 0 then
      DivUnit(SingleTypedColumns(t) as real, |t.names| as real);
      SingleTypedColumns(t) as real / |t.names| as real
    else 0.0
  }

  /**
   * `calculate_quality_score`: NaN (None) when the table has no row or no
   * column, since the mean missing ratio is then undefined; otherwise a
   * score in [0, 100] that is exactly 100 when no cell is missing, no row
   * repeats an earlier row and every column is single-typed.
   */
  function QualityScore(t: Table): (s: Option<real>)
    requires WellFormed(t)
    ensures s.None? <==> |t.rows| == 0 || |t.names| == 0
    ensures s.Some? ==> 0.0 <= s.value <= 100.0
    ensures s.Some? ==> (s.value == 100.0 <==> NoMissingCell(t) && DuplicateRows(t) == 0 && AllSingleTyped(t))
  {
    if |t.rows| == 0 || |t.names| == 0 then None
    else Some((MissingMetric(t) * 0.4 + DuplicateMetric(t) * 0.3 + TypeConsistency(t) * 0.3) * 100.0)
  }

  datatype Color = Green | Orange | Red

  /** `get_score_color`: NaN compares false with both bounds, so it is red. */
  function ScoreColor(s: Option<real>): Color {
    match s
    case None => Red
    case Some(x) => if x >= 80.0 then Green else if x >= 50.0 then Orange else Red
  }

  function ColorRank(c: Color): nat {
    match c
    case Red => 0
    case Orange => 1
    case Green => 2
  }

  /** A higher score never gets a worse colour, and a perfect table is green. */
  lemma ScoreColorMonotone(a: real, b: real)
    requires a <= b
    ensures ColorRank(ScoreColor(Some(a))) <= ColorRank(ScoreColor(Some(b)))
  {
  }

  lemma PerfectTableIsGreen(t: Table)
    requires WellFormed(t) && |t.rows| > 0 && |t.names| > 0
    requires NoMissingCell(t) && DuplicateRows(t) == 0 && AllSingleTyped(t)
    ensures QualityScore(t) == Some(100.0) && ScoreColor(QualityScore(t)) == Green
  {
  }
}
