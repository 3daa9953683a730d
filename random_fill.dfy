/**
 * The random fills of numeric columns. Randomness is a nondeterministic
 * choice from the stated candidates: `random.choice(non_null)` draws from
 * the column's numbers, `pd.Series([col_min, col_max]).sample(1)` from its
 * two extremes; some workflows draw once per column (`fillna`), others once
 * per missing cell (`apply`).
 */
module RandomFill {
  import opened Wrappers
  import opened Tables
  import opened ColumnStats
  import opened Cleaning
  import opened Frames

  /** Where the candidates of a draw come from. */
  datatype Pool =
    | NonNull    // `dataset[col].dropna()`: every number of the column, repeats included
    | Extremes   // `pd.Series([col_min, col_max])`

  /** How often a fill draws. */
  datatype Draw =
    | PerColumn  // one draw fills every missing cell of the column
    | PerCell    // a fresh draw for every missing cell

  /**
   * The candidates of a column; none when it holds no number (the minimum
   * and maximum are then NaN, and filling with NaN changes nothing).
   */
  function Candidates(pool: Pool, cells: seq<Cell>): (xs: seq<real>)
    ensures forall k :: 0 <= k < |xs| ==> Num(xs[k]) in cells
    ensures xs == [] <==> Numbers(cells) == []
  {
    match pool
    case NonNull => Numbers(cells)
    case Extremes =>
      match MinMax(cells)
      case None => []
      case Some(p) => [p.0, p.1]
  }

  /** `r` is `cells` after a fill drawing from `xs`. */
  predicate FilledFrom(cells: seq<Cell>, r: seq<Cell>, xs: seq<real>, draw: Draw) {
    |r| == |cells| &&
    if xs == [] then r == cells
    else
      match draw
      case PerColumn => exists k :: 0 <= k < |xs| && r == FillCells(cells, Num(xs[k]))
      case PerCell =>
        forall i :: 0 <= i < |cells| ==>
          if cells[i].Missing? then r[i].Num? && r[i].value in xs else r[i] == cells[i]
  }

  /**
   * One column filled by draws from `xs`, each draw taken by position
   * among the candidates.
   */
  method DrawFill(cells: seq<Cell>, xs: seq<real>, draw: Draw) returns (r: seq<Cell>)
    ensures FilledFrom(cells, r, xs, draw)
  {
    if xs == [] {
      return cells;
    }
    match draw {
      case PerColumn =>
        var k: nat :| k < |xs|;
        r := FillCells(cells, Num(xs[k]));
      case PerCell =>
        r := [];
        for i := 0 to |cells|
          invariant |r| == i
          invariant forall l :: 0 <= l < i ==>
                      if cells[l].Missing? then r[l].Num? && r[l].value in xs else r[l] == cells[l]
        {
          if cells[i].Missing? {
            var k: nat :| k < |xs|;
            r := r + [Num(xs[k])];
          } else {
            r := r + [cells[i]];
          }
        }
    }
  }

  /** A fill of a numeric column keeps it numeric. */
  lemma FilledFits(cells: seq<Cell>, r: seq<Cell>, xs: seq<real>, draw: Draw)
    requires forall i :: 0 <= i < |cells| ==> Fits(Numeric, cells[i])
    requires FilledFrom(cells, r, xs, draw)
    ensures forall i :: 0 <= i < |r| ==> Fits(Numeric, r[i])
  {
    if xs != [] && draw.PerColumn? {
      var k :| 0 <= k < |xs| && r == FillCells(cells, Num(xs[k]));
    }
  }

  /**
   * `t` is `t0` with every target column filled from its own candidates
   * and every other column as it was.
   */
  predicate RandomlyFilled(t0: Table, t: Table, targets: seq<bool>, pool: Pool, draw: Draw)
    requires WellFormed(t0) && WellFormed(t) && |targets| == |t0.names|
  {
    t.names == t0.names && t.kinds == t0.kinds && |t.rows| == |t0.rows| &&
    forall j :: 0 <= j < |t0.names| ==>
      if targets[j] then FilledFrom(Column(t0, j), Column(t, j), Candidates(pool, Column(t0, j)), draw)
      else Column(t, j) == Column(t0, j)
  }

  /** The loop over the columns, filling each target column in place. */
  method RandomFillColumns(df: Frame, targets: seq<bool>, pool: Pool, draw: Draw)
    requires df.Valid() && |targets| == |df.names|
    requires forall j :: 0 <= j < |targets| && targets[j] ==> df.kinds[j] == Numeric
    modifies df
    ensures df.Valid() && RandomlyFilled(old(df.Value()), df.Value(), targets, pool, draw)
  {
    ghost var t0 := df.Value();
    for j := 0 to |targets|
      invariant df.Valid() && df.names == t0.names && df.kinds == t0.kinds && |df.rows| == |t0.rows|
      invariant forall l :: 0 <= l < |t0.names| ==>
                  if l < j && targets[l] then
                    FilledFrom(Column(t0, l), Column(df.Value(), l), Candidates(pool, Column(t0, l)), draw)
                  else Column(df.Value(), l) == Column(t0, l)
    {
      if targets[j] {
        var cells := Column(df.Value(), j);
        var filled := DrawFill(cells, Candidates(pool, cells), draw);
        FilledFits(cells, filled, Candidates(pool, cells), draw);
        df.AssignColumn(j, filled, Numeric);
        assert df.kinds == t0.kinds;
      }
    }
  }

  /** The numeric columns of a table: the columns `is_numeric_dtype` accepts. */
  function NumericColumns(t: Table): (m: seq<bool>)
    ensures |m| == |t.kinds| && forall j :: 0 <= j < |t.kinds| ==> (m[j] <==> t.kinds[j] == Numeric)
  {
    seq(|t.kinds|, j requires 0 <= j < |t.kinds| => t.kinds[j] == Numeric)
  }

  /**
   * After a random fill every present cell is kept, every changed cell is
   * a missing cell of a target column that now holds a number already in
   * that column, a target column with a value has no missing cell left,
   * and a single draw gives all missing cells of a column the same value.
   */
  lemma RandomFillEffect(t0: Table, t: Table, targets: seq<bool>, pool: Pool, draw: Draw)
    requires WellFormed(t0) && WellFormed(t) && |targets| == |t0.names|
    requires forall j :: 0 <= j < |targets| && targets[j] ==> t0.kinds[j] == Numeric
    requires RandomlyFilled(t0, t, targets, pool, draw)
    ensures forall i, j :: 0 <= i < |t0.rows| && 0 <= j < |t0.names| && !t0.rows[i][j].Missing? ==>
              t.rows[i][j] == t0.rows[i][j]
    ensures forall i, j :: 0 <= i < |t0.rows| && 0 <= j < |t0.names| && t.rows[i][j] != t0.rows[i][j] ==>
              targets[j] && t0.rows[i][j].Missing? && t.rows[i][j].Num? && t.rows[i][j] in Column(t0, j)
    ensures forall i, j :: 0 <= i < |t0.rows| && 0 <= j < |t0.names| && targets[j] && HasValueIn(t0, j) ==>
              !t.rows[i][j].Missing?
    ensures draw == PerColumn ==>
              forall i, i', j ::
                0 <= i < |t0.rows| && 0 <= i' < |t0.rows| && 0 <= j < |t0.names| &&
                t0.rows[i][j].Missing? && t0.rows[i'][j].Missing? ==>
                  t.rows[i][j] == t.rows[i'][j]
  {
    forall i, j | 0 <= i < |t0.rows| && 0 <= j < |t0.names| && !t0.rows[i][j].Missing?
      ensures t.rows[i][j] == t0.rows[i][j]
    {
      CellFilled(t0, t, targets, pool, draw, i, j);
    }
    forall i, j | 0 <= i < |t0.rows| && 0 <= j < |t0.names| && t.rows[i][j] != t0.rows[i][j]
      ensures targets[j] && t0.rows[i][j].Missing? && t.rows[i][j].Num? && t.rows[i][j] in Column(t0, j)
    {
      CellFilled(t0, t, targets, pool, draw, i, j);
    }
    forall i, j | 0 <= i < |t0.rows| && 0 <= j < |t0.names| && targets[j] && HasValueIn(t0, j)
      ensures !t.rows[i][j].Missing?
    {
      CellFilled(t0, t, targets, pool, draw, i, j);
    }
    if draw == PerColumn {
      forall i, i', j | 0 <= i < |t0.rows| && 0 <= i' < |t0.rows| && 0 <= j < |t0.names| &&
                        t0.rows[i][j].Missing? && t0.rows[i'][j].Missing?
        ensures t.rows[i][j] == t.rows[i'][j]
      {
        var c0, c := Column(t0, j), Column(t, j);
        assert c0[i] == t0.rows[i][j] && c0[i'] == t0.rows[i'][j];
        assert c[i] == t.rows[i][j] && c[i'] == t.rows[i'][j];
      }
    }
  }

  /** What a random fill does to one cell. */
  lemma CellFilled(t0: Table, t: Table, targets: seq<bool>, pool: Pool, draw: Draw, i: nat, j: nat)
    requires WellFormed(t0) && WellFormed(t) && |targets| == |t0.names|
    requires forall j :: 0 <= j < |targets| && targets[j] ==> t0.kinds[j] == Numeric
    requires RandomlyFilled(t0, t, targets, pool, draw)
    requires i < |t0.rows| && j < |t0.names|
    ensures !t0.rows[i][j].Missing? ==> t.rows[i][j] == t0.rows[i][j]
    ensures t.rows[i][j] != t0.rows[i][j] ==>
              targets[j] && t0.rows[i][j].Missing? && t.rows[i][j].Num? && t.rows[i][j] in Column(t0, j)
    ensures targets[j] && HasValueIn(t0, j) ==> !t.rows[i][j].Missing?
  {
    var c0, c := Column(t0, j), Column(t, j);
    var xs := Candidates(pool, c0);
    assert c0[i] == t0.rows[i][j] && c[i] == t.rows[i][j];
    if targets[j] && xs != [] {
      match draw
      case PerColumn =>
        var k :| 0 <= k < |xs| && c == FillCells(c0, Num(xs[k]));
      case PerCell =>
        if c0[i].Missing? {
          var x := c[i].value;
          var k :| 0 <= k < |xs| && xs[k] == x;
          assert Num(xs[k]) in c0;
        }
    }
    if targets[j] && HasValueIn(t0, j) {
      var i0 :| 0 <= i0 < |t0.rows| && j < |t0.rows[i0]| && !t0.rows[i0][j].Missing?;
      assert c0[i0] == t0.rows[i0][j];
      assert c0[i0].value in Numbers(c0);
    }
  }

  // ---------------------------------------------------------------------
  // `random.choice(non_null)` as written

  /**
   * `random.choice(non_null)` draws `k < len(non_null)` and evaluates
   * `non_null[k]`; on an integer index that is a lookup by LABEL, and the
   * labels of `non_null` are the row positions of the column's numbers, so
   * a draw naming a row whose cell was missing raises KeyError (None).
   */
  function PickByLabel(cells: seq<Cell>, k: nat): (r: Option<real>)
    requires k < |Numbers(cells)|
    ensures r.Some? ==> Num(r.value) in cells
    ensures r.None? <==> !cells[k].Num?
  {
    if cells[k].Num? then Some(cells[k].value) else None
  }

  /**
   * A column whose first cell is missing and whose only number is in the
   * second row: every possible draw raises, although the column has a value
   * to draw. `DrawFill`, which draws by position, always finds one.
   */
  lemma LabelPickRaises()
    ensures var cells := [Missing, Num(5.0)];
            Numbers(cells) == [5.0] &&
            (forall k :: 0 <= k < |Numbers(cells)| ==> PickByLabel(cells, k).None?)
  {
    var cells := [Missing, Num(5.0)];
    assert cells[..1] == [Missing];
    assert [Missing][..0] == [];
    assert Numbers([Missing]) == [];
  }
}
