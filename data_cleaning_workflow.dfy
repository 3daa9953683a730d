/**
 * The standalone `data_cleaning_workflow` (`data_cleaning_workflow.py`):
 * chosen placeholder strings become missing, missing values are handled
 * column by column, and duplicate rows are removed on request. Every step
 * changes the DataFrame in place.
 */
module DataCleaningWorkflow {
  import opened Seqs
  import opened Tables
  import opened Cleaning
  import opened TableOps
  import opened Frames
  import opened RandomFill

  /** The multiselect's options, all selected by default. */
  const DefaultPlaceholders: seq<string> := ["None", "null", "NA", "N/A", "-"]

  // ---------------------------------------------------------------------
  // Placeholders

  /** Replacing no placeholder changes nothing. */
  lemma ReplaceNothing(t: Table, codec: Codec)
    requires WellFormed(t)
    ensures MapAllColumns(t, ReplacePlaceholders([]), codec) == t
  {
    var r := MapAllColumns(t, ReplacePlaceholders([]), codec);
    forall j | 0 <= j < |t.names| ensures Column(r, j) == Column(t, j) {
      var c := Column(t, j);
      assert forall i :: 0 <= i < |c| ==> ReplaceCells(c, [])[i] == c[i];
    }
    SameColumns(r, t);
  }

  /** Replacing placeholders one after another is replacing them all at once. */
  lemma ReplaceOneMore(t: Table, codec: Codec, ps: seq<string>, p: string)
    requires WellFormed(t)
    ensures MapAllColumns(MapAllColumns(t, ReplacePlaceholders(ps), codec), ReplacePlaceholders([p]), codec) ==
            MapAllColumns(t, ReplacePlaceholders(ps + [p]), codec)
  {
    var once := MapAllColumns(t, ReplacePlaceholders(ps), codec);
    var twice := MapAllColumns(once, ReplacePlaceholders([p]), codec);
    var all := MapAllColumns(t, ReplacePlaceholders(ps + [p]), codec);
    forall j | 0 <= j < |t.names| ensures Column(twice, j) == Column(all, j) {
      ReplaceCellsStep(Column(t, j), ps, p);
    }
    SameColumns(twice, all);
  }

  /**
   * `for placeholder in selected: dataset.replace(placeholder, pd.NA,
   * inplace=True)`: the frame ends with every cell equal to a selected
   * placeholder missing and every other cell as it was.
   */
  method ReplaceSelectedPlaceholders(df: Frame, selected: seq<string>, codec: Codec)
    requires df.Valid()
    modifies df
    ensures df.Valid() && df.Value() == MapAllColumns(old(df.Value()), ReplacePlaceholders(selected), codec)
  {
    ghost var t0 := df.Value();
    ReplaceNothing(t0, codec);
    for i := 0 to |selected|
      invariant df.Valid() && df.Value() == MapAllColumns(t0, ReplacePlaceholders(selected[..i]), codec)
    {
      ReplaceOneMore(t0, codec, selected[..i], selected[i]);
      df.MapColumnsInPlace(ReplacePlaceholders([selected[i]]), codec);
      assert selected[..i + 1] == selected[..i] + [selected[i]];
    }
    assert selected[..|selected|] == selected;
  }

  // ---------------------------------------------------------------------
  // Missing values

  /** The options of the radio button. */
  datatype Handling = FillRandom | FillMean | LeaveNaN | DropRows

  /** Column `j` of the current table has a missing cell (`dataset[col].isnull().any()`). */
  predicate MissingInColumnAt(t: Table, j: nat)
    requires WellFormed(t) && j < |t.names|
  {
    exists i :: 0 <= i < |t.rows| && t.rows[i][j].Missing?
  }

  /** The columns the random fill touches: numeric, and holding a missing cell. */
  function NumericWithMissing(t: Table): (m: seq<bool>)
    requires WellFormed(t)
    ensures |m| == |t.names|
    ensures forall j :: 0 <= j < |t.names| ==> (m[j] <==> t.kinds[j] == Numeric && MissingInColumnAt(t, j))
  {
    seq(|t.names|, j requires 0 <= j < |t.names| => t.kinds[j] == Numeric && MissingInColumnAt(t, j))
  }

  /** The row has no missing cell among its first `n`. */
  predicate CompleteBefore(n: nat, r: Row) {
    forall j :: 0 <= j < n && j < |r| ==> !r[j].Missing?
  }

  /** After `dropna(subset=[col])` for the columns before `j`, one more column extends the prefix. */
  lemma DropStep(t: Table, j: nat)
    requires WellFormed(t)
    ensures DropRowsMissingIn(FilterRows(t, (r: Row) => CompleteBefore(j, r)), [j]) ==
            FilterRows(t, (r: Row) => CompleteBefore(j + 1, r))
  {
    forall r: Row ensures CompleteBefore(j + 1, r) == (CompleteBefore(j, r) && CompleteIn([j], r)) {
      if CompleteBefore(j, r) && CompleteIn([j], r) {
        assert [j][0] == j;
      }
    }
    FilterFilter(t.rows, (r: Row) => CompleteBefore(j, r), (r: Row) => CompleteIn([j], r),
                 (r: Row) => CompleteBefore(j + 1, r));
  }

  /** `dropna(subset=[col])` on a column with no missing cell keeps every row. */
  lemma DropNothing(t: Table, j: nat)
    requires WellFormed(t) && j < |t.names| && !MissingInColumnAt(t, j)
    ensures DropRowsMissingIn(t, [j]) == t
  {
    FilterAll(t.rows, (r: Row) => CompleteIn([j], r));
  }

  /** Before any column nothing is dropped; after all of them exactly the incomplete rows are. */
  lemma DropEnds(t: Table)
    requires WellFormed(t)
    ensures FilterRows(t, (r: Row) => CompleteBefore(0, r)) == t
    ensures FilterRows(t, (r: Row) => CompleteBefore(|t.names|, r)) == DropIncompleteRows(t)
  {
    FilterAll(t.rows, (r: Row) => CompleteBefore(0, r));
    FilterSame(t.rows, (r: Row) => CompleteBefore(|t.names|, r), RowComplete);
  }

  /**
   * "Drop Rows": for each column holding a missing cell, `dropna(subset=
   * [col])`; the rows left are exactly the complete ones.
   */
  method DropRowsColumnByColumn(df: Frame)
    requires df.Valid()
    modifies df
    ensures df.Valid() && df.Value() == DropIncompleteRows(old(df.Value()))
  {
    ghost var t0 := df.Value();
    DropEnds(t0);
    for j := 0 to |df.names|
      invariant df.Valid() && df.Value() == FilterRows(t0, (r: Row) => CompleteBefore(j, r))
    {
      DropStep(t0, j);
      if MissingInColumnAt(df.Value(), j) {
        df.Assign(DropRowsMissingIn(df.Value(), [j]));
      } else {
        DropNothing(df.Value(), j);
      }
    }
  }

  /**
   * "Handle Missing Values", run only when some cell is missing: the random
   * fill draws one of a numeric column's minimum and maximum for all its
   * missing cells; the mean fill uses the column's mean (a column without a
   * missing cell is left as it is, which both fills also do); dropping
   * keeps the complete rows; non-numeric columns change only by dropping.
   */
  method HandleMissingValues(df: Frame, option: Handling, codec: Codec)
    requires df.Valid()
    modifies df
    ensures df.Valid()
    ensures NoMissingCell(old(df.Value())) || option == LeaveNaN ==> df.Value() == old(df.Value())
    ensures !NoMissingCell(old(df.Value())) && option == FillRandom ==>
              RandomlyFilled(old(df.Value()), df.Value(), NumericWithMissing(old(df.Value())), Extremes, PerColumn)
    ensures !NoMissingCell(old(df.Value())) && option == FillMean ==>
              df.Value() == MapAllColumns(old(df.Value()), FillNumericMean, codec)
    ensures !NoMissingCell(old(df.Value())) && option == DropRows ==>
              df.Value() == DropIncompleteRows(old(df.Value()))
  {
    if NoMissingCell(df.Value()) {
      return;
    }
    match option {
      case FillRandom =>
        RandomFillColumns(df, NumericWithMissing(df.Value()), Extremes, PerColumn);
      case FillMean =>
        df.MapColumnsInPlace(FillNumericMean, codec);
      case LeaveNaN =>
      case DropRows =>
        DropRowsColumnByColumn(df);
    }
  }

  /** With nothing missing, dropping rows keeps the whole table: the guard loses nothing. */
  lemma GuardIsHarmless(t: Table)
    requires WellFormed(t) && NoMissingCell(t)
    ensures DropIncompleteRows(t) == t
  {
    FilterAll(t.rows, RowComplete);
  }
}
