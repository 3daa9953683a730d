/**
 * The local pre-check workflow of 6 January 2025
 * (`dataset_precheck_workflow_local_working_060125.py`): two issue counts,
 * and cleaning branches chosen by On/Off toggles, of which the first one
 * switched on wins. This revision logs nothing.
 */
module Workflow060125 {
  import opened Tables
  import opened Cleaning
  import opened TableOps
  import opened Frames
  import opened RandomFill

  /** The `issue_summary` dictionary: "Blank Cells" and "Whitespace Issues". */
  datatype IssueSummary = IssueSummary(blank: nat, whitespace: nat)

  function RunPrecheck(t: Table): (s: IssueSummary)
    requires WellFormed(t)
    ensures s.blank == 0 <==> NoMissingCell(t)
    ensures s.whitespace == 0 <==> NoEdgeWhitespace(t)
  {
    BlankCellsZero(t);
    WhitespaceCellsZero(t);
    IssueSummary(BlankCells(t), WhitespaceCells(t))
  }

  /** "No issues detected" is shown exactly when both counts are zero. */
  predicate ReportsNoIssues(s: IssueSummary) {
    s.blank == 0 && s.whitespace == 0
  }

  /** The success message appears exactly for a table with no missing cell and no edge whitespace. */
  lemma NoIssuesIff(t: Table)
    requires WellFormed(t)
    ensures ReportsNoIssues(RunPrecheck(t)) <==> NoMissingCell(t) && NoEdgeWhitespace(t)
  {
  }

  /**
   * "Execute Cleaning for Blank Cells" with the three toggles: the random
   * fill if it is on (one of each numeric column's minimum and maximum
   * fills all its missing cells), else the mean fill if it is on, else
   * nothing ("Leave as NaN" only shows a message); at most one fill runs.
   */
  method HandleBlankCells(df: Frame, fillRandom: bool, fillMean: bool, codec: Codec)
    requires df.Valid()
    modifies df
    ensures df.Valid()
    ensures fillRandom ==>
              RandomlyFilled(old(df.Value()), df.Value(), NumericColumns(old(df.Value())), Extremes, PerColumn)
    ensures !fillRandom && fillMean ==> df.Value() == MapAllColumns(old(df.Value()), FillNumericMean, codec)
    ensures !fillRandom && !fillMean ==> df.Value() == old(df.Value())
  {
    if fillRandom {
      RandomFillColumns(df, NumericColumns(df.Value()), Extremes, PerColumn);
    } else if fillMean {
      df.MapColumnsInPlace(FillNumericMean, codec);
    }
  }

  /**
   * "Execute Cleaning for Whitespace Issues": trimming, if on, rewrites
   * every column of the frame as stripped text and wins over row removal;
   * row removal rebinds the local `dataset`, so the frame is unchanged and
   * the table previewed and downloaded afterwards (`view`) holds exactly
   * the rows without edge whitespace.
   */
  method HandleWhitespace(df: Frame, trim: bool, removeRows: bool, codec: Codec) returns (view: Table)
    requires df.Valid()
    modifies df
    ensures df.Valid()
    ensures trim ==> df.Value() == MapAllColumns(old(df.Value()), TrimAll, codec) && view == df.Value()
    ensures !trim ==> df.Value() == old(df.Value())
    ensures !trim && removeRows ==> view == DropWhitespaceRows(old(df.Value()))
    ensures !trim && !removeRows ==> view == old(df.Value())
  {
    if trim {
      df.MapColumnsInPlace(TrimAll, codec);
      view := df.Value();
    } else if removeRows {
      view := FilterWhitespaceRowsByColumn(df.Value());
    } else {
      view := df.Value();
    }
  }

  /** What the whitespace branch leaves behind: no edge whitespace, whichever toggle ran. */
  lemma WhitespaceBranchCleans(t: Table, trim: bool, codec: Codec)
    requires WellFormed(t)
    ensures trim ==> NoEdgeWhitespace(MapAllColumns(t, TrimAll, codec))
    ensures !trim ==> NoEdgeWhitespace(DropWhitespaceRows(t))
  {
    if trim {
      TrimEffect(t, codec);
      WhitespaceCellsZero(MapAllColumns(t, TrimAll, codec));
    } else {
      var _ := DropWhitespaceRowsEffect(t);
    }
  }
}
