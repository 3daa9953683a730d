/**
 * The local pre-check workflow of 13 January 2025
 * (`dataset_precheck_workflow_local130125.py`): `run_precheck` counts four
 * kinds of cell issue, and `run_cleaning_workflow` fixes them column by
 * column, appending a fixed sentence to the session's action log after each
 * executed action.
 */
module Workflow130125 {
  import opened Tables
  import opened Cleaning
  import opened TableOps
  import opened Frames
  import opened RandomFill

  /** The `issue_summary` dictionary of `run_precheck`. */
  datatype IssueSummary = IssueSummary(
    blank: nat,                // "Blank Cells"
    whitespace: nat,           // "Whitespace Issues"
    numbersInText: nat,        // "Numeric in Non-Numeric Columns"
    nonNumbersInNumeric: nat)  // "Non-Numeric in Numeric Columns"

  /**
   * The four counts: each is zero exactly when no cell shows that issue.
   * A numeric dtype holds nothing but numbers and NaN, so the last count is
   * always zero.
   */
  function RunPrecheck(t: Table): (s: IssueSummary)
    requires WellFormed(t)
    ensures s.blank == 0 <==> NoMissingCell(t)
    ensures s.whitespace == 0 <==> NoEdgeWhitespace(t)
    ensures s.numbersInText == 0 <==>
            forall i, j :: 0 <= i < |t.rows| && 0 <= j < |t.names| ==> !NumberInTextCell(t.kinds[j], t.rows[i][j])
    ensures s.nonNumbersInNumeric == 0
  {
    BlankCellsZero(t);
    WhitespaceCellsZero(t);
    NumbersInTextColumnsZero(t);
    NonNumbersInNumericColumnsZero(t);
    IssueSummary(BlankCells(t), WhitespaceCells(t), NumbersInTextColumns(t), NonNumbersInNumericColumns(t))
  }

  /** `any(issue_summary.values())` is false: the success message is shown. */
  predicate ReportsNoIssues(s: IssueSummary) {
    s.blank == 0 && s.whitespace == 0 && s.numbersInText == 0 && s.nonNumbersInNumeric == 0
  }

  /**
   * "No issues detected" exactly when no cell is missing, none has edge
   * whitespace and no object column holds a number (NaN already counts as
   * missing, so the third condition only adds numbers stored as objects).
   */
  lemma NoIssuesIff(t: Table)
    requires WellFormed(t)
    ensures ReportsNoIssues(RunPrecheck(t)) <==>
            NoMissingCell(t) && NoEdgeWhitespace(t) &&
            forall i, j :: 0 <= i < |t.rows| && 0 <= j < |t.names| && t.kinds[j] == Object ==> !t.rows[i][j].Num?
  {
    var s := RunPrecheck(t);
    if NoMissingCell(t) && NoEdgeWhitespace(t) &&
       forall i, j :: 0 <= i < |t.rows| && 0 <= j < |t.names| && t.kinds[j] == Object ==> !t.rows[i][j].Num? {
      forall i, j | 0 <= i < |t.rows| && 0 <= j < |t.names| ensures !NumberInTextCell(t.kinds[j], t.rows[i][j]) {
        assert Fits(t.kinds[j], t.rows[i][j]);
      }
    }
  }

  /** The options of the blank-cell radio button. */
  datatype BlankOption = FillRandom | FillMean | LeaveNaN

  /**
   * "Execute Cleaning for Blank Cells": a random fill draws one of a numeric
   * column's minimum and maximum and fills all its missing cells with it; a
   * mean fill uses the column's mean; leaving NaN changes nothing. One
   * sentence is logged in every case.
   */
  method HandleBlankCells(df: Frame, option: BlankOption, codec: Codec, log: ActionLog<string>)
    requires df.Valid()
    modifies df, log
    ensures df.Valid()
    ensures match option
            case FillRandom =>
              RandomlyFilled(old(df.Value()), df.Value(), NumericColumns(old(df.Value())), Extremes, PerColumn)
            case FillMean => df.Value() == MapAllColumns(old(df.Value()), FillNumericMean, codec)
            case LeaveNaN => df.Value() == old(df.Value())
    ensures log.entries == old(log.entries) + [match option
                                                case FillRandom => "Blank cells filled with random values."
                                                case FillMean => "Blank cells filled with mean/average."
                                                case LeaveNaN => "Blank cells left as NaN."]
  {
    match option {
      case FillRandom =>
        RandomFillColumns(df, NumericColumns(df.Value()), Extremes, PerColumn);
        log.Append("Blank cells filled with random values.");
      case FillMean =>
        df.MapColumnsInPlace(FillNumericMean, codec);
        log.Append("Blank cells filled with mean/average.");
      case LeaveNaN =>
        log.Append("Blank cells left as NaN.");
    }
  }

  /** The options of the whitespace radio button. */
  datatype WhitespaceOption = TrimWhitespaces | RemoveRowsWithWhitespaces

  /**
   * "Execute Cleaning for Whitespace Issues". Trimming rewrites every column
   * of the session's frame as stripped text. Removing rows rebinds the local
   * name `dataset` only: the session's frame is left as it was, and the
   * filtered table (returned as `view`) holds exactly the rows with no
   * edge-whitespace cell.
   */
  method HandleWhitespace(df: Frame, option: WhitespaceOption, codec: Codec, log: ActionLog<string>)
    returns (view: Table)
    requires df.Valid()
    modifies df, log
    ensures df.Valid()
    ensures match option
            case TrimWhitespaces => view == MapAllColumns(old(df.Value()), TrimAll, codec) && df.Value() == view
            case RemoveRowsWithWhitespaces => df.Value() == old(df.Value()) && view == DropWhitespaceRows(old(df.Value()))
    ensures log.entries == old(log.entries) + [match option
                                                case TrimWhitespaces => "Whitespaces trimmed."
                                                case RemoveRowsWithWhitespaces => "Rows with whitespaces removed."]
  {
    match option {
      case TrimWhitespaces =>
        df.MapColumnsInPlace(TrimAll, codec);
        view := df.Value();
        log.Append("Whitespaces trimmed.");
      case RemoveRowsWithWhitespaces =>
        view := FilterWhitespaceRowsByColumn(df.Value());
        log.Append("Rows with whitespaces removed.");
    }
  }

  /**
   * "Execute Cleaning for Numeric in Non-Numeric": in every non-numeric
   * column each number and NaN becomes the text "N/A", after which the
   * Numeric-in-Non-Numeric count is zero.
   */
  method FixNumbersInText(df: Frame, codec: Codec, log: ActionLog<string>)
    requires df.Valid()
    modifies df, log
    ensures df.Valid() && df.Value() == MapAllColumns(old(df.Value()), NumbersToNA("N/A"), codec)
    ensures RunPrecheck(df.Value()).numbersInText == 0
    ensures log.entries == old(log.entries) + ["Numeric values in non-numeric columns replaced with 'N/A'."]
  {
    df.MapColumnsInPlace(NumbersToNA("N/A"), codec);
    NumbersToNAEffect(old(df.Value()), codec, "N/A");
    log.Append("Numeric values in non-numeric columns replaced with 'N/A'.");
  }

  /**
   * "Execute Cleaning for Non-Numeric in Numeric": `to_numeric(errors=
   * 'coerce')` on every numeric column, after which the
   * Non-Numeric-in-Numeric count is zero; a numeric dtype already holds
   * only numbers, so the table is unchanged.
   */
  method FixNonNumbersInNumeric(df: Frame, codec: Codec, log: ActionLog<string>)
    requires df.Valid()
    modifies df, log
    ensures df.Valid() && df.Value() == MapAllColumns(old(df.Value()), CoerceNumeric, codec)
    ensures df.Value() == old(df.Value()) && RunPrecheck(df.Value()).nonNumbersInNumeric == 0
    ensures log.entries == old(log.entries) + ["Non-numeric values in numeric columns converted to NaN."]
  {
    df.MapColumnsInPlace(CoerceNumeric, codec);
    CoerceEffect(old(df.Value()), codec);
    log.Append("Non-numeric values in numeric columns converted to NaN.");
  }

  /** After trimming, the Whitespace Issues count is zero. */
  lemma TrimClearsWhitespace(t: Table, codec: Codec)
    requires WellFormed(t)
    ensures RunPrecheck(MapAllColumns(t, TrimAll, codec)).whitespace == 0
  {
    TrimEffect(t, codec);
  }
}
