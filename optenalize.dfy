/**
 * The cleaning handlers of the Enterprise Data Health Center script
 * (`optenalize.py`): missing-value handling, date standardisation, the
 * removal of columns more than 80% missing, and the timestamped audit log.
 * Each handler changes the uploaded DataFrame in place.
 */
module Optenalize {
  import opened Wrappers
  import opened Seqs
  import opened Text
  import opened Tables
  import opened Cleaning
  import opened TableOps
  import opened Frames
  import opened RandomFill

  /** The options of the imputation radio button. */
  datatype MissingStrategy = FillRandom | FillMean | FillMissingText | RemoveRows

  function Label(s: MissingStrategy): string {
    match s
    case FillRandom => "Fill with Random Values"
    case FillMean => "Fill with Mean/Average"
    case FillMissingText => "Fill with 'Missing' for Non-Numeric Columns"
    case RemoveRows => "Remove Rows with Missing Values"
  }

  /** `log_action`: exactly one entry, stamped `now`, appended at the end. */
  method LogAction(log: ActionLog<(Timestamp, string)>, now: Timestamp, message: string)
    modifies log
    ensures log.entries == old(log.entries) + [(now, message)]
  {
    log.Append((now, message));
  }

  /**
   * "Execute Missing Value Handling" with the chosen strategy, followed by
   * one log entry naming it. The random fill draws, for every missing cell
   * of a numeric column holding a number, one of that column's numbers.
   */
  method HandleMissingValues(df: Frame, strategy: MissingStrategy, codec: Codec,
                             log: ActionLog<(Timestamp, string)>, now: Timestamp)
    requires df.Valid()
    modifies df, log
    ensures df.Valid()
    ensures match strategy
            case FillRandom => RandomlyFilled(old(df.Value()), df.Value(), NumericColumns(old(df.Value())), NonNull, PerCell)
            case FillMean => df.Value() == MapAllColumns(old(df.Value()), FillNumericMean, codec)
            case FillMissingText => df.Value() == MapAllColumns(old(df.Value()), FillNonNumeric("Missing"), codec)
            case RemoveRows => df.Value() == DropIncompleteRows(old(df.Value()))
    ensures log.entries == old(log.entries) + [(now, "Applied Missing Value Handling: " + Label(strategy))]
  {
    match strategy {
      case FillRandom =>
        RandomFillColumns(df, NumericColumns(df.Value()), NonNull, PerCell);
      case FillMean =>
        df.MapColumnsInPlace(FillNumericMean, codec);
      case FillMissingText =>
        df.MapColumnsInPlace(FillNonNumeric("Missing"), codec);
      case RemoveRows =>
        df.Assign(DropIncompleteRows(df.Value()));
    }
    LogAction(log, now, "Applied Missing Value Handling: " + Label(strategy));
  }

  /** The columns `standardize_dates` selects: the name contains "date" or "year", in any case. */
  predicate HasDateColumn(t: Table) {
    exists j :: 0 <= j < |t.names| && Selects(DateOrYear, t.names[j])
  }

  /**
   * `standardize_dates`: with no date-named column nothing changes;
   * otherwise each selected column is parsed with an inferred format and
   * rewritten as "%Y/%m/%d" text.
   */
  method StandardizeDates(df: Frame, codec: Codec)
    requires df.Valid()
    modifies df
    ensures df.Valid()
    ensures !HasDateColumn(old(df.Value())) ==> df.Value() == old(df.Value())
    ensures df.Value() == MapAllColumns(old(df.Value()), ReformatDates(DateOrYear, Inferred, "%Y/%m/%d"), codec)
  {
    if !HasDateColumn(df.Value()) {
      UnselectedUnchanged(df.Value(), DateOrYear, Inferred, "%Y/%m/%d", codec);
      return;
    }
    df.MapColumnsInPlace(ReformatDates(DateOrYear, Inferred, "%Y/%m/%d"), codec);
  }

  /** A date reformat that selects no column is the identity. */
  lemma UnselectedUnchanged(t: Table, test: NameTest, spec: DateSpec, pattern: string, codec: Codec)
    requires WellFormed(t)
    requires forall j :: 0 <= j < |t.names| ==> !Selects(test, t.names[j])
    ensures MapAllColumns(t, ReformatDates(test, spec, pattern), codec) == t
  {
    SameColumns(MapAllColumns(t, ReformatDates(test, spec, pattern), codec), t);
  }

  /**
   * After `standardize_dates` a selected column is text or missing, every
   * cell holding a parsed date written in the pattern; the other columns
   * are untouched.
   */
  lemma StandardizeDatesEffect(t: Table, codec: Codec)
    requires WellFormed(t)
    ensures var r := MapAllColumns(t, ReformatDates(DateOrYear, Inferred, "%Y/%m/%d"), codec);
            forall j :: 0 <= j < |t.names| ==>
              if Selects(DateOrYear, t.names[j]) then
                r.kinds[j] == Object &&
                forall i :: 0 <= i < |t.rows| ==>
                  r.rows[i][j] == match ToInstant(codec, t.rows[i][j], Inferred)
                                  case Some(d) => Str(codec.formatInstant(d, "%Y/%m/%d"))
                                  case None => Missing
              else r.kinds[j] == t.kinds[j] && Column(r, j) == Column(t, j)
  {
    var r := MapAllColumns(t, ReformatDates(DateOrYear, Inferred, "%Y/%m/%d"), codec);
    forall j, i | 0 <= j < |t.names| && Selects(DateOrYear, t.names[j]) && 0 <= i < |t.rows|
      ensures r.rows[i][j] == match ToInstant(codec, t.rows[i][j], Inferred)
                              case Some(d) => Str(codec.formatInstant(d, "%Y/%m/%d"))
                              case None => Missing
    {
      assert Column(r, j)[i] == r.rows[i][j];
      assert Column(t, j)[i] == t.rows[i][j];
    }
  }

  /** No column is above the threshold exactly when the list of high-missing names is empty. */
  lemma NoHighMissingIff(t: Table, threshold: real)
    requires WellFormed(t)
    ensures HighMissingNames(t, threshold) == [] <==> forall j :: 0 <= j < |t.names| ==> !MissingAbove(t, threshold)[j]
  {
  }

  /**
   * `remove_high_missing_columns`: the columns more than 80% missing are
   * dropped and one entry is logged; with none, neither the table nor the
   * log changes.
   */
  method RemoveHighMissingColumns(df: Frame, log: ActionLog<(Timestamp, string)>, now: Timestamp)
    requires df.Valid()
    modifies df, log
    ensures df.Valid()
    ensures var cols := HighMissingNames(old(df.Value()), 0.8);
            if cols == [] then df.Value() == old(df.Value()) && log.entries == old(log.entries)
            else
              DropColumns(old(df.Value()), cols).Some? &&
              df.Value() == DropColumns(old(df.Value()), cols).value &&
              log.entries == old(log.entries) + [(now, "Removed high-missing columns: " + Join(cols, ", "))]
  {
    var t := df.Value();
    var cols := HighMissingNames(t, 0.8);
    if cols != [] {
      var r := DropColumns(t, cols);
      df.Assign(r.value);
      LogAction(log, now, "Removed high-missing columns: " + Join(cols, ", "));
    }
  }

  /**
   * With distinct column names, the removal keeps exactly the columns at
   * most 80% missing, in order, and every row; and it happens exactly when
   * some column is above the threshold.
   */
  lemma RemoveHighMissingExact(t: Table)
    requires WellFormed(t) && Distinct(t.names)
    ensures DropColumns(t, HighMissingNames(t, 0.8)) == Some(KeepColumns(t, Invert(MissingAbove(t, 0.8))))
    ensures HighMissingNames(t, 0.8) != [] <==>
            exists j :: 0 <= j < |t.names| && |t.rows| > 0 &&
                        MissingInColumn(t.kinds[j], Column(t, j)) as real / |t.rows| as real > 0.8
  {
    DropHighMissingExact(t, 0.8);
    NoHighMissingIff(t, 0.8);
  }
}
