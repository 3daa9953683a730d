/**
 * The profiling revision of the local workflow of 18 February 2025
 * (`dataset_precheck_workflow_local_perplexity_working_180225.py`): three
 * quality metrics, random and forward/backward imputation, and a date
 * standardiser that accepts a parsed column only when more than 90% of its
 * cells parsed. Every executed action appends a timestamped entry to the
 * audit trail.
 */
module Workflow180225 {
  import opened Wrappers
  import opened Seqs
  import opened Tables
  import opened Cleaning
  import opened Frames
  import opened RandomFill

  /** The `quality_metrics` dictionary of `run_precheck`. */
  datatype QualityMetrics = QualityMetrics(blank: nat, whitespace: nat, typeInconsistencies: nat)

  /**
   * The metrics: blank and whitespace are zero exactly when no cell is
   * missing or has edge whitespace; Type Inconsistencies counts the columns
   * holding more than one Python type, so it is zero exactly when no column
   * is mixed and equals the column count exactly when every column is.
   */
  function RunPrecheck(t: Table): (m: QualityMetrics)
    requires WellFormed(t)
    ensures m.blank == 0 <==> NoMissingCell(t)
    ensures m.whitespace == 0 <==> NoEdgeWhitespace(t)
    ensures m.typeInconsistencies <= |t.names|
    ensures m.typeInconsistencies == 0 <==> forall j :: 0 <= j < |t.names| ==> !MixedTypes(t.kinds[j], Column(t, j))
    ensures m.typeInconsistencies == |t.names| <==> forall j :: 0 <= j < |t.names| ==> MixedTypes(t.kinds[j], Column(t, j))
  {
    BlankCellsZero(t);
    WhitespaceCellsZero(t);
    SumColumnsZero(t, MixedColumn, |t.names|);
    IndicatorSum(t, MixedColumn, |t.names|);
    QualityMetrics(BlankCells(t), WhitespaceCells(t), MixedTypeColumns(t))
  }

  /** A column of text with one missing cell is inconsistent: NaN is a float. */
  lemma TextWithNaNIsInconsistent(s: string)
    ensures MixedTypes(Object, [Str(s), Missing])
  {
    SingleTypedIff(Object, [Str(s), Missing]);
    assert TypeOf(Object, [Str(s), Missing][1]) != TypeOf(Object, [Str(s), Missing][0]);
  }

  /** What the audit trail records (the `%.1f` rendering of the rate is not modelled). */
  datatype Action =
    | RandomImputation                                   // "Advanced random imputation applied"
    | ForwardBackwardFill                                // "Forward/backward fill applied"
    | Standardized(column: string, successRate: real)    // "Standardized {col} with {rate}% success"
    | CustomFormatApplied(pattern: string, column: string)  // "Custom format {fmt} applied to {col}"

  /** The imputation methods modelled (ML-based and custom-value imputation are not). */
  datatype Imputation = AdvancedRandom | ForwardBackward

  /**
   * `handle_missing_values`: the random imputation gives every missing cell
   * of a numeric column holding a number a value drawn from that column's
   * numbers, one draw per cell; forward/backward fill fills every column
   * with a value completely and keeps present cells. One entry is logged.
   */
  method HandleMissingValues(df: Frame, strategy: Imputation, codec: Codec,
                             log: ActionLog<(Timestamp, Action)>, now: Timestamp)
    requires df.Valid()
    modifies df, log
    ensures df.Valid()
    ensures strategy == AdvancedRandom ==>
              RandomlyFilled(old(df.Value()), df.Value(), NumericColumns(old(df.Value())), NonNull, PerCell) &&
              log.entries == old(log.entries) + [(now, RandomImputation)]
    ensures strategy == ForwardBackward ==>
              df.Value() == MapAllColumns(old(df.Value()), FillForwardBackward, codec) &&
              log.entries == old(log.entries) + [(now, ForwardBackwardFill)]
  {
    match strategy {
      case AdvancedRandom =>
        RandomFillColumns(df, NumericColumns(df.Value()), NonNull, PerCell);
        log.Append((now, RandomImputation));
      case ForwardBackward =>
        df.MapColumnsInPlace(FillForwardBackward, codec);
        log.Append((now, ForwardBackwardFill));
    }
  }

  // ---------------------------------------------------------------------
  // Date standardisation

  /**
   * The parse of a column: with an inferred format, and again day-first
   * when the first parse left some cell unparsed.
   */
  function ParseDateColumn(codec: Codec, cells: seq<Cell>): (r: seq<Cell>)
    ensures |r| == |cells| && forall i :: 0 <= i < |r| ==> Fits(Datetime, r[i])
    ensures (forall i :: 0 <= i < |cells| ==> !ParseCells(codec, cells, Inferred)[i].Missing?) ==>
              r == ParseCells(codec, cells, Inferred)
    ensures (exists i :: 0 <= i < |cells| && ParseCells(codec, cells, Inferred)[i].Missing?) ==>
              r == ParseCells(codec, cells, DayFirst)
  {
    var first := ParseCells(codec, cells, Inferred);
    if exists i :: 0 <= i < |first| && first[i].Missing? then ParseCells(codec, cells, DayFirst) else first
  }

  /** `1 - parsed.isna().mean()`; NaN (None) for an empty column. */
  function SuccessRate(parsed: seq<Cell>): (r: Option<real>)
    ensures r.None? <==> parsed == []
    ensures r.Some? ==> 0.0 <= r.value <= 1.0
  {
    if parsed == [] then None
    else
      var h := |parsed| as real;
      var m := Count(parsed, IsMissing) as real;
      assert m / h <= 1.0 by { DivAtMostOne(m, h); }
      Some(1.0 - m / h)
  }

  lemma DivAtMostOne(m: real, h: real)
    requires 0.0 <= m <= h && h > 0.0
    ensures 0.0 <= m / h <= 1.0
  {
    var q := m / h;
    assert q * h == m;
  }

  /** `success_rate > 0.9` (a NaN rate compares false). */
  predicate Accepted(parsed: seq<Cell>) {
    var r := SuccessRate(parsed);
    r.Some? && r.value > 0.9
  }

  /**
   * A parse is accepted exactly when fewer than one cell in ten is left
   * unparsed; an accepted parse therefore holds at least one date.
   */
  lemma AcceptedIff(parsed: seq<Cell>)
    ensures Accepted(parsed) <==> |parsed| > 0 && 10 * Count(parsed, IsMissing) < |parsed|
    ensures Accepted(parsed) ==> exists i :: 0 <= i < |parsed| && !parsed[i].Missing?
  {
    if parsed != [] {
      var c := Count(parsed, IsMissing);
      RateAbove(c as real, |parsed| as real);
      assert (10 * c) as real == 10.0 * (c as real);
    }
  }

  /** The threshold in integer form: `1 - m/h > 0.9` exactly when `10 m < h`. */
  lemma RateAbove(m: real, h: real)
    requires h > 0.0
    ensures 1.0 - m / h > 0.9 <==> 10.0 * m < h
  {
    var q := m / h;
    assert q * h == m;
    assert q < 0.1 <==> q * h < 0.1 * h;
  }

  /**
   * One column of `standardize_dates`: the new dtype and cells, and the
   * entry logged. `custom` is the text typed for the column ("" when none).
   */
  function StandardizedColumn(codec: Codec, custom: string, name: string, k: Kind, cells: seq<Cell>)
    : (r: (Kind, seq<Cell>, Option<Action>))
    requires forall i :: 0 <= i < |cells| ==> Fits(k, cells[i])
    ensures |r.1| == |cells| && forall i :: 0 <= i < |cells| ==> Fits(r.0, r.1[i])
    ensures !Selects(DateOnly, name) ==> r == (k, cells, None)
    ensures r.2.None? ==> r.0 == k && r.1 == cells
    ensures r.2.Some? ==> Selects(DateOnly, name) && r.0 == Datetime
    ensures r.2.Some? && r.2.value.Standardized? ==>
              r.1 == ParseDateColumn(codec, cells) && 10 * Count(r.1, IsMissing) < |cells|
    ensures r.2.Some? && r.2.value.CustomFormatApplied? ==>
              custom != "" && !Accepted(ParseDateColumn(codec, cells)) && r.1 == ParseCells(codec, cells, WithFormat(custom))
    ensures Selects(DateOnly, name) && custom == "" ==>
              (r.2.Some? <==> |cells| > 0 && 10 * Count(ParseDateColumn(codec, cells), IsMissing) < |cells|)
  {
    var parsed := ParseDateColumn(codec, cells);
    AcceptedIff(parsed);
    if !Selects(DateOnly, name) then (k, cells, None)
    else if Accepted(parsed) then (Datetime, parsed, Some(Standardized(name, SuccessRate(parsed).value)))
    else if custom != "" then
      (Datetime, ParseCells(codec, cells, WithFormat(custom)), Some(CustomFormatApplied(custom, name)))
    else (k, cells, None)
  }

  /** The audit entries of the first `n` columns, in column order. */
  function LoggedUpTo(t: Table, codec: Codec, custom: string -> string, now: Timestamp, n: nat)
    : seq<(Timestamp, Action)>
    requires WellFormed(t) && n <= |t.names|
  {
    if n == 0 then []
    else
      var j := n - 1;
      var e := StandardizedColumn(codec, custom(t.names[j]), t.names[j], t.kinds[j], Column(t, j)).2;
      LoggedUpTo(t, codec, custom, now, j) + (if e.Some? then [(now, e.value)] else [])
  }

  /** With no selected column nothing is logged. */
  lemma {:induction false} NothingLoggedUnselected(t: Table, codec: Codec, custom: string -> string, now: Timestamp, n: nat)
    requires WellFormed(t) && n <= |t.names|
    requires forall j :: 0 <= j < n ==> !Selects(DateOnly, t.names[j])
    ensures LoggedUpTo(t, codec, custom, now, n) == []
  {
    if n > 0 {
      NothingLoggedUnselected(t, codec, custom, now, n - 1);
    }
  }

  /**
   * `t` is `t0` with its first `n` columns standardised and the others as
   * they were.
   */
  predicate StandardizedBefore(t0: Table, t: Table, codec: Codec, custom: string -> string, n: nat)
    requires WellFormed(t0) && WellFormed(t) && n <= |t0.names|
  {
    t.names == t0.names && |t.rows| == |t0.rows| &&
    forall l :: 0 <= l < |t0.names| ==> ColumnStandardized(t0, t, codec, custom, n, l)
  }

  predicate ColumnStandardized(t0: Table, t: Table, codec: Codec, custom: string -> string, n: nat, l: nat)
    requires WellFormed(t0) && WellFormed(t) && l < |t0.names| && t.names == t0.names && |t.rows| == |t0.rows|
  {
    if l < n then
      var c := StandardizedColumn(codec, custom(t0.names[l]), t0.names[l], t0.kinds[l], Column(t0, l));
      t.kinds[l] == c.0 && Column(t, l) == c.1
    else t.kinds[l] == t0.kinds[l] && Column(t, l) == Column(t0, l)
  }

  /** Standardising column `n` extends the prefix by one column. */
  lemma StandardizeStep(t0: Table, t: Table, t': Table, codec: Codec, custom: string -> string, n: nat)
    requires WellFormed(t0) && WellFormed(t) && n < |t0.names|
    requires StandardizedBefore(t0, t, codec, custom, n)
    requires var c := StandardizedColumn(codec, custom(t.names[n]), t.names[n], t.kinds[n], Column(t, n));
             t' == if c.2.Some? then SetColumn(t, n, c.1, c.0) else t
    ensures StandardizedBefore(t0, t', codec, custom, n + 1)
  {
    assert ColumnStandardized(t0, t, codec, custom, n, n);
    var m := n + 1;
    forall l | 0 <= l < |t0.names| ensures ColumnStandardized(t0, t', codec, custom, m, l) {
      assert ColumnStandardized(t0, t, codec, custom, n, l);
    }
  }

  /** The entry the next column logs, if any, is appended to what the columns before it logged. */
  lemma LoggedStep(t0: Table, t: Table, codec: Codec, custom: string -> string, now: Timestamp, n: nat)
    requires WellFormed(t0) && WellFormed(t) && n < |t0.names|
    requires StandardizedBefore(t0, t, codec, custom, n)
    ensures var c := StandardizedColumn(codec, custom(t.names[n]), t.names[n], t.kinds[n], Column(t, n));
            LoggedUpTo(t0, codec, custom, now, n + 1) ==
            LoggedUpTo(t0, codec, custom, now, n) + (if c.2.Some? then [(now, c.2.value)] else [])
  {
    assert ColumnStandardized(t0, t, codec, custom, n, n);
  }

  /** With no column named like a date, standardisation leaves the table and the log as they were. */
  lemma NoDateColumnUnchanged(t0: Table, t: Table, codec: Codec, custom: string -> string, now: Timestamp)
    requires WellFormed(t0) && WellFormed(t)
    requires forall j :: 0 <= j < |t0.names| ==> !Selects(DateOnly, t0.names[j])
    requires StandardizedBefore(t0, t, codec, custom, |t0.names|)
    ensures t == t0 && LoggedUpTo(t0, codec, custom, now, |t0.names|) == []
  {
    forall j | 0 <= j < |t0.names| ensures t.kinds[j] == t0.kinds[j] && Column(t, j) == Column(t0, j) {
      assert ColumnStandardized(t0, t, codec, custom, |t0.names|, j);
    }
    SameColumns(t, t0);
    NothingLoggedUnselected(t0, codec, custom, now, |t0.names|);
  }

  /**
   * One turn of the `standardize_dates` loop: column `j` is replaced and
   * its entry logged when its name contains "date" and it was converted;
   * otherwise nothing changes.
   */
  method StandardizeColumnAt(df: Frame, codec: Codec, custom: string -> string,
                             log: ActionLog<(Timestamp, Action)>, now: Timestamp, j: nat)
    requires df.Valid() && j < |df.names|
    modifies df, log
    ensures df.Valid()
    ensures var t := old(df.Value());
            var c := StandardizedColumn(codec, custom(t.names[j]), t.names[j], t.kinds[j], Column(t, j));
            df.Value() == (if c.2.Some? then SetColumn(t, j, c.1, c.0) else t) &&
            log.entries == old(log.entries) + (if c.2.Some? then [(now, c.2.value)] else [])
  {
    var t := df.Value();
    var c := StandardizedColumn(codec, custom(t.names[j]), t.names[j], t.kinds[j], Column(t, j));
    if Selects(DateOnly, t.names[j]) && c.2.Some? {
      df.AssignColumn(j, c.1, c.0);
      log.Append((now, c.2.value));
    }
  }

  /**
   * `standardize_dates`: every column whose name contains "date" is
   * replaced as `StandardizedColumn` says, every other column is kept, and
   * the entries of the changed columns are logged in column order. Without
   * a date-named column it returns at once.
   */
  method StandardizeDates(df: Frame, codec: Codec, custom: string -> string,
                          log: ActionLog<(Timestamp, Action)>, now: Timestamp)
    requires df.Valid()
    modifies df, log
    ensures df.Valid() && df.names == old(df.names)
    ensures StandardizedBefore(old(df.Value()), df.Value(), codec, custom, |df.names|)
    ensures log.entries == old(log.entries) + LoggedUpTo(old(df.Value()), codec, custom, now, |df.names|)
  {
    ghost var t0 := df.Value();
    if forall j :: 0 <= j < |df.names| ==> !Selects(DateOnly, df.names[j]) {
      NothingLoggedUnselected(t0, codec, custom, now, |t0.names|);
      forall l | 0 <= l < |t0.names| ensures ColumnStandardized(t0, t0, codec, custom, |t0.names|, l) {
        var c := StandardizedColumn(codec, custom(t0.names[l]), t0.names[l], t0.kinds[l], Column(t0, l));
      }
      return;
    }
    for j := 0 to |df.names|
      invariant df.Valid() && StandardizedBefore(t0, df.Value(), codec, custom, j)
      invariant log.entries == old(log.entries) + LoggedUpTo(t0, codec, custom, now, j)
    {
      ghost var t := df.Value();
      ghost var c := StandardizedColumn(codec, custom(t.names[j]), t.names[j], t.kinds[j], Column(t, j));
      StandardizeColumnAt(df, codec, custom, log, now, j);
      LoggedStep(t0, t, codec, custom, now, j);
      AppendAssoc(old(log.entries), LoggedUpTo(t0, codec, custom, now, j),
                  if c.2.Some? then [(now, c.2.value)] else []);
      StandardizeStep(t0, t, df.Value(), codec, custom, j);
    }
  }
}
