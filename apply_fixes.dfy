/**
 * The fix applier of the Smart Data Health Center (`apply_fixes`): the
 * selected recommendations are applied in order to a copy of the table,
 * each successful fix appends a timestamped entry to the session's audit
 * log, and the quality score is recomputed when every fix has run.
 */
module FixApplier {
  import opened Wrappers
  import opened Seqs
  import opened Text
  import opened Tables
  import opened ColumnStats
  import opened Cleaning
  import opened TableOps
  import opened HealthScore
  import opened Recommendations
  import opened Frames

  /** What `log_action` is told (the formatted message text is not modelled). */
  datatype Message =
    | FilledMissing(column: string, strategy: Strategy)
    | RemovedDuplicates(count: nat)
    | ConvertedNumeric(column: string)
    | StandardizedDates(column: string)
    | RemovedHighMissing(columns: seq<string>)
    | CleanedWhitespace(column: string)

  /** One fix that ran to its end: the new table and the messages it logged. */
  datatype Step = Step(table: Table, logged: seq<Message>)

  /** The fill of one column under `strategy`, as `apply_fixes` does it. */
  function FillColumn(t: Table, j: nat, strategy: Strategy): (r: Table)
    requires WellFormed(t) && j < |t.names|
    ensures WellFormed(r) && r.names == t.names && |r.rows| == |t.rows|
    ensures forall l :: 0 <= l < |t.names| && l != j ==> r.kinds[l] == t.kinds[l] && Column(r, l) == Column(t, l)
    ensures forall i :: 0 <= i < |t.rows| && !t.rows[i][j].Missing? ==> r.rows[i][j] == t.rows[i][j]
  {
    var k, cells := t.kinds[j], Column(t, j);
    match strategy
    case MeanStrategy =>
      if k == Numeric then
        (match Mean(cells)
         case Some(m) => SetColumn(t, j, FillCells(cells, Num(m)), k)
         case None => t)
      else t
    case MedianStrategy =>
      if k == Numeric then
        (match Median(cells)
         case Some(m) => SetColumn(t, j, FillCells(cells, Num(m)), k)
         case None => t)
      else t
    case ModeStrategy =>
      var v := Mode(cells).GetOr(Str("Missing"));
      FillFits(k, cells, v);
      SetColumn(t, j, FillCells(cells, v), FillKind(k, cells, v))
  }

  /**
   * One fix: None when it raises a `KeyError` that ends `apply_fixes` (a
   * missing column in a fill, a drop or a whitespace clean); `fix_types`
   * and `standardize_dates` swallow theirs and then log nothing.
   */
  function ApplyAction(t: Table, a: Action, codec: Codec): (r: Option<Step>)
    requires WellFormed(t)
    ensures r.Some? ==> WellFormed(r.value.table) && |r.value.logged| <= 1
  {
    match a
    case FillMissing(col, strategy) =>
      if col !in t.names then None
      else Some(Step(FillColumn(t, IndexOfName(t.names, col), strategy), [FilledMissing(col, strategy)]))
    case RemoveDuplicates =>
      var r := DropDuplicateRows(t);
      Some(Step(r, [RemovedDuplicates(|t.rows| - |r.rows|)]))
    case FixTypes(col) =>
      if col !in t.names then Some(Step(t, []))
      else
        var j := IndexOfName(t.names, col);
        if t.kinds[j] == Object then
          Some(Step(SetColumn(t, j, CoerceCells(codec, Column(t, j)), Numeric), [ConvertedNumeric(col)]))
        else Some(Step(t, []))
    case StandardizeDates(col) =>
      if col !in t.names then Some(Step(t, []))
      else
        var j := IndexOfName(t.names, col);
        Some(Step(SetColumn(t, j, ReformatCells(codec, Column(t, j), Inferred, "%Y-%m-%d"), Object), [StandardizedDates(col)]))
    case RemoveHighMissing(cols) =>
      (match DropColumns(t, cols)
       case None => None
       case Some(r) => Some(Step(r, [RemovedHighMissing(cols)])))
    case CleanWhitespace(col) =>
      if col !in t.names then None
      else
        var j := IndexOfName(t.names, col);
        if t.kinds[j] == Object then
          Some(Step(SetColumn(t, j, StripCells(codec, Object, Column(t, j)), Object), [CleanedWhitespace(col)]))
        else Some(Step(t, []))
  }

  /** Where a run of fixes stands: the table, everything logged, and whether no fix raised. */
  datatype Run = Run(table: Table, logged: seq<Message>, completed: bool)

  /** The run after one more selected fix: nothing happens once a fix has raised. */
  function Continue(prev: Run, rec: Recommendation, codec: Codec): (r: Run)
    requires WellFormed(prev.table)
    ensures WellFormed(r.table)
    ensures !prev.completed ==> r == prev
  {
    if !prev.completed then prev
    else
      match ApplyAction(prev.table, rec.action, codec)
      case None => Run(prev.table, prev.logged, false)
      case Some(step) => Run(step.table, prev.logged + step.logged, true)
  }

  /** The run over one more selected fix continues the run over the fixes before it. */
  lemma RunFixesSnoc(t: Table, p: seq<Recommendation>, rec: Recommendation, codec: Codec)
    requires WellFormed(t)
    ensures RunFixes(t, p + [rec], codec) == Continue(RunFixes(t, p, codec), rec, codec)
  {
    assert (p + [rec])[..|p|] == p;
  }

  /** What a fix logs does not depend on what was logged before it. */
  lemma ContinueShift(x: Table, pre: seq<Message>, l: seq<Message>, c: bool, rec: Recommendation, codec: Codec)
    requires WellFormed(x)
    ensures var r := Continue(Run(x, l, c), rec, codec);
            Continue(Run(x, pre + l, c), rec, codec) == Run(r.table, pre + r.logged, r.completed)
  {
    if c {
      match ApplyAction(x, rec.action, codec)
      case None =>
      case Some(step) =>
        assert pre + l + step.logged == pre + (l + step.logged);
    }
  }

  /** The selected fixes applied in order; the first one that raises ends the run. */
  function RunFixes(t: Table, recs: seq<Recommendation>, codec: Codec): (r: Run)
    requires WellFormed(t)
    ensures WellFormed(r.table)
  {
    if recs == [] then Run(t, [], true)
    else Continue(RunFixes(t, recs[..|recs| - 1], codec), recs[|recs| - 1], codec)
  }

  /** Once a fix has raised, later fixes change nothing. */
  lemma RunStopsAfterFailure(t: Table, recs: seq<Recommendation>, codec: Codec, i: nat)
    requires WellFormed(t) && i <= |recs|
    requires !RunFixes(t, recs[..i], codec).completed
    ensures RunFixes(t, recs, codec) == RunFixes(t, recs[..i], codec)
  {
    var p, q := recs[..i], recs[i..];
    assert p + q == recs;
    RunFixesAppend(t, p, q, codec);
  }

  /**
   * Fixes run in selection order: running `a + b` is running `a` and then,
   * if it completed, running `b` on its result, the logs concatenated.
   */
  lemma {:induction false} RunFixesAppend(t: Table, a: seq<Recommendation>, b: seq<Recommendation>, codec: Codec)
    requires WellFormed(t)
    ensures var ra := RunFixes(t, a, codec);
            var rb := RunFixes(ra.table, b, codec);
            RunFixes(t, a + b, codec) ==
              if ra.completed then Run(rb.table, ra.logged + rb.logged, rb.completed) else ra
    decreases |b|
  {
    var ra := RunFixes(t, a, codec);
    if b == [] {
      assert a + b == a;
    } else {
      var n := |b| - 1;
      assert (a + b)[..|a + b| - 1] == a + b[..n];
      assert (a + b)[|a + b| - 1] == b[n];
      RunFixesAppend(t, a, b[..n], codec);
      if ra.completed {
        var rb := RunFixes(ra.table, b[..n], codec);
        ContinueShift(rb.table, ra.logged, rb.logged, rb.completed, b[n], codec);
      }
    }
  }

  // ---------------------------------------------------------------------
  // What each fix achieves

  /**
   * `remove_duplicates`: no duplicate row is left, the header is kept, and
   * the logged count is the number of rows removed, the duplicate count.
   */
  lemma RemoveDuplicatesFix(t: Table, codec: Codec)
    requires WellFormed(t)
    ensures var r := ApplyAction(t, RemoveDuplicates, codec);
            r.Some? && DuplicateRows(r.value.table) == 0 &&
            r.value.table.names == t.names && r.value.table.kinds == t.kinds &&
            (forall i :: 0 <= i < |r.value.table.rows| ==> r.value.table.rows[i] in t.rows) &&
            r.value.logged == [RemovedDuplicates(|t.rows| - |r.value.table.rows|)] &&
            |t.rows| - |r.value.table.rows| == DuplicateRows(t)
  {
  }

  /**
   * `remove_high_missing`: a `KeyError` exactly when a listed column does
   * not exist; otherwise exactly the listed columns go, on whatever table
   * the earlier fixes left: no listed column is left, every unlisted one
   * stays in its order with its cells, and every row is kept.
   */
  lemma RemoveHighMissingFix(t: Table, cols: seq<string>, codec: Codec)
    requires WellFormed(t)
    ensures var r := ApplyAction(t, RemoveHighMissing(cols), codec);
            (r.None? <==> exists k :: 0 <= k < |cols| && cols[k] !in t.names) &&
            (r.Some? ==> |r.value.table.rows| == |t.rows| && r.value.logged == [RemovedHighMissing(cols)] &&
                         r.value.table == KeepColumns(t, UnlistedMask(t.names, cols)) &&
                         (forall j :: 0 <= j < |r.value.table.names| ==> r.value.table.names[j] !in cols) &&
                         forall j :: 0 <= j < |t.names| && t.names[j] !in cols ==> t.names[j] in r.value.table.names)
  {
  }

  /**
   * Applying the generated high-missing record to a table with distinct
   * names removes exactly the columns more than 70% missing, keeping the
   * others in order.
   */
  lemma GeneratedHighMissingFix(t: Table, codec: Codec)
    requires WellFormed(t) && Distinct(t.names) && HighMissingRecord(t).Some?
    ensures ApplyAction(t, HighMissingRecord(t).value.action, codec) ==
            Some(Step(KeepColumns(t, Invert(MissingAbove(t, 0.7))), [RemovedHighMissing(HighMissingNames(t, 0.7))]))
  {
    DropHighMissingExact(t, 0.7);
  }

  /** `clean_whitespace` on an object column: no cell of it has edge whitespace afterwards. */
  lemma CleanWhitespaceFix(t: Table, col: string, codec: Codec)
    requires WellFormed(t) && col in t.names && t.kinds[IndexOfName(t.names, col)] == Object
    ensures var r, j := ApplyAction(t, CleanWhitespace(col), codec), IndexOfName(t.names, col);
            r.Some? && r.value.table.names == t.names && |r.value.table.rows| == |t.rows| &&
            (forall i :: 0 <= i < |t.rows| ==> !HasEdgeWhitespace(r.value.table.rows[i][j])) &&
            (forall l :: 0 <= l < |t.names| && l != j ==> Column(r.value.table, l) == Column(t, l)) &&
            r.value.logged == [CleanedWhitespace(col)]
  {
  }

  /** `clean_whitespace` twice leaves the table as once. */
  lemma CleanWhitespaceIdempotent(t: Table, col: string, codec: Codec)
    requires WellFormed(t) && col in t.names && t.kinds[IndexOfName(t.names, col)] == Object
    ensures var once := ApplyAction(t, CleanWhitespace(col), codec).value.table;
            ApplyAction(once, CleanWhitespace(col), codec).value.table == once
  {
    var j := IndexOfName(t.names, col);
    var once := ApplyAction(t, CleanWhitespace(col), codec).value.table;
    var c := Column(once, j);
    assert IndexOfName(once.names, col) == j;
    forall i | 0 <= i < |c| ensures StripCells(codec, Object, c)[i] == c[i] {
      assert c[i].Str? && !EdgeWhitespace(c[i].text);
    }
    var twice := ApplyAction(once, CleanWhitespace(col), codec).value.table;
    assert Column(twice, j) == c;
    SameColumns(twice, once);
  }

  /** A mode fill leaves no missing cell in its column and keeps every present cell. */
  lemma ModeFillFix(t: Table, col: string, codec: Codec)
    requires WellFormed(t) && col in t.names
    ensures var r, j := ApplyAction(t, FillMissing(col, ModeStrategy), codec), IndexOfName(t.names, col);
            r.Some? && r.value.table.names == t.names && |r.value.table.rows| == |t.rows| &&
            (forall i :: 0 <= i < |t.rows| ==> !r.value.table.rows[i][j].Missing?) &&
            r.value.logged == [FilledMissing(col, ModeStrategy)]
  {
    var j := IndexOfName(t.names, col);
    var cells := Column(t, j);
    FillCellsEffect(cells, Mode(cells).GetOr(Str("Missing")));
  }

  /** A mean fill of a numeric column holding a number leaves no missing cell in it. */
  lemma MeanFillFix(t: Table, col: string, codec: Codec)
    requires WellFormed(t) && col in t.names
    requires var j := IndexOfName(t.names, col); t.kinds[j] == Numeric && HasValueIn(t, j)
    ensures var r, j := ApplyAction(t, FillMissing(col, MeanStrategy), codec), IndexOfName(t.names, col);
            r.Some? && r.value.table.kinds == t.kinds &&
            forall i :: 0 <= i < |t.rows| ==> !r.value.table.rows[i][j].Missing?
  {
    var j := IndexOfName(t.names, col);
    var cells := Column(t, j);
    var i :| 0 <= i < |t.rows| && j < |t.rows[i]| && !t.rows[i][j].Missing?;
    assert cells[i].Num?;
    assert cells[i].value in Numbers(cells);
    FillCellsEffect(cells, Num(Mean(cells).value));
  }

  /**
   * `fix_types` on an object column of a table with rows: the column
   * becomes numeric and holds a single Python type, so its type
   * inconsistency is gone.
   */
  lemma FixTypesFix(t: Table, col: string, codec: Codec)
    requires WellFormed(t) && col in t.names && |t.rows| > 0
    requires t.kinds[IndexOfName(t.names, col)] == Object
    ensures var r, j := ApplyAction(t, FixTypes(col), codec), IndexOfName(t.names, col);
            r.Some? && r.value.table.kinds[j] == Numeric &&
            SingleTyped(Numeric, Column(r.value.table, j)) &&
            !Flagged(TypeRule, r.value.table, j) &&
            r.value.logged == [ConvertedNumeric(col)]
  {
    var j := IndexOfName(t.names, col);
    var cells := Column(ApplyAction(t, FixTypes(col), codec).value.table, j);
    assert forall i :: 0 <= i < |cells| ==> TypeOf(Numeric, cells[i]) == FloatType;
    SingleTypedIff(Numeric, cells);
  }

  /**
   * `standardize_dates` leaves its column as text, so a date-named column
   * it has standardised is reported again by the date-format rule.
   */
  lemma StandardizedDatesStillFlagged(t: Table, col: string, codec: Codec)
    requires WellFormed(t) && col in t.names && Selects(DateOrTime, col)
    ensures var r, j := ApplyAction(t, StandardizeDates(col), codec), IndexOfName(t.names, col);
            r.Some? && r.value.table.kinds[j] == Object &&
            (forall i :: 0 <= i < |t.rows| ==> r.value.table.rows[i][j].Missing? || r.value.table.rows[i][j].Str?) &&
            Flagged(DateRule, r.value.table, j)
  {
  }

  // ---------------------------------------------------------------------
  // The session and the applier

  /** One audit-log entry per message, all with the same timestamp. */
  function Stamp(now: Timestamp, ms: seq<Message>): (r: seq<(Timestamp, Message)>)
    ensures |r| == |ms| && forall k :: 0 <= k < |ms| ==> r[k] == (now, ms[k])
  {
    seq(|ms|, k requires 0 <= k < |ms| => (now, ms[k]))
  }

  lemma StampAppend(now: Timestamp, a: seq<Message>, b: seq<Message>)
    ensures Stamp(now, a + b) == Stamp(now, a) + Stamp(now, b)
  {
  }

  lemma StampSmall(now: Timestamp, m: Message)
    ensures Stamp(now, []) == [] && Stamp(now, [m]) == [(now, m)]
  {
  }

  /** The part of Streamlit's session state the wizard keeps. */
  class Session {
    var log: seq<(Timestamp, Message)>
    var score: Option<real>
    var step: nat
    var recommendations: seq<Recommendation>

    /** The wizard is always on one of its four steps. */
    predicate Valid()
      reads this
    {
      1 <= step <= 4
    }

    /** The initial session state: empty log, score 0, step 1, no recommendations. */
    constructor ()
      ensures Valid() && log == [] && score == Some(0.0) && step == 1 && recommendations == []
    {
      log, score, step, recommendations := [], Some(0.0), 1, [];
    }

    /** `log_action`: exactly one entry, stamped `now`, appended at the end. */
    method LogAction(now: Timestamp, m: Message)
      modifies this
      ensures log == old(log) + [(now, m)]
      ensures score == old(score) && step == old(step) && recommendations == old(recommendations)
    {
      log := log + [(now, m)];
    }

    /** A navigation button: move to step `target`. */
    method GoTo(target: nat)
      requires Valid() && 1 <= target <= 4
      modifies this
      ensures Valid() && step == target
      ensures log == old(log) && score == old(score) && recommendations == old(recommendations)
    {
      step := target;
    }

    /** Step 2: store the recommendations and the score of the uploaded table. */
    method Analyze(t: Table)
      requires WellFormed(t)
      modifies this
      ensures recommendations == Recommendations.Recommendations(t) && score == QualityScore(t)
      ensures log == old(log) && step == old(step)
    {
      recommendations := GenerateRecommendations(t);
      score := QualityScore(t);
    }

    /** "Start New Project": the session is cleared and the wizard returns to step 1. */
    method StartNewProject()
      modifies this
      ensures Valid() && log == [] && step == 1 && score == Some(0.0) && recommendations == []
    {
      log, step, score, recommendations := [], 1, Some(0.0), [];
    }
  }

  /**
   * One fix applied in place to `df`, logging its message; false when it
   * raises, in which case nothing has changed.
   */
  method ApplyActionInPlace(df: Frame, a: Action, codec: Codec, session: Session, now: Timestamp) returns (ok: bool)
    requires df.Valid()
    modifies df, session
    ensures df.Valid()
    ensures match ApplyAction(old(df.Value()), a, codec)
            case None => !ok && df.Value() == old(df.Value()) && session.log == old(session.log)
            case Some(step) => ok && df.Value() == step.table && session.log == old(session.log) + Stamp(now, step.logged)
    ensures session.score == old(session.score) && session.step == old(session.step)
    ensures session.recommendations == old(session.recommendations)
  {
    var t := df.Value();
    ok := true;
    match a
    case FillMissing(col, strategy) =>
      if col !in df.names {
        ok := false;
        return;
      }
      var j := IndexOfName(df.names, col);
      StampSmall(now, FilledMissing(col, strategy));
      df.Assign(FillColumn(t, j, strategy));
      session.LogAction(now, FilledMissing(col, strategy));
    case RemoveDuplicates =>
      var before := |df.rows|;
      df.Assign(DropDuplicateRows(t));
      var after := |df.rows|;
      StampSmall(now, RemovedDuplicates(before - after));
      session.LogAction(now, RemovedDuplicates(before - after));
    case FixTypes(col) =>
      StampSmall(now, ConvertedNumeric(col));
      if col in df.names {
        var j := IndexOfName(df.names, col);
        if df.kinds[j] == Object {
          df.AssignColumn(j, CoerceCells(codec, Column(t, j)), Numeric);
          session.LogAction(now, ConvertedNumeric(col));
        }
      }
    case StandardizeDates(col) =>
      StampSmall(now, StandardizedDates(col));
      if col in df.names {
        var j := IndexOfName(df.names, col);
        df.AssignColumn(j, ReformatCells(codec, Column(t, j), Inferred, "%Y-%m-%d"), Object);
        session.LogAction(now, StandardizedDates(col));
      }
    case RemoveHighMissing(cols) =>
      var r := DropColumns(t, cols);
      if r.None? {
        ok := false;
        return;
      }
      StampSmall(now, RemovedHighMissing(cols));
      df.Assign(r.value);
      session.LogAction(now, RemovedHighMissing(cols));
    case CleanWhitespace(col) =>
      if col !in df.names {
        ok := false;
        return;
      }
      StampSmall(now, CleanedWhitespace(col));
      var j := IndexOfName(df.names, col);
      if df.kinds[j] == Object {
        df.AssignColumn(j, StripCells(codec, Object, Column(t, j)), Object);
        session.LogAction(now, CleanedWhitespace(col));
      }
  }

  /**
   * One turn of the loop of `apply_fixes` while no fix has raised: the
   * frame and the log follow the run by one more fix.
   */
  method ApplyNext(df: Frame, rec: Recommendation, codec: Codec, session: Session, now: Timestamp,
                   ghost run: Run, ghost log0: seq<(Timestamp, Message)>) returns (ok: bool)
    requires df.Valid() && run.completed && df.Value() == run.table
    requires session.log == log0 + Stamp(now, run.logged)
    modifies df, session
    ensures df.Valid()
    ensures var next := Continue(run, rec, codec);
            df.Value() == next.table && ok == next.completed && session.log == log0 + Stamp(now, next.logged)
    ensures session.score == old(session.score) && session.step == old(session.step)
    ensures session.recommendations == old(session.recommendations)
  {
    ghost var r := ApplyAction(run.table, rec.action, codec);
    ok := ApplyActionInPlace(df, rec.action, codec, session, now);
    if r.Some? {
      StampAppend(now, run.logged, r.value.logged);
      AppendAssoc(log0, Stamp(now, run.logged), Stamp(now, r.value.logged));
    }
  }

  /**
   * The loop of `apply_fixes` on the copy: the fixes run in order until one
   * raises, the frame ends with the run's table and the log with its
   * stamped messages.
   */
  method RunFixesInPlace(df: Frame, selected: seq<Recommendation>, codec: Codec, session: Session, now: Timestamp)
    returns (completed: bool)
    requires df.Valid()
    modifies df, session
    ensures df.Valid()
    ensures var run := RunFixes(old(df.Value()), selected, codec);
            df.Value() == run.table && completed == run.completed &&
            session.log == old(session.log) + Stamp(now, run.logged)
    ensures session.score == old(session.score) && session.step == old(session.step)
    ensures session.recommendations == old(session.recommendations)
  {
    ghost var t0 := df.Value();
    completed := true;
    ghost var run := Run(t0, [], true);
    ghost var done: seq<Recommendation> := [];
    var i := 0;
    while i < |selected| && completed
      invariant 0 <= i <= |selected| && done == selected[..i]
      invariant df.Valid()
      invariant run == RunFixes(t0, done, codec)
      invariant df.Value() == run.table && completed == run.completed
      invariant session.log == old(session.log) + Stamp(now, run.logged)
      invariant session.score == old(session.score) && session.step == old(session.step)
      invariant session.recommendations == old(session.recommendations)
    {
      RunFixesSnoc(t0, done, selected[i], codec);
      completed := ApplyNext(df, selected[i], codec, session, now, run, old(session.log));
      run := Continue(run, selected[i], codec);
      done := done + [selected[i]];
      i := i + 1;
    }
    if i < |selected| {
      RunStopsAfterFailure(t0, selected, codec, i);
    } else {
      assert selected[..i] == selected;
    }
  }

  /**
   * `apply_fixes`: an empty selection returns the input itself and logs
   * nothing; otherwise the fixes run on a fresh copy, the input is never
   * modified, the log gains one entry per logged message, and the score is
   * recomputed from the result unless a fix raised.
   */
  method ApplyFixes(dataset: Frame, selected: seq<Recommendation>, codec: Codec, session: Session, now: Timestamp)
    returns (df: Frame, completed: bool)
    requires dataset.Valid()
    modifies session
    ensures selected == [] ==> df == dataset && completed && unchanged(session)
    ensures selected != [] ==>
              fresh(df) && df.Valid() &&
              var run := RunFixes(dataset.Value(), selected, codec);
              df.Value() == run.table && completed == run.completed &&
              session.log == old(session.log) + Stamp(now, run.logged) &&
              session.score == (if run.completed then QualityScore(run.table) else old(session.score))
    ensures session.step == old(session.step) && session.recommendations == old(session.recommendations)
  {
    if selected == [] {
      return dataset, true;
    }
    df := dataset.Copy();
    completed := RunFixesInPlace(df, selected, codec, session, now);
    if completed {
      session.score := QualityScore(df.Value());
    }
  }
}
