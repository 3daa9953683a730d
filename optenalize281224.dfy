/**
 * The cleaning step of the 28 December 2024 revision (`optenalize281224.py`,
 * `data_cleaning_workflow`): a missing-values summary sorted by count, the
 * three actions on the columns the user marks essential, and the
 * standardisation of column names. The table lives in the session state.
 */
module Optenalize281224 {
  import opened Wrappers
  import opened Seqs
  import opened Text
  import opened Tables
  import opened ColumnStats
  import opened Cleaning
  import opened TableOps
  import opened Frames
  import opened RandomFill

  // ---------------------------------------------------------------------
  // Missing Values Summary

  /** One line of the summary: the column, its missing count, and that count as a percentage of the rows. */
  datatype SummaryRow = SummaryRow(name: string, missing: nat, percentage: Option<real>)

  /** The line of column `j`; the percentage is NaN (None) for a table without rows. */
  function ColumnSummary(t: Table, j: nat): (r: SummaryRow)
    requires WellFormed(t) && j < |t.names|
    ensures r.name == t.names[j] && r.missing <= |t.rows|
    ensures r.percentage.None? <==> |t.rows| == 0
    ensures r.percentage.Some? ==> 0.0 <= r.percentage.value <= 100.0 &&
                                   r.percentage.value * |t.rows| as real == r.missing as real * 100.0
  {
    var m := MissingInColumn(t.kinds[j], Column(t, j));
    if |t.rows| == 0 then SummaryRow(t.names[j], m, None)
    else
      PercentageOf(m as real, |t.rows| as real);
      SummaryRow(t.names[j], m, Some(m as real / |t.rows| as real * 100.0))
  }

  lemma PercentageOf(m: real, h: real)
    requires 0.0 <= m <= h && h > 0.0
    ensures 0.0 <= m / h * 100.0 <= 100.0
    ensures m / h * 100.0 * h == m * 100.0
  {
    var q := m / h;
    assert q * h == m;
  }

  /** `dataset.isnull().sum()` with the percentages, in column order. */
  function ColumnSummaries(t: Table): (s: seq<SummaryRow>)
    requires WellFormed(t)
    ensures |s| == |t.names| && forall j :: 0 <= j < |t.names| ==> s[j] == ColumnSummary(t, j)
  {
    seq(|t.names|, j requires 0 <= j < |t.names| => ColumnSummary(t, j))
  }

  predicate SortedByMissing(s: seq<SummaryRow>) {
    forall k, l :: 0 <= k < l < |s| ==> s[k].missing >= s[l].missing
  }

  /** Inserts `r` before the first line with a count not above its own. */
  function InsertByMissing(r: SummaryRow, s: seq<SummaryRow>): (res: seq<SummaryRow>)
    requires SortedByMissing(s)
    ensures SortedByMissing(res) && multiset(res) == multiset(s) + multiset{r}
    ensures res[0] == r || (s != [] && res[0] == s[0])
  {
    if s == [] || r.missing >= s[0].missing then
      ConsSorted(r, s);
      [r] + s
    else
      TailSorted(s);
      var rest := InsertByMissing(r, s[1..]);
      ConsSorted(s[0], rest);
      ConsMultiset(s, rest, r);
      [s[0]] + rest
  }

  lemma TailSorted(s: seq<SummaryRow>)
    requires SortedByMissing(s) && s != []
    ensures SortedByMissing(s[1..])
  {
  }


  /** A reordering holds the same lines as the original. */
  lemma SameMembers<T>(u: seq<T>, s: seq<T>)
    requires multiset(s) == multiset(u)
    ensures |s| == |u|
    ensures forall j :: 0 <= j < |u| ==> u[j] in s
    ensures forall k :: 0 <= k < |s| ==> exists j :: 0 <= j < |u| && s[k] == u[j]
  {
    assert |s| == |multiset(s)| == |multiset(u)| == |u|;
    forall j | 0 <= j < |u| ensures u[j] in s {
      assert u[j] in multiset(u);
    }
    forall k | 0 <= k < |s| ensures exists j :: 0 <= j < |u| && s[k] == u[j] {
      assert s[k] in multiset(s);
      assert s[k] in u;
    }
  }

  /** A line with a count not below the head of a sorted list can go in front of it. */
  lemma ConsSorted(x: SummaryRow, s: seq<SummaryRow>)
    requires SortedByMissing(s) && (s == [] || s[0].missing <= x.missing)
    ensures SortedByMissing([x] + s)
  {
  }

  /** `sort_values(ascending=False)`: a reordering by decreasing count. */
  function SortByMissing(s: seq<SummaryRow>): (res: seq<SummaryRow>)
    ensures SortedByMissing(res) && multiset(res) == multiset(s)
  {
    if s == [] then []
    else
      assert s == [s[0]] + s[1..];
      InsertByMissing(s[0], SortByMissing(s[1..]))
  }

  /**
   * The Missing Values Summary: one line per column, each line of the table
   * appearing once, ordered by decreasing missing count.
   */
  function MissingSummary(t: Table): (s: seq<SummaryRow>)
    requires WellFormed(t)
    ensures SortedByMissing(s) && multiset(s) == multiset(ColumnSummaries(t))
  {
    SortByMissing(ColumnSummaries(t))
  }

  /** The summary has one line per column: each column's line is in it, and each of its lines is some column's. */
  lemma MissingSummaryLines(t: Table)
    requires WellFormed(t)
    ensures |MissingSummary(t)| == |t.names|
    ensures forall j :: 0 <= j < |t.names| ==> ColumnSummary(t, j) in MissingSummary(t)
    ensures forall k :: 0 <= k < |MissingSummary(t)| ==>
              exists j :: 0 <= j < |t.names| && MissingSummary(t)[k] == ColumnSummary(t, j)
  {
    ReorderedLines(t, MissingSummary(t));
  }

  /** Any reordering of the per-column lines has one line per column. */
  lemma ReorderedLines(t: Table, s: seq<SummaryRow>)
    requires WellFormed(t) && multiset(s) == multiset(ColumnSummaries(t))
    ensures |s| == |t.names|
    ensures forall j :: 0 <= j < |t.names| ==> ColumnSummary(t, j) in s
    ensures forall k :: 0 <= k < |s| ==> exists j :: 0 <= j < |t.names| && s[k] == ColumnSummary(t, j)
  {
    SameMembers(ColumnSummaries(t), s);
  }

  // ---------------------------------------------------------------------
  // Essential columns

  /** The options of the radio button. */
  datatype EssentialAction = ImputeMean | ImputeRandom | DeleteRows

  /** The positions of the columns named in `essential` (every position carrying a listed name). */
  function EssentialPositions(names: seq<string>, essential: seq<string>): (r: seq<nat>)
    ensures forall k :: 0 <= k < |r| ==> r[k] < |names| && names[r[k]] in essential
    ensures forall j :: 0 <= j < |names| && names[j] in essential ==> j in r
  {
    if names == [] then []
    else
      var n := |names| - 1;
      var prev := EssentialPositions(names[..n], essential);
      assert forall k :: 0 <= k < |prev| ==> names[..n][prev[k]] == names[prev[k]];
      prev + (if names[n] in essential then [n] else [])
  }

  /** The essential columns of numeric dtype: the targets of the imputations. */
  function EssentialNumeric(t: Table, essential: seq<string>): (m: seq<bool>)
    requires WellFormed(t)
    ensures |m| == |t.names|
    ensures forall j :: 0 <= j < |t.names| ==> (m[j] <==> t.kinds[j] == Numeric && t.names[j] in essential)
  {
    seq(|t.names|, j requires 0 <= j < |t.names| => t.kinds[j] == Numeric && t.names[j] in essential)
  }

  /**
   * "Apply Action" for the selected essential columns (nothing is offered
   * when none is selected). The mean imputation fills each essential numeric
   * column with its mean; the random imputation gives each missing cell of
   * an essential numeric column, independently, its minimum or maximum; the
   * deletion keeps the rows present in every essential column and stores
   * the result in the session.
   */
  method ApplyEssentialAction(df: Frame, essential: seq<string>, action: EssentialAction, codec: Codec)
    requires df.Valid()
    modifies df
    ensures df.Valid()
    ensures essential == [] ==> df.Value() == old(df.Value())
    ensures essential != [] && action == ImputeMean ==>
              df.Value() == MapAllColumns(old(df.Value()), FillNumericMeanIn(essential), codec)
    ensures essential != [] && action == ImputeRandom ==>
              RandomlyFilled(old(df.Value()), df.Value(), EssentialNumeric(old(df.Value()), essential), Extremes, PerCell)
    ensures essential != [] && action == DeleteRows ==>
              df.Value() == DropRowsMissingIn(old(df.Value()), EssentialPositions(old(df.names), essential))
  {
    if essential == [] {
      return;
    }
    match action {
      case ImputeMean =>
        df.MapColumnsInPlace(FillNumericMeanIn(essential), codec);
      case ImputeRandom =>
        RandomFillColumns(df, EssentialNumeric(df.Value(), essential), Extremes, PerCell);
      case DeleteRows =>
        df.Assign(DropRowsMissingIn(df.Value(), EssentialPositions(df.names, essential)));
    }
  }

  /**
   * The mean imputation changes only the essential numeric columns and only
   * their missing cells; such a column holding a number has none left.
   */
  lemma EssentialMeanEffect(t: Table, essential: seq<string>, codec: Codec)
    requires WellFormed(t)
    ensures var r := MapAllColumns(t, FillNumericMeanIn(essential), codec);
            r.kinds == t.kinds &&
            (forall j :: 0 <= j < |t.names| && !EssentialNumeric(t, essential)[j] ==> Column(r, j) == Column(t, j)) &&
            (forall i, j :: 0 <= i < |t.rows| && 0 <= j < |t.names| && !t.rows[i][j].Missing? ==>
               r.rows[i][j] == t.rows[i][j]) &&
            (forall j :: 0 <= j < |t.names| && EssentialNumeric(t, essential)[j] && Mean(Column(t, j)).Some? ==>
               forall i :: 0 <= i < |t.rows| ==> !r.rows[i][j].Missing?)
  {
    var r := MapAllColumns(t, FillNumericMeanIn(essential), codec);
    forall i, j | 0 <= i < |t.rows| && 0 <= j < |t.names| && !t.rows[i][j].Missing?
      ensures r.rows[i][j] == t.rows[i][j]
    {
      assert Column(r, j)[i] == r.rows[i][j];
      assert Column(t, j)[i] == t.rows[i][j];
    }
    forall j | 0 <= j < |t.names| && EssentialNumeric(t, essential)[j] && Mean(Column(t, j)).Some?
      ensures forall i :: 0 <= i < |t.rows| ==> !r.rows[i][j].Missing?
    {
      FillCellsEffect(Column(t, j), Num(Mean(Column(t, j)).value));
      forall i | 0 <= i < |t.rows| ensures !r.rows[i][j].Missing? {
        assert Column(r, j)[i] == r.rows[i][j];
      }
    }
  }

  /**
   * The deletion removes exactly the rows missing a cell of an essential
   * column, keeping the others in order: a row missing only cells of other
   * columns survives.
   */
  lemma EssentialDeleteEffect(t: Table, essential: seq<string>) returns (idx: seq<nat>)
    requires WellFormed(t)
    ensures var r := DropRowsMissingIn(t, EssentialPositions(t.names, essential));
            Embeds(r.rows, t.rows, idx) &&
            (forall i :: 0 <= i < |t.rows| ==>
               (i in idx <==> forall j :: 0 <= j < |t.names| && t.names[j] in essential ==> !t.rows[i][j].Missing?))
  {
    var cols := EssentialPositions(t.names, essential);
    idx := DropRowsMissingInEffect(t, cols);
    forall i | 0 <= i < |t.rows|
      ensures (forall k :: 0 <= k < |cols| ==> !t.rows[i][cols[k]].Missing?) <==>
              (forall j :: 0 <= j < |t.names| && t.names[j] in essential ==> !t.rows[i][j].Missing?)
    {
      if forall k :: 0 <= k < |cols| ==> !t.rows[i][cols[k]].Missing? {
        forall j | 0 <= j < |t.names| && t.names[j] in essential ensures !t.rows[i][j].Missing? {
          var k :| 0 <= k < |cols| && cols[k] == j;
        }
      }
    }
  }

  // ---------------------------------------------------------------------
  // Standardize Column Names

  /**
   * "Standardize Columns": every name stripped, lower-cased and with spaces
   * turned into underscores; the columns and rows are kept.
   */
  method StandardizeColumnNames(df: Frame)
    requires df.Valid()
    modifies df
    ensures df.Valid() && df.Value() == RenameColumns(old(df.Value()), StandardizeName)
  {
    df.Assign(RenameColumns(df.Value(), StandardizeName));
  }

  /** Distinct names can collide: "Age" and "age" both become "age", and nothing resolves it. */
  lemma CollidingNames()
    ensures StandardizeName("Age") == StandardizeName("age") == "age"
  {
    assert !EdgeWhitespace("Age") && !EdgeWhitespace("age");
    var lower := Lower("Age");
    assert lower[0] == 'a' && lower[1] == 'g' && lower[2] == 'e';
    assert lower == "age";
    assert Lower("age") == "age";
    var r := ReplaceChar("age", ' ', '_');
    assert r[0] == 'a' && r[1] == 'g' && r[2] == 'e';
    assert r == "age";
  }
}
