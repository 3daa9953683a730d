/**
 * Operations that select rows or columns: `dropna()`, `dropna(subset=...)`,
 * the edge-whitespace row filter, `drop_duplicates()`, `drop(columns=...)`
 * with the missing-ratio column selection, and renaming columns.
 */
module TableOps {
  import opened Wrappers
  import opened Seqs
  import opened Text
  import opened Tables

  /** The rows of `t` that satisfy `p`, in order; header and dtypes unchanged. */
  function FilterRows(t: Table, p: Row -> bool): (r: Table)
    requires WellFormed(t)
    ensures WellFormed(r) && r.names == t.names && r.kinds == t.kinds
    ensures |r.rows| == Count(t.rows, p)
  {
    FilteredRowsFit(t, p);
    Table(t.names, t.kinds, Filter(t.rows, p))
  }

  lemma FilteredRowsFit(t: Table, p: Row -> bool)
    requires WellFormed(t)
    ensures WellFormed(Table(t.names, t.kinds, Filter(t.rows, p)))
  {
    var idx := FilterPositions(t.rows, p);
  }

  /** Every kept row satisfies `p`, and kept rows are exactly those, in their original order. */
  lemma FilterRowsKeeps(t: Table, p: Row -> bool) returns (idx: seq<nat>)
    requires WellFormed(t)
    ensures Embeds(FilterRows(t, p).rows, t.rows, idx)
    ensures forall i :: 0 <= i < |t.rows| ==> (p(t.rows[i]) <==> i in idx)
    ensures forall k :: 0 <= k < |FilterRows(t, p).rows| ==> p(FilterRows(t, p).rows[k])
  {
    idx := FilterPositions(t.rows, p);
    forall k | 0 <= k < |idx| ensures p(FilterRows(t, p).rows[k]) {
      assert idx[k] in idx;
    }
  }

  // ---------------------------------------------------------------------
  // Row filters

  /** The row has no missing cell. */
  predicate RowComplete(r: Row) {
    forall j :: 0 <= j < |r| ==> !r[j].Missing?
  }

  /** `dropna()`: the rows without a missing cell. */
  function DropIncompleteRows(t: Table): (r: Table)
    requires WellFormed(t)
    ensures WellFormed(r) && r.names == t.names && r.kinds == t.kinds
  {
    FilterRows(t, RowComplete)
  }

  /**
   * "Remove Rows with Missing Values": the result has no missing cell and
   * holds exactly the complete rows, in order.
   */
  lemma DropIncompleteRowsEffect(t: Table) returns (idx: seq<nat>)
    requires WellFormed(t)
    ensures NoMissingCell(DropIncompleteRows(t))
    ensures Embeds(DropIncompleteRows(t).rows, t.rows, idx)
    ensures forall i :: 0 <= i < |t.rows| ==> (RowComplete(t.rows[i]) <==> i in idx)
  {
    idx := FilterRowsKeeps(t, RowComplete);
    var r := DropIncompleteRows(t);
    forall i, j | 0 <= i < |r.rows| && 0 <= j < |r.rows[i]| ensures !r.rows[i][j].Missing? {
      assert RowComplete(r.rows[i]);
    }
  }

  /** The row has a present cell in each of the given columns. */
  predicate CompleteIn(cols: seq<nat>, r: Row) {
    forall k :: 0 <= k < |cols| && cols[k] < |r| ==> !r[cols[k]].Missing?
  }

  /** `dropna(subset=cols)`: the rows whose listed columns are all present. */
  function DropRowsMissingIn(t: Table, cols: seq<nat>): (r: Table)
    requires WellFormed(t)
    ensures WellFormed(r) && r.names == t.names && r.kinds == t.kinds
  {
    FilterRows(t, (r: Row) => CompleteIn(cols, r))
  }

  /**
   * Deleting rows over a subset removes exactly the rows missing a listed
   * cell: a row missing only cells of other columns survives.
   */
  lemma DropRowsMissingInEffect(t: Table, cols: seq<nat>) returns (idx: seq<nat>)
    requires WellFormed(t)
    requires forall k :: 0 <= k < |cols| ==> cols[k] < |t.names|
    ensures Embeds(DropRowsMissingIn(t, cols).rows, t.rows, idx)
    ensures forall i :: 0 <= i < |t.rows| ==>
              (i in idx <==> forall k :: 0 <= k < |cols| ==> !t.rows[i][cols[k]].Missing?)
    ensures forall i, k :: 0 <= i < |DropRowsMissingIn(t, cols).rows| && 0 <= k < |cols| ==>
              !DropRowsMissingIn(t, cols).rows[i][cols[k]].Missing?
  {
    idx := FilterRowsKeeps(t, (r: Row) => CompleteIn(cols, r));
  }

  /** No cell of the row has edge whitespace. */
  predicate RowWithoutEdgeWhitespace(r: Row) {
    forall j :: 0 <= j < |r| ==> !HasEdgeWhitespace(r[j])
  }

  /** No cell of the row among its first `n` has edge whitespace. */
  predicate NoEdgeWhitespaceBefore(n: nat, r: Row) {
    forall j :: 0 <= j < n && j < |r| ==> !HasEdgeWhitespace(r[j])
  }

  /** Cell `j` of the row has no edge whitespace (a row too short has none). */
  predicate NoEdgeWhitespaceAt(j: nat, r: Row) {
    j < |r| ==> !HasEdgeWhitespace(r[j])
  }

  /** "Remove Rows with Whitespaces": the rows in which no cell has edge whitespace. */
  function DropWhitespaceRows(t: Table): (r: Table)
    requires WellFormed(t)
    ensures WellFormed(r) && r.names == t.names && r.kinds == t.kinds
  {
    FilterRows(t, RowWithoutEdgeWhitespace)
  }

  /** The whitespace row filter leaves no edge whitespace and keeps exactly the clean rows, in order. */
  lemma DropWhitespaceRowsEffect(t: Table) returns (idx: seq<nat>)
    requires WellFormed(t)
    ensures NoEdgeWhitespace(DropWhitespaceRows(t))
    ensures Embeds(DropWhitespaceRows(t).rows, t.rows, idx)
    ensures forall i :: 0 <= i < |t.rows| ==> (RowWithoutEdgeWhitespace(t.rows[i]) <==> i in idx)
  {
    idx := FilterRowsKeeps(t, RowWithoutEdgeWhitespace);
    var r := DropWhitespaceRows(t);
    forall i, j | 0 <= i < |r.rows| && 0 <= j < |r.rows[i]| ensures !HasEdgeWhitespace(r.rows[i][j]) {
      assert RowWithoutEdgeWhitespace(r.rows[i]);
    }
  }

  /**
   * Filtering column by column, as the workflows do, keeps after column `j`
   * the rows clean in the columns before and at `j`.
   */
  lemma WhitespaceFilterStep(t: Table, j: nat)
    requires WellFormed(t)
    ensures FilterRows(FilterRows(t, (r: Row) => NoEdgeWhitespaceBefore(j, r)), (r: Row) => NoEdgeWhitespaceAt(j, r)) ==
            FilterRows(t, (r: Row) => NoEdgeWhitespaceBefore(j + 1, r))
  {
    FilterFilter(t.rows, (r: Row) => NoEdgeWhitespaceBefore(j, r), (r: Row) => NoEdgeWhitespaceAt(j, r),
                 (r: Row) => NoEdgeWhitespaceBefore(j + 1, r));
  }

  /** Before any column nothing is filtered; after all columns the filter is the whole-row one. */
  lemma WhitespaceFilterEnds(t: Table)
    requires WellFormed(t)
    ensures FilterRows(t, (r: Row) => NoEdgeWhitespaceBefore(0, r)) == t
    ensures FilterRows(t, (r: Row) => NoEdgeWhitespaceBefore(|t.names|, r)) == DropWhitespaceRows(t)
  {
    FilterAll(t.rows, (r: Row) => NoEdgeWhitespaceBefore(0, r));
    FilterSame(t.rows, (r: Row) => NoEdgeWhitespaceBefore(|t.names|, r), RowWithoutEdgeWhitespace);
  }

  /**
   * The workflows' loop `for col in dataset.columns: dataset = dataset[~...]`,
   * which rebinds the filtered table after each column: it ends at the
   * whole-row filter.
   */
  method FilterWhitespaceRowsByColumn(t: Table) returns (r: Table)
    requires WellFormed(t)
    ensures r == DropWhitespaceRows(t)
  {
    r := t;
    WhitespaceFilterEnds(t);
    for j := 0 to |t.names|
      invariant r == FilterRows(t, (row: Row) => NoEdgeWhitespaceBefore(j, row))
    {
      WhitespaceFilterStep(t, j);
      r := FilterRows(r, (row: Row) => NoEdgeWhitespaceAt(j, row));
    }
  }

  lemma {:induction false} FilterSame<T>(s: seq<T>, p: T -> bool, q: T -> bool)
    requires forall i :: 0 <= i < |s| ==> p(s[i]) == q(s[i])
    ensures Filter(s, p) == Filter(s, q)
  {
    if s != [] {
      FilterSame(s[..|s| - 1], p, q);
    }
  }

  // ---------------------------------------------------------------------
  // Duplicates

  /** `drop_duplicates()`: the first occurrence of every row, in order. */
  function DropDuplicateRows(t: Table): (r: Table)
    requires WellFormed(t)
    ensures WellFormed(r) && r.names == t.names && r.kinds == t.kinds
    ensures DuplicateRows(r) == 0
    ensures |t.rows| - |r.rows| == DuplicateRows(t)
  {
    var rows := Dedup(t.rows);
    assert forall k :: 0 <= k < |rows| ==> rows[k] in t.rows;
    Table(t.names, t.kinds, rows)
  }

  /**
   * Deduplication keeps exactly the rows that do not repeat an earlier row,
   * in order, and a second pass changes nothing.
   */
  lemma DropDuplicateRowsEffect(t: Table) returns (idx: seq<nat>)
    requires WellFormed(t)
    ensures Embeds(DropDuplicateRows(t).rows, t.rows, idx)
    ensures forall i :: 0 <= i < |t.rows| ==> (!IsRepeat(t.rows, i) <==> i in idx)
    ensures DropDuplicateRows(DropDuplicateRows(t)) == DropDuplicateRows(t)
  {
    idx := DedupPositions(t.rows);
    DedupIdempotent(t.rows);
  }

  // ---------------------------------------------------------------------
  // Columns

  /** The columns whose mask entry is true, in order. */
  function KeepColumns(t: Table, mask: seq<bool>): (r: Table)
    requires WellFormed(t) && |mask| == |t.names|
    ensures WellFormed(r) && |r.rows| == |t.rows|
    ensures r.names == Keep(t.names, mask) && r.kinds == Keep(t.kinds, mask)
  {
    var rows := seq(|t.rows|, i requires 0 <= i < |t.rows| => Keep(t.rows[i], mask));
    var r := Table(Keep(t.names, mask), Keep(t.kinds, mask), rows);
    forall i, k | 0 <= i < |rows| && 0 <= k < |rows[i]| ensures Fits(r.kinds[k], rows[i][k]) {
      KeepAt(t.rows[i], mask, k);
      KeepAt(t.kinds, mask, k);
    }
    r
  }

  /** Column `k` of the result is the original column at the k-th kept position. */
  lemma KeepColumnsAt(t: Table, mask: seq<bool>, k: nat)
    requires WellFormed(t) && |mask| == |t.names| && k < Count(mask, IsTrue)
    ensures KeptPosition(mask, k) < |t.names|
    ensures Column(KeepColumns(t, mask), k) == Column(t, KeptPosition(mask, k))
    ensures KeepColumns(t, mask).names[k] == t.names[KeptPosition(mask, k)]
  {
    var r := KeepColumns(t, mask);
    KeepAt(t.names, mask, k);
    forall i | 0 <= i < |t.rows| ensures r.rows[i][k] == t.rows[i][KeptPosition(mask, k)] {
      KeepAt(t.rows[i], mask, k);
    }
  }

  /** Which columns `drop(columns=cols)` keeps: those whose name is not listed. */
  function UnlistedMask(names: seq<string>, cols: seq<string>): (m: seq<bool>)
    ensures |m| == |names|
    ensures forall j :: 0 <= j < |names| ==> (m[j] <==> names[j] !in cols)
  {
    seq(|names|, j requires 0 <= j < |names| => names[j] !in cols)
  }

  /** `drop(columns=cols)`: KeyError (None) when a listed name is not a column. */
  function DropColumns(t: Table, cols: seq<string>): (r: Option<Table>)
    requires WellFormed(t)
    ensures r.None? <==> exists k :: 0 <= k < |cols| && cols[k] !in t.names
    ensures r.Some? ==> WellFormed(r.value) && |r.value.rows| == |t.rows|
    ensures r.Some? ==> forall j :: 0 <= j < |r.value.names| ==> r.value.names[j] !in cols
    ensures r.Some? ==> forall j :: 0 <= j < |t.names| && t.names[j] !in cols ==> t.names[j] in r.value.names
    ensures r.Some? ==> r.value == KeepColumns(t, UnlistedMask(t.names, cols))
  {
    if exists k :: 0 <= k < |cols| && cols[k] !in t.names then None
    else
      var mask := UnlistedMask(t.names, cols);
      var r := KeepColumns(t, mask);
      forall k | 0 <= k < |r.names| ensures r.names[k] !in cols {
        KeepAt(t.names, mask, k);
      }
      forall j | 0 <= j < |t.names| && t.names[j] !in cols ensures t.names[j] in r.names {
        KeptMember(t.names, mask, j);
      }
      Some(r)
  }

  /** `dataset[col].isnull().mean() > threshold` for every column (NaN for an empty table compares false). */
  function MissingAbove(t: Table, threshold: real): (m: seq<bool>)
    requires WellFormed(t)
    ensures |m| == |t.names|
    ensures forall j :: 0 <= j < |t.names| ==>
              (m[j] <==> |t.rows| > 0 && (MissingInColumn(t.kinds[j], Column(t, j)) as real) / (|t.rows| as real) > threshold)
  {
    seq(|t.names|, j requires 0 <= j < |t.names| =>
      |t.rows| > 0 && (MissingInColumn(t.kinds[j], Column(t, j)) as real) / (|t.rows| as real) > threshold)
  }

  /** The names of the columns whose missing ratio is strictly above `threshold`, in order. */
  function HighMissingNames(t: Table, threshold: real): (names: seq<string>)
    requires WellFormed(t)
    ensures forall k :: 0 <= k < |names| ==> names[k] in t.names
  {
    var m := MissingAbove(t, threshold);
    var names := Keep(t.names, m);
    forall k | 0 <= k < |names| ensures names[k] in t.names {
      KeepAt(t.names, m, k);
    }
    names
  }

  /** Negation of a mask. */
  function Invert(m: seq<bool>): (r: seq<bool>)
    ensures |r| == |m| && forall j :: 0 <= j < |m| ==> r[j] == !m[j]
  {
    seq(|m|, j requires 0 <= j < |m| => !m[j])
  }

  /**
   * With distinct names, dropping the high-missing names removes exactly
   * the columns above the threshold and keeps the others, in order, with
   * every row.
   */
  lemma DropHighMissingExact(t: Table, threshold: real)
    requires WellFormed(t) && Distinct(t.names)
    ensures DropColumns(t, HighMissingNames(t, threshold)) ==
            Some(KeepColumns(t, Invert(MissingAbove(t, threshold))))
  {
    var m := MissingAbove(t, threshold);
    UnlistedKept(t.names, m);
  }

  /** With distinct names, the names not among the kept ones are exactly those the mask drops. */
  lemma UnlistedKept(names: seq<string>, m: seq<bool>)
    requires |m| == |names| && Distinct(names)
    ensures UnlistedMask(names, Keep(names, m)) == Invert(m)
  {
    var listed := Keep(names, m);
    forall j | 0 <= j < |names| ensures (names[j] in listed) == m[j] {
      if m[j] {
        KeptMember(names, m, j);
      }
      if names[j] in listed {
        MemberKept(names, m, j);
      }
    }
  }

  // ---------------------------------------------------------------------
  // Column names

  /** `str.strip().str.lower().str.replace(" ", "_")` on one name. */
  function StandardizeName(name: string): (r: string)
    ensures |r| <= |name|
    ensures ' ' !in r
    ensures !EdgeWhitespace(r)
  {
    var r := ReplaceChar(Lower(Strip(name)), ' ', '_');
    assert forall i :: 0 <= i < |r| ==> r[i] != ' ';
    var s := Strip(name);
    assert |s| > 0 ==> !IsSpace(s[0]) && !IsSpace(s[|s| - 1]);
    r
  }

  /** Standardising a standardised name changes nothing. */
  lemma StandardizeNameIdempotent(name: string)
    ensures StandardizeName(StandardizeName(name)) == StandardizeName(name)
  {
    var once := StandardizeName(name);
    assert Strip(once) == once;
    assert Lower(once) == once;
    assert ReplaceChar(once, ' ', '_') == once;
  }

  /** `dataset.columns = f(dataset.columns)`: only the header changes. */
  function RenameColumns(t: Table, f: string -> string): (r: Table)
    requires WellFormed(t)
    ensures WellFormed(r) && r.kinds == t.kinds && r.rows == t.rows
    ensures |r.names| == |t.names| && forall j :: 0 <= j < |t.names| ==> r.names[j] == f(t.names[j])
  {
    Table(seq(|t.names|, j requires 0 <= j < |t.names| => f(t.names[j])), t.kinds, t.rows)
  }
}
