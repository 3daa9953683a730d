/**
 * The dataset pre-check (`dataset_precheck_workflow`, and `dataset_precheck`
 * in the two optenalize revisions): a table has issues when it has a
 * missing cell, a duplicate row, or a column name that is not a Python
 * identifier. The table is only read.
 */
module Precheck {
  import opened Seqs
  import opened Text
  import opened Tables

  predicate NonStandard(name: string) {
    !IsIdentifier(name)
  }

  /** `[col for col in dataset.columns if not col.isidentifier()]`. */
  function NonStandardNames(names: seq<string>): (r: seq<string>)
    ensures forall k :: 0 <= k < |r| ==> r[k] in names && !IsIdentifier(r[k])
    ensures forall j :: 0 <= j < |names| && !IsIdentifier(names[j]) ==> names[j] in r
  {
    NonStandardListed(names);
    Filter(names, NonStandard)
  }

  /** The filter keeps exactly the names that fail the identifier test. */
  lemma NonStandardListed(names: seq<string>)
    ensures forall k :: 0 <= k < |Filter(names, NonStandard)| ==>
              Filter(names, NonStandard)[k] in names && !IsIdentifier(Filter(names, NonStandard)[k])
    ensures forall j :: 0 <= j < |names| && !IsIdentifier(names[j]) ==> names[j] in Filter(names, NonStandard)
  {
    var r := Filter(names, NonStandard);
    var idx := FilterPositions(names, NonStandard);
    forall k | 0 <= k < |r| ensures r[k] in names && !IsIdentifier(r[k]) {
      assert r[k] == names[idx[k]];
      assert idx[k] in idx;
    }
    forall j | 0 <= j < |names| && !IsIdentifier(names[j]) ensures names[j] in r {
      var k :| 0 <= k < |idx| && idx[k] == j;
    }
  }

  /**
   * The accumulated `issues_detected` flag: true exactly when some cell is
   * missing, some row repeats an earlier one, or some column name is not an
   * identifier.
   */
  function IssuesDetected(t: Table): (issues: bool)
    requires WellFormed(t)
    ensures issues <==> !NoMissingCell(t) || !Distinct(t.rows) ||
                        exists j :: 0 <= j < |t.names| && !IsIdentifier(t.names[j])
  {
    BlankCellsZero(t);
    var nonStandard := NonStandardNames(t.names);
    assert nonStandard != [] ==> nonStandard[0] in t.names;
    BlankCells(t) > 0 || DuplicateRows(t) > 0 || nonStandard != []
  }

  /**
   * `isidentifier` flags names with a space, a hyphen or a leading digit,
   * and accepts keywords such as "class".
   */
  lemma IdentifierExamples()
    ensures !IsIdentifier("my col") && !IsIdentifier("a-b") && !IsIdentifier("1x") && !IsIdentifier("")
    ensures IsIdentifier("class") && IsIdentifier("_id2")
  {
    assert "my col"[2] == ' ';
    assert "a-b"[1] == '-';
  }

  /** A table with identifier names, no missing cell and no duplicate row has no issue. */
  lemma CleanTableHasNoIssues(t: Table)
    requires WellFormed(t) && NoMissingCell(t) && DuplicateRows(t) == 0
    requires forall j :: 0 <= j < |t.names| ==> IsIdentifier(t.names[j])
    ensures !IssuesDetected(t)
  {
  }
}
