/**
 * The 4 January 2025 revision of the app (`optenalize040125v2.py`). Its
 * pre-check only chooses a message and writes nothing to the session; the
 * EDA goal is gated on the redirect key, which no code of this revision
 * sets. Its cleaning workflow (placeholder replacement and duplicate
 * removal) is the code of the 3 January revision, modelled there by
 * `Optenalize030125.ApplyPlaceholderReplacement` and
 * `Frames.Frame.DropDuplicates`.
 */
module Optenalize040125 {
  import opened Seqs
  import opened Text
  import opened Tables
  import opened Precheck
  import Previous = Optenalize030125

  /** The message `dataset_precheck` ends with. */
  datatype PrecheckMessage =
    | EdaRequiresCleanDataset  // error and the hint to choose "Clean the dataset"
    | ResolveBeforeProceeding  // "Please resolve them before proceeding."
    | ReadyToProceed           // "No issues detected in the dataset. Ready to proceed."

  /**
   * `dataset_precheck`: the success message exactly when the table has no
   * missing cell, no duplicate row and only identifier names; the EDA hint
   * exactly when it has issues and the goal is EDA. Being a function, it
   * sets no routing flag.
   */
  function DatasetPrecheck(t: Table, goal: Previous.Goal): (m: PrecheckMessage)
    requires WellFormed(t)
    ensures m == ReadyToProceed <==>
              NoMissingCell(t) && Distinct(t.rows) && forall j :: 0 <= j < |t.names| ==> IsIdentifier(t.names[j])
    ensures m == EdaRequiresCleanDataset <==> IssuesDetected(t) && goal == Previous.Eda
  {
    if IssuesDetected(t) then
      if goal == Previous.Eda then EdaRequiresCleanDataset else ResolveBeforeProceeding
    else ReadyToProceed
  }

  /** What the goal dispatch at the end of the page renders. */
  datatype Page = CleaningPage | EdaPage | ReturnToGoalWarning

  /**
   * Only the cleaning and EDA goals render something; EDA is replaced by a
   * warning when the redirect key is set.
   */
  function RenderedPages(goal: Previous.Goal, redirect: bool): (p: seq<Page>)
    ensures CleaningPage in p <==> goal == Previous.CleanDataset
    ensures EdaPage in p <==> goal == Previous.Eda && !redirect
    ensures ReturnToGoalWarning in p <==> goal == Previous.Eda && redirect
    ensures |p| <= 1
  {
    match goal
    case CleanDataset => [CleaningPage]
    case Eda => if redirect then [ReturnToGoalWarning] else [EdaPage]
    case _ => []
  }

  /**
   * The pre-check no longer writes the redirect key, which therefore reads
   * as false on every run: whenever the pre-check tells the user that EDA
   * requires a clean dataset, the same run still renders the EDA workflow,
   * and a table with issues under the EDA goal always gets both.
   */
  lemma EdaNotBlockedByIssues(t: Table, goal: Previous.Goal)
    requires WellFormed(t)
    ensures DatasetPrecheck(t, goal) == EdaRequiresCleanDataset ==> RenderedPages(goal, false) == [EdaPage]
    ensures IssuesDetected(t) && goal == Previous.Eda ==>
              DatasetPrecheck(t, goal) == EdaRequiresCleanDataset && RenderedPages(goal, false) == [EdaPage]
  {
  }
}
