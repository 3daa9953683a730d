/**
 * The 3 January 2025 revision of the app (`optenalize030125.py`): the
 * pre-check sets routing flags in the session when the goal is EDA, the
 * page then renders the cleaning or EDA workflow from those flags and from
 * the selected goal, and the cleaning workflow replaces typed placeholders
 * and removes duplicate rows.
 */
module Optenalize030125 {
  import opened Seqs
  import opened Tables
  import opened Text
  import opened Cleaning
  import opened Frames
  import opened Precheck

  /** The options of "Select your goal:". */
  datatype Goal = CleanDataset | Eda | TrainModel | GeneralMl | CustomGoal

  /** The options of "How would you like to proceed?". */
  datatype Choice = CleanNow | ProceedWithWarnings

  /**
   * The two routing keys of the session state; a key never written reads as
   * false through `session_state.get`.
   */
  class Routing {
    var redirectToCleaning: bool
    var proceedWithWarnings: bool

    constructor ()
      ensures !redirectToCleaning && !proceedWithWarnings
    {
      redirectToCleaning := false;
      proceedWithWarnings := false;
    }
  }

  /**
   * `dataset_precheck`: reports whether the table has issues; when it has
   * and the goal is EDA, the chosen option sets exactly its own flag. No
   * flag is ever set back to false, so a flag once set stays set.
   */
  method DatasetPrecheck(t: Table, goal: Goal, choice: Choice, routing: Routing) returns (issues: bool)
    requires WellFormed(t)
    modifies routing
    ensures issues <==> !NoMissingCell(t) || !Distinct(t.rows) ||
                        exists j :: 0 <= j < |t.names| && !IsIdentifier(t.names[j])
    ensures issues && goal == Eda && choice == CleanNow ==>
              routing.redirectToCleaning && routing.proceedWithWarnings == old(routing.proceedWithWarnings)
    ensures issues && goal == Eda && choice == ProceedWithWarnings ==>
              routing.proceedWithWarnings && routing.redirectToCleaning == old(routing.redirectToCleaning)
    ensures !(issues && goal == Eda) ==>
              routing.redirectToCleaning == old(routing.redirectToCleaning) &&
              routing.proceedWithWarnings == old(routing.proceedWithWarnings)
    ensures old(routing.redirectToCleaning) ==> routing.redirectToCleaning
    ensures old(routing.proceedWithWarnings) ==> routing.proceedWithWarnings
  {
    issues := IssuesDetected(t);
    if issues && goal == Eda {
      match choice {
        case CleanNow => routing.redirectToCleaning := true;
        case ProceedWithWarnings => routing.proceedWithWarnings := true;
      }
    }
  }

  /**
   * The banner of `eda_workflow`: when proceeding with warnings, "Return to
   * Data Cleaning" sets the redirect flag; nothing else changes.
   */
  method EdaWarningBanner(routing: Routing, returnClicked: bool)
    modifies routing
    ensures routing.redirectToCleaning <==>
              old(routing.redirectToCleaning) || (old(routing.proceedWithWarnings) && returnClicked)
    ensures routing.proceedWithWarnings == old(routing.proceedWithWarnings)
  {
    if routing.proceedWithWarnings && returnClicked {
      routing.redirectToCleaning := true;
    }
  }

  /**
   * What one run of the page renders below the upload step.
   * `DuplicateWidgetId` ends the run: a workflow rendered a second time
   * re-creates its first widget with the same identity (the keyed
   * placeholder input of the cleaning workflow, the "Return to Data
   * Cleaning" button of the EDA workflow under warnings), and Streamlit
   * raises there.
   */
  datatype Page = CleaningPage | EdaPage | Info(text: string) | DuplicateWidgetId

  /**
   * The pages rendered in order: after an upload, the flags choose cleaning
   * (redirect first) or EDA; then the goal chooses its own page regardless.
   * When both choose the same workflow, the second call raises instead of
   * rendering it again.
   */
  function RenderedPages(uploaded: bool, redirect: bool, proceed: bool, goal: Goal): (p: seq<Page>)
    ensures CleaningPage in p <==> goal == CleanDataset || (uploaded && redirect)
    ensures EdaPage in p <==> goal == Eda || (uploaded && !redirect && proceed)
    ensures DuplicateWidgetId in p <==>
              uploaded && ((redirect && goal == CleanDataset) || (!redirect && proceed && goal == Eda))
    ensures DuplicateWidgetId in p ==> p[|p| - 1] == DuplicateWidgetId
    ensures forall i, j :: 0 <= i < j < |p| ==> p[i] != p[j]
    ensures |p| <= 2
  {
    if uploaded && redirect then
      if goal == CleanDataset then [CleaningPage, DuplicateWidgetId] else [CleaningPage] + GoalPage(goal)
    else if uploaded && proceed then
      if goal == Eda then [EdaPage, DuplicateWidgetId] else [EdaPage] + GoalPage(goal)
    else GoalPage(goal)
  }

  /** The goal dispatch at the end of the page: one workflow or one message per goal. */
  function GoalPage(goal: Goal): (p: seq<Page>)
    ensures |p| == 1 && p[0] != DuplicateWidgetId
    ensures p[0] == CleaningPage <==> goal == CleanDataset
    ensures p[0] == EdaPage <==> goal == Eda
  {
    match goal
    case CleanDataset => [CleaningPage]
    case Eda => [EdaPage]
    case TrainModel => [Info(TrainModelMessage)]
    case GeneralMl => [Info(GeneralMlMessage)]
    case CustomGoal => [Info(CustomGoalMessage)]
  }

  const TrainModelMessage := "Predictive modeling workflow will be implemented next."
  const GeneralMlMessage := "General ML workflow will be implemented next."
  const CustomGoalMessage := "Custom workflow will be implemented next."

  /**
   * Choosing "Clean the dataset now" does not keep EDA away: with the EDA
   * goal the page renders the cleaning workflow and then the EDA workflow.
   */
  lemma RedirectStillShowsEda()
    ensures RenderedPages(true, true, false, Eda) == [CleaningPage, EdaPage]
  {
  }

  /**
   * Once a flag is set it outlives the goal: with the cleaning goal and the
   * redirect flag from an earlier EDA run, the cleaning workflow is rendered
   * once and its second call raises.
   */
  lemma LeftoverRedirectRaises()
    ensures RenderedPages(true, true, false, CleanDataset) == [CleaningPage, DuplicateWidgetId]
  {
  }

  /**
   * "Apply Placeholder Replacement": the text is split on commas and each
   * piece stripped; every cell equal to one of the pieces becomes missing,
   * in place, and every other cell is kept.
   */
  method ApplyPlaceholderReplacement(df: Frame, text: string, codec: Codec) returns (placeholders: seq<string>)
    requires df.Valid()
    modifies df
    ensures placeholders == ParsePlaceholders(text)
    ensures df.Valid() && df.Value() == MapAllColumns(old(df.Value()), ReplacePlaceholders(placeholders), codec)
    ensures df.kinds == old(df.kinds) && |df.rows| == |old(df.rows)|
    ensures forall i, j :: 0 <= i < |df.rows| && 0 <= j < |df.names| ==>
              df.rows[i][j] == (if old(df.rows)[i][j].Str? && old(df.rows)[i][j].text in placeholders then Missing
                                else old(df.rows)[i][j])
  {
    placeholders := ParsePlaceholders(text);
    PlaceholderEffect(df.Value(), codec, placeholders);
    df.MapColumnsInPlace(ReplacePlaceholders(placeholders), codec);
  }
}
