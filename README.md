# Optenalize data-quality engine, modelled in Dafny

Optenalize is a set of Streamlit apps that load a pandas DataFrame, scan it for quality
problems and clean it. Most of its scripts re-implement one small engine with variations:

- the Smart Data Health Center (`improved_data_health_center.py`), with these parts:
  - a weighted quality score and its colour band;
  - a rule table of recommendation records in a fixed category order;
  - a fix applier that works on a copy of the table and writes an audit log;
  - a severity tally and an issue grouping, which feed the dashboard;
- the pre-checks: an "issues detected" flag and per-issue cell counters;
- the cleaning workflows, each a small table transformer:
  - mean, mode and constant fills;
  - random fills from a column's numbers or from its minimum and maximum;
  - forward fill followed by backward fill;
  - placeholder-to-missing replacement;
  - dropping rows that have a missing cell or edge whitespace;
  - dropping columns above a missing-ratio threshold;
  - trimming text;
  - normalising column names;
  - selecting and parsing date columns;
- an append-only audit log of `(timestamp, message)` pairs.

The model shares one table abstraction:

- `Tables.Table(names, kinds, rows)` holds the column names, one dtype per column and the rows.
- The dtypes are `Numeric`, `Object` and `Datetime`.
- Each cell is `Missing`, `Num(real)`, `Str(string)` or `Date(int)`.
- `WellFormed` says that every row is as wide as the header and that every cell fits its column's dtype, as pandas guarantees.
- A DataFrame that the source changes in place is a `Frames.Frame` object. Its `names`, `kinds` and `rows` fields are reassigned by methods with `modifies` clauses.
- The session's action log is a `Frames.ActionLog`, a sequence that only `Append` changes.
- Conversions done inside pandas are fields of a `Cleaning.Codec` value, which every operation takes as a parameter:
  - `str()` of a number or timestamp;
  - `to_numeric`;
  - `to_datetime` in its inferred, day-first and explicit-format modes;
  - `strftime`.
- Clocks are a `now` parameter, read once per run: every entry one run of fixes logs carries the same `now`, where the source reads `datetime.now()` at each `log_action`.
- Random draws are nondeterministic choices, stated as relations such as `RandomFill.RandomlyFilled`.

Duplicate rows follow `DataFrame.duplicated()`:

- A row is a duplicate when it equals an earlier row, with missing cells comparing equal.
- `drop_duplicates` keeps the first occurrence.

A cell has edge whitespace when it is text whose first or last character is whitespace, as the regex `^\s|\s$` tests.

## Model

| member | source | states |
|---|---|---|
| HealthScore.QualityScore | improved_data_health_center.py:24-35 | undefined (NaN) exactly when the table has no row or no column; otherwise in [0, 100], and exactly 100 iff no cell is missing, no row repeats an earlier one and every column holds one Python type |
| HealthScore.MissingMetric | improved_data_health_center.py:27 | one minus the share of missing cells among all cells; in [0, 1]; equal to 1 iff no cell is missing |
| HealthScore.DuplicateMetric | improved_data_health_center.py:28 | 1 for a table without rows; in [0, 1]; equal to 1 iff there is no duplicate row |
| HealthScore.TypeConsistency | improved_data_health_center.py:29 | 0 for a table without columns; in [0, 1]; equal to 1 iff every column is single-typed |
| HealthScore.RatioSumIsShare | improved_data_health_center.py:27 | the mean over columns of the per-column missing ratios equals missing cells divided by rows (before the division by the column count) |
| HealthScore.MissingShare | improved_data_health_center.py:27 | the mean of the per-column missing ratios is the share of missing cells, lies in [0, 1], and is 0 iff no cell is missing |
| HealthScore.SumColumnsBound | improved_data_health_center.py:27 | a per-column count bounded by the column length sums to at most columns times rows |
| HealthScore.ScoreColorMonotone | improved_data_health_center.py:265-271 | a higher score never gets a worse colour band (red < orange < green) |
| HealthScore.PerfectTableIsGreen | improved_data_health_center.py:24-35 | a non-empty table with no missing cell, no duplicate and single-typed columns scores 100 and is green |
| Recommendations.ColumnRecord | improved_data_health_center.py:43-133 | a per-column rule yields a record for column j exactly when the column is flagged, carrying the rule's issue and the column's name |
| Recommendations.DuplicateRecord | improved_data_health_center.py:68-78 | one duplicate record iff some row is a duplicate; it removes duplicates and is auto-fixed; severity Medium iff duplicates are fewer than a tenth of the rows, otherwise High (a ratio of exactly 0.1 is High) |
| Recommendations.HighMissingRecord | improved_data_health_center.py:107-118 | one record iff some column has more than 70% missing cells; it is High, never auto-fixed, and removes exactly the columns over the threshold |
| Recommendations.GenerateRecommendations | improved_data_health_center.py:38-135 | the appending loops build exactly the specification sequence `Recommendations(t)` |
| Recommendations.ScanColumns | improved_data_health_center.py:81-91 | the loop over columns appends exactly one rule's section |
| Recommendations.SectionIssue | improved_data_health_center.py:57-133 | every record of a rule's section carries that rule's issue |
| Recommendations.CategoryOrder | improved_data_health_center.py:38-135 | the records come in the fixed category order: missing values, duplicates, type inconsistency, date format, high-missing columns, whitespace |
| Recommendations.SectionRecordFor | improved_data_health_center.py:43-133 | with distinct column names, a section holds a record about column j iff the column is flagged, and that record is unique and is the column's record |
| Recommendations.SomesAbout | improved_data_health_center.py:43-133 | when each column's outcome can only be about that column, the kept records hold exactly one about column j when it has an outcome, and none otherwise |
| Recommendations.RecordPerColumn | improved_data_health_center.py:43-133 | the same holds in the whole recommendation list: exactly one record per flagged column and issue, none for an unflagged column |
| Recommendations.MissingRecordFor | improved_data_health_center.py:43-65 | a missing-values record is High iff the missing ratio is above 0.3, Medium iff it is above 0.1 and at most 0.3, Low otherwise; the strategy is mean for numeric columns and mode otherwise; auto-fix iff not High |
| Recommendations.AboveThresholdFlagged | improved_data_health_center.py:43-47 | a column over a missing threshold has rows, is flagged by the missing-values rule and has a ratio above the threshold |
| Recommendations.HighMissingCovered | improved_data_health_center.py:43-118 | every column listed by the high-missing record also has its own High, non-auto-fixed missing-values record |
| Recommendations.HighMissingListsExactly | improved_data_health_center.py:108 | with distinct names, a column is listed as high-missing iff its missing ratio is above 0.7 |
| Recommendations.SectionEmptyIff | improved_data_health_center.py:43-133 | a rule's section is empty iff the rule flags no column |
| Recommendations.HighMissingNeedsMissing | improved_data_health_center.py:107-118 | a high-missing record implies that some column has a missing-values record |
| Recommendations.NoRecommendationsIff | improved_data_health_center.py:375-376 | the dashboard's "dataset looks clean" case: no record iff there are no duplicates and no per-column rule flags any column |
| Recommendations.SeverityCountsAddUp | improved_data_health_center.py:247-249 | the High, Medium and Low counts add up to the number of records |
| Recommendations.TallySeverities | improved_data_health_center.py:247-249 | the counting loop returns, for each severity, the number of records with that severity |
| Recommendations.GroupByIssue | improved_data_health_center.py:418-422 | the grouping loop returns the issues in first-appearance order, each with exactly the records of that issue in their original order |
| Recommendations.GroupRecord | improved_data_health_center.py:418-422 | one turn of the grouping loop keeps the keys in first-appearance order and each group equal to its issue's records so far |
| Recommendations.GroupSnoc | improved_data_health_center.py:418-422 | one turn of the grouping loop: a new issue becomes the last key, and the record joins the end of its issue's group |
| Recommendations.GroupingPartitions | improved_data_health_center.py:418-425 | the group keys are distinct, every record's issue is a key, and an issue that is not a key has no records |
| Recommendations.OfIssue | improved_data_health_center.py:420-422 | the records of one issue, each taken from the list, containing every record with that issue |
| FixApplier.FillColumn | improved_data_health_center.py:150-160 | a fill changes only its own column and only that column's missing cells |
| FixApplier.ApplyAction | improved_data_health_center.py:146-198 | one fix, or a raised KeyError (None); a fix that runs keeps the table well formed and logs at most one message |
| FixApplier.RunFixes | improved_data_health_center.py:146-199 | the selected fixes applied in order; the table stays well formed |
| FixApplier.Continue | improved_data_health_center.py:146-198 | after a fix has raised, one more fix changes nothing; the table stays well formed |
| FixApplier.ContinueShift | improved_data_health_center.py:146-198 | what one fix does and logs does not depend on what was logged before it |
| FixApplier.RunFixesSnoc | improved_data_health_center.py:146-199 | running one more selected fix continues the run over the fixes before it |
| FixApplier.RunStopsAfterFailure | improved_data_health_center.py:146-199 | once a fix has raised, the later fixes change nothing |
| FixApplier.RunFixesAppend | improved_data_health_center.py:146-199 | running a+b is running a and then b on its result, with the two logs concatenated, unless a raised |
| FixApplier.RemoveDuplicatesFix | improved_data_health_center.py:164-168 | after the fix no row is a duplicate, the header is kept, every remaining row was a row before, and the logged count (before - after) equals the number of duplicate rows |
| FixApplier.RemoveHighMissingFix | improved_data_health_center.py:189-192 | the drop raises iff a listed column is absent; otherwise, on whatever table the earlier fixes left, exactly the listed columns go: none remains, every unlisted column stays in order with its cells, the rows are kept, and the message names the columns |
| FixApplier.GeneratedHighMissingFix | improved_data_health_center.py:107-118 | applying the generated high-missing record keeps exactly the columns with at most 70% missing cells |
| FixApplier.CleanWhitespaceFix | improved_data_health_center.py:194-198 | on an object column the fix leaves no cell with edge whitespace in it, changes no other column and logs the column |
| FixApplier.CleanWhitespaceIdempotent | improved_data_health_center.py:194-198 | cleaning the same column twice is cleaning it once |
| FixApplier.ModeFillFix | improved_data_health_center.py:158-160 | the mode fill always runs, leaves no missing cell in the column and logs the fill |
| FixApplier.MeanFillFix | improved_data_health_center.py:154-155 | on a numeric column holding a number, the mean fill leaves no missing cell and keeps the dtypes |
| FixApplier.FixTypesFix | improved_data_health_center.py:170-178 | converting a non-empty object column makes it numeric and single-typed, so the type rule no longer flags it, and logs the conversion |
| FixApplier.StandardizedDatesStillFlagged | improved_data_health_center.py:180-187 | a standardized date column holds text or missing cells, so the date rule (dtype not datetime) flags it again on the next analysis |
| FixApplier.Stamp | improved_data_health_center.py:206-209 | every message of a fix is logged with the same timestamp, in order |
| FixApplier.StampAppend | improved_data_health_center.py:206-209 | stamping a concatenation is concatenating the stamped parts |
| FixApplier.Session.constructor | improved_data_health_center.py:11-21 | the initial session: empty log, score 0, step 1, no recommendations |
| FixApplier.Session.LogAction | improved_data_health_center.py:206-209 | `log_action` appends exactly one `(now, message)` entry and changes nothing else |
| FixApplier.Session.GoTo | improved_data_health_center.py:349-351 | the navigation buttons set the current step and change nothing else |
| FixApplier.Session.Analyze | improved_data_health_center.py:363-367 | step 2 stores the generated recommendations and the quality score of the table |
| FixApplier.Session.StartNewProject | improved_data_health_center.py:576-582 | "Start New Project" leaves an empty log, step 1, score 0 and no recommendations |
| FixApplier.ApplyActionInPlace | improved_data_health_center.py:146-198 | the in-place fix on the copy: a raised fix leaves the table and the log as they were; otherwise the frame holds the fix's table and the log gains its stamped messages |
| FixApplier.ApplyNext | improved_data_health_center.py:146-198 | one turn of the loop while no fix has raised: the frame holds the continued run's table and the log its stamped messages |
| FixApplier.RunFixesInPlace | improved_data_health_center.py:146-198 | the loop on the copy: the frame ends with the run's table, the log gains the run's stamped messages, and the session's other keys are kept |
| FixApplier.ApplyFixes | improved_data_health_center.py:138-203 | no selection returns the same frame and changes nothing; otherwise a fresh copy holds the run's table, the log gains the run's messages, and the score is recomputed exactly when no fix raised |
| Precheck.IssuesDetected | dataset_precheck_workflow.py:3-33 | issues are detected iff some cell is missing, some row is a duplicate, or some column name is not a Python identifier |
| Precheck.NonStandardNames | dataset_precheck_workflow.py:25-27 | exactly the names that fail `isidentifier` |
| Precheck.IdentifierExamples | dataset_precheck_workflow.py:25-27 | "my col", "a-b", "1x" and "" are non-standard; "class" and "_id2" are identifiers |
| Precheck.CleanTableHasNoIssues | dataset_precheck_workflow.py:3-33 | a table without missing cells and duplicates and with identifier names has no issue |
| Optenalize.LogAction | optenalize.py:210-213 | exactly one entry, stamped `now`, appended at the end of the log |
| Optenalize.HandleMissingValues | optenalize.py:118-148 | random: each missing cell of a numeric column takes one of the column's numbers, drawn per cell; mean: numeric columns filled with their mean; "Missing": non-numeric columns filled with that text; remove: exactly the complete rows remain; one log entry naming the strategy |
| Optenalize.StandardizeDates | optenalize.py:151-163 | without a column named with "date" or "year" nothing changes; otherwise exactly those columns are parsed and rewritten as "%Y/%m/%d" text |
| Optenalize.UnselectedUnchanged | optenalize.py:155-158 | a date reformat changes nothing when no column name is selected |
| Optenalize.StandardizeDatesEffect | optenalize.py:155-163 | each selected column becomes text: a parsed date formatted as "%Y/%m/%d", an unparsable cell missing; every other column is kept |
| Optenalize.NoHighMissingIff | optenalize.py:169-176 | no column is listed iff no column is over the threshold |
| Optenalize.RemoveHighMissingColumns | optenalize.py:166-176 | columns with more than 80% missing cells are dropped and logged by name; with none, the table and the log are unchanged |
| Optenalize.RemoveHighMissingExact | optenalize.py:166-172 | the drop keeps exactly the columns with at most 80% missing cells, and something is dropped iff some column's missing ratio exceeds 0.8 |
| RandomFill.Candidates | optenalize.py:133-134 | every candidate is a number of the column; none exactly when the column has no number |
| RandomFill.DrawFill | optenalize.py:131-137 | the drawn column keeps its present cells, and its missing cells take candidates (one draw for all of them, or one per cell) |
| RandomFill.RandomFillColumns | dataset_precheck_workflow_local130125.py:86-93 | the per-column loop fills every target column by a draw and leaves the other columns as they were |
| RandomFill.RandomFillEffect | dataset_precheck_workflow_local130125.py:86-93 | after a random fill, present cells are unchanged; a changed cell was missing in a target column and now holds one of that column's numbers; a target column holding a number has no missing cell left; a per-column draw gives all its missing cells the same value |
| RandomFill.FilledFits | optenalize.py:131-137 | a random fill of a numeric column stays numeric |
| RandomFill.NumericColumns | optenalize.py:132 | marks exactly the columns of numeric dtype |
| RandomFill.PickByLabel | optenalize.py:135-137 | `random.choice(non_null)` as written: a lookup by label that raises when the drawn label names a row whose cell was missing |
| RandomFill.LabelPickRaises | optenalize.py:133-137 | for the column [NaN, 5.0], every draw of `random.choice(non_null)` raises although the column has a number |
| Workflow130125.RunPrecheck | dataset_precheck_workflow_local130125.py:14-28 | the blank, whitespace and numbers-in-text counts are zero exactly when no cell shows that issue; the non-numbers-in-numeric count is always zero |
| Workflow130125.NoIssuesIff | dataset_precheck_workflow_local130125.py:31-47 | "No issues detected" iff no cell is missing, none has edge whitespace and no object column holds a number |
| Workflow130125.HandleBlankCells | dataset_precheck_workflow_local130125.py:85-101 | random: each numeric column filled by one draw from its minimum and maximum; mean: numeric columns filled with their mean; leave: unchanged; logs the option's sentence |
| Workflow130125.HandleWhitespace | dataset_precheck_workflow_local130125.py:113-123 | trimming rewrites every column of the session frame as stripped text, and the frame's new state is the trimmed table; row removal leaves the session frame unchanged and yields exactly the rows without edge whitespace; logs the option's sentence |
| Workflow130125.FixNumbersInText | dataset_precheck_workflow_local130125.py:129-132 | numbers and NaN in non-numeric columns become "N/A", after which the numbers-in-text count is zero; logs the sentence |
| Workflow130125.FixNonNumbersInNumeric | dataset_precheck_workflow_local130125.py:138-141 | coercion leaves the table unchanged and the non-numbers-in-numeric count zero; logs the sentence |
| Workflow130125.TrimClearsWhitespace | dataset_precheck_workflow_local130125.py:114-117 | after trimming, the whitespace count is zero |
| Workflow060125.RunPrecheck | dataset_precheck_workflow_local_working_060125.py:10-16 | the blank and whitespace counts are zero exactly when no cell is missing or has edge whitespace |
| Workflow060125.NoIssuesIff | dataset_precheck_workflow_local_working_060125.py:19-31 | the success message appears iff no cell is missing and none has edge whitespace |
| Workflow060125.HandleBlankCells | dataset_precheck_workflow_local_working_060125.py:59-74 | the random fill if its toggle is on, else the mean fill if on, else nothing; at most one fill runs |
| Workflow060125.HandleWhitespace | dataset_precheck_workflow_local_working_060125.py:80-90 | trimming wins over row removal; removal leaves the frame unchanged and yields exactly the rows without edge whitespace |
| Workflow060125.WhitespaceBranchCleans | dataset_precheck_workflow_local_working_060125.py:80-90 | whichever toggle ran, the resulting table has no edge whitespace |
| Workflow180225.RunPrecheck | dataset_precheck_workflow_local_perplexity_working_180225.py:26-36 | blank and whitespace counts are zero iff no cell has the issue; the type-inconsistency count is at most the column count, zero iff no column is mixed, and equal to it iff every column is mixed |
| Workflow180225.TextWithNaNIsInconsistent | dataset_precheck_workflow_local_perplexity_working_180225.py:32-35 | a text column with a NaN counts as a type inconsistency |
| Workflow180225.HandleMissingValues | dataset_precheck_workflow_local_perplexity_working_180225.py:113-148 | random: each missing numeric cell takes one of its column's numbers, drawn per cell; forward/backward: every column forward-filled then backward-filled; each logs its action |
| Workflow180225.ParseDateColumn | dataset_precheck_workflow_local_perplexity_working_180225.py:176-178 | the inferred parse when it leaves no cell missing, otherwise the day-first parse; every cell is a date or NaT |
| Workflow180225.SuccessRate | dataset_precheck_workflow_local_perplexity_working_180225.py:180 | undefined for an empty column, otherwise in [0, 1] |
| Workflow180225.AcceptedIff | dataset_precheck_workflow_local_perplexity_working_180225.py:180-181 | a parse is accepted iff the column is non-empty and fewer than one cell in ten is unparsed; an accepted parse holds a date |
| Workflow180225.StandardizedColumn | dataset_precheck_workflow_local_perplexity_working_180225.py:171-192 | a column not named with "date" is unchanged; an accepted parse replaces the column; otherwise a non-empty custom format replaces it; an unchanged column logs nothing |
| Workflow180225.NothingLoggedUnselected | dataset_precheck_workflow_local_perplexity_working_180225.py:166-169 | without a date-named column nothing is logged |
| Workflow180225.StandardizeStep | dataset_precheck_workflow_local_perplexity_working_180225.py:171-192 | standardizing column n keeps the columns before it as specified and extends the prefix by one |
| Workflow180225.LoggedStep | dataset_precheck_workflow_local_perplexity_working_180225.py:171-192 | the next column's entry, if it logs one, comes after those of the columns before it |
| Workflow180225.StandardizeColumnAt | dataset_precheck_workflow_local_perplexity_working_180225.py:171-192 | one turn of the loop: a date-named column that was converted is replaced and exactly its one entry appended; otherwise table and log stay as they were |
| Workflow180225.NoDateColumnUnchanged | dataset_precheck_workflow_local_perplexity_working_180225.py:166-169 | without a date-named column the table and the log are unchanged |
| Workflow180225.StandardizeDates | dataset_precheck_workflow_local_perplexity_working_180225.py:162-192 | every column standardized as `StandardizedColumn` says, the header kept, and the log extended by exactly one action per standardized column, in column order |
| Optenalize281224.ColumnSummary | optenalize281224.py:37-38 | a column's line: its missing count (at most the rows) and percentage, NaN iff there are no rows, otherwise in [0, 100] with percentage × rows = count × 100 |
| Optenalize281224.SortByMissing | optenalize281224.py:37 | a reordering of its input by decreasing missing count |
| Optenalize281224.MissingSummary | optenalize281224.py:37-39 | the per-column lines reordered by decreasing missing count |
| Optenalize281224.MissingSummaryLines | optenalize281224.py:37-39 | one line per column: each column's line present, every line some column's |
| Optenalize281224.ReorderedLines | optenalize281224.py:37-39 | any reordering of the per-column lines has exactly one line per column |
| Optenalize281224.EssentialPositions | optenalize281224.py:67 | exactly the positions of the columns named in the selection |
| Optenalize281224.ApplyEssentialAction | optenalize281224.py:50-69 | empty selection: nothing; mean: essential numeric columns filled with their mean; random: each missing cell of an essential numeric column takes its minimum or maximum, drawn per cell; delete: the rows with no missing cell in an essential column |
| Optenalize281224.EssentialMeanEffect | optenalize281224.py:57 | the mean imputation changes only essential numeric columns and only their missing cells, and leaves none missing in a column with a number |
| Optenalize281224.EssentialDeleteEffect | optenalize281224.py:67 | the deletion keeps, in order, exactly the rows present in every essential column |
| Optenalize281224.StandardizeColumnNames | optenalize281224.py:73-75 | every name stripped, lower-cased and with spaces replaced by underscores; columns and rows kept |
| Optenalize281224.CollidingNames | optenalize281224.py:74 | "Age" and "age" both become "age": standardization can make names collide |
| TableOps.StandardizeName | optenalize281224.py:74 | the new name is no longer than the old, has no space and no edge whitespace |
| TableOps.StandardizeNameIdempotent | optenalize281224.py:74 | standardizing twice is standardizing once |
| TableOps.DropIncompleteRowsEffect | optenalize.py:145-146 | `dropna()` keeps, in order, exactly the rows without a missing cell |
| TableOps.DropRowsMissingInEffect | optenalize281224.py:67 | `dropna(subset=...)` keeps, in order, exactly the rows present in the listed columns |
| TableOps.DropWhitespaceRowsEffect | dataset_precheck_workflow_local130125.py:118-122 | keeps, in order, exactly the rows with no edge-whitespace cell, leaving none |
| TableOps.FilterWhitespaceRowsByColumn | dataset_precheck_workflow_local130125.py:119-122 | filtering column by column yields exactly the rows with no edge-whitespace cell |
| TableOps.DropDuplicateRows | optenalize030125.py:150-155 | the result has no duplicate row and has exactly as many fewer rows as the table had duplicates |
| TableOps.DropDuplicateRowsEffect | optenalize040125v2.py:130-135 | `drop_duplicates` keeps, in order, exactly the first occurrence of every row, and is idempotent |
| TableOps.DropColumns | improved_data_health_center.py:191 | `drop(columns=...)` raises (None) iff a listed column is absent; otherwise no listed column remains, every unlisted column stays (the result keeps exactly the unlisted columns, in order) and the rows are kept |
| TableOps.MissingAbove | optenalize.py:169 | marks exactly the columns whose missing ratio exceeds the threshold (none in a table without rows) |
| TableOps.DropHighMissingExact | optenalize.py:169-172 | dropping the listed high-missing columns keeps exactly the others |
| TableOps.RenameColumns | optenalize281224.py:74 | each name is replaced by its image; dtypes and rows are kept |
| Tables.BlankCellsZero | dataset_precheck_workflow.py:12-16 | the total missing count is zero iff no cell is missing |
| Tables.WhitespaceCellsZero | dataset_precheck_workflow_local130125.py:16-19 | the whitespace count is zero iff no cell has edge whitespace |
| Tables.NumbersInTextColumnsZero | dataset_precheck_workflow_local130125.py:20-23 | the numbers-in-text count is zero iff no non-numeric column holds a number or NaN |
| Tables.NonNumbersInNumericColumnsZero | dataset_precheck_workflow_local130125.py:24-27 | a numeric column never holds a non-number, so this count is zero |
| Tables.SingleTypedIff | improved_data_health_center.py:29 | a column is single-typed iff it is non-empty and every cell has the type of its first; mixed iff some cell's type differs |
| Tables.IndicatorSum | dataset_precheck_workflow_local_perplexity_working_180225.py:32-35 | a sum of 0/1 column flags is at most the column count, and equal to it iff every flag is 1 |
| Cleaning.ReplaceCellsEffect | optenalize030125.py:145 | a cell changes iff it is text equal to a placeholder, and is then missing |
| Cleaning.ReplaceCellsStep | data_cleaning_workflow.py:15-16 | replacing one more placeholder after a list is replacing the extended list |
| Cleaning.ParsePlaceholders | optenalize030125.py:144 | at least one piece; no piece holds a comma or has edge whitespace |
| Cleaning.ParsePlaceholdersJoin | optenalize030125.py:144 | pieces without commas and edge whitespace, joined by commas, parse back to themselves |
| Cleaning.DefaultPlaceholderText | optenalize030125.py:139-144 | the default text "None,null,NA" gives ["None", "null", "NA"] |
| Cleaning.PlaceholderEffect | optenalize040125v2.py:124-125 | after the replacement a cell is missing if it was text equal to a placeholder and is unchanged otherwise; dtypes are kept |
| Cleaning.MapColumnsPending | dataset_precheck_workflow_local130125.py:115-116 | a column the per-column loop has not reached yet keeps its dtype and cells |
| Cleaning.MapColumnsDone | dataset_precheck_workflow_local130125.py:115-116 | a column the per-column loop has passed holds the operation applied to its original dtype and cells, whatever later columns did |
| Cleaning.MapAllColumns | dataset_precheck_workflow_local130125.py:115-116 | each column gets the dtype and cells the per-column operation gives it; the header and row count are kept |
| Cleaning.FillMeanEffect | optenalize.py:139-141 | the mean fill changes only missing cells of numeric columns, and leaves none in a numeric column with a number |
| Cleaning.FillNonNumericEffect | optenalize.py:142-144 | the "Missing" fill keeps numeric columns and leaves no missing cell in the others |
| Cleaning.TrimEffect | dataset_precheck_workflow_local130125.py:114-116 | after trimming no cell has edge whitespace |
| Cleaning.TrimIdempotent | dataset_precheck_workflow_local130125.py:114-116 | trimming twice is trimming once |
| Cleaning.NumbersToNAEffect | dataset_precheck_workflow_local130125.py:129-131 | after the replacement the numbers-in-text count is zero |
| Cleaning.CoerceEffect | dataset_precheck_workflow_local130125.py:138-140 | coercing numeric columns changes nothing and leaves no non-number in them |
| Cleaning.ForwardBackwardEffect | dataset_precheck_workflow_local_perplexity_working_180225.py:145-147 | `ffill` then `bfill` keeps present cells and leaves no missing cell in a column with a value; dtypes are kept |
| Cleaning.StripCells | improved_data_health_center.py:197 | `astype(str).str.strip()` yields text without edge whitespace |
| ColumnStats.Mean | optenalize.py:141 | undefined iff the column has no number; otherwise between its minimum and maximum |
| ColumnStats.Median | improved_data_health_center.py:157 | undefined iff the column has no number; otherwise between its minimum and maximum |
| ColumnStats.Mode | improved_data_health_center.py:159 | undefined iff every cell is missing; otherwise a present cell of the column that occurs at least as often as any other |
| ColumnStats.MinMax | dataset_precheck_workflow_local130125.py:89 | undefined iff the column has no number; otherwise the smallest and largest numbers, both in the column |
| ColumnStats.ForwardBackwardFill | dataset_precheck_workflow_local_perplexity_working_180225.py:146-147 | each cell takes the nearest present value above it, else the nearest below, else stays missing; a column with a value ends with none missing |
| ColumnStats.FillsKeepValues | dataset_precheck_workflow_local_perplexity_working_180225.py:146-147 | forward and backward fills keep every present cell |
| Frames.Frame.Copy | improved_data_health_center.py:144 | `dataset.copy()`: a fresh frame with the same table |
| Frames.Frame.DropDuplicates | data_cleaning_workflow.py:45-51 | in place: no duplicate row remains, and the reported before - after equals the number of duplicate rows |
| Frames.ActionLog.Append | dataset_precheck_workflow_local130125.py:94 | exactly one entry added, at the end |
| DataCleaningWorkflow.ReplaceSelectedPlaceholders | data_cleaning_workflow.py:10-17 | the per-placeholder loop ends with every cell equal to a selected placeholder missing and every other cell kept |
| DataCleaningWorkflow.ReplaceOneMore | data_cleaning_workflow.py:15-16 | one more `replace` after the earlier ones is one replacement with the extended list |
| DataCleaningWorkflow.NumericWithMissing | data_cleaning_workflow.py:29-30 | marks exactly the numeric columns that hold a missing cell |
| DataCleaningWorkflow.DropRowsColumnByColumn | data_cleaning_workflow.py:28-40 | `dropna(subset=[col])` for each column holding a missing cell leaves exactly the complete rows |
| DataCleaningWorkflow.DropStep | data_cleaning_workflow.py:37-40 | dropping by one more column extends the completeness prefix by that column |
| DataCleaningWorkflow.DropEnds | data_cleaning_workflow.py:28-40 | before any column nothing is dropped; after every column exactly the incomplete rows are |
| DataCleaningWorkflow.HandleMissingValues | data_cleaning_workflow.py:22-40 | nothing changes when no cell is missing or the option is "Leave as NaN"; random: each numeric column with a missing cell filled by one draw from its minimum and maximum; mean: numeric columns filled with their mean; drop: exactly the complete rows remain |
| DataCleaningWorkflow.GuardIsHarmless | data_cleaning_workflow.py:22 | with no missing cell, dropping rows would keep the whole table |
| Optenalize030125.DatasetPrecheck | optenalize030125.py:14-52 | issues iff a missing cell, a duplicate row or a non-identifier name; with issues and the EDA goal, the chosen option sets exactly its own flag; otherwise no flag changes; no flag is ever cleared |
| Optenalize030125.EdaWarningBanner | optenalize030125.py:64-70 | "Return to Data Cleaning" sets the redirect flag only when proceeding with warnings; the other flag is kept |
| Optenalize030125.RenderedPages | optenalize030125.py:212-230 | the cleaning page is rendered iff the goal is cleaning or an upload has the redirect flag; EDA iff the goal is EDA or an upload proceeds with warnings without redirect; when the flags and the goal pick the same workflow, its second call raises a duplicate-widget error that ends the run, so no page is rendered twice |
| Optenalize030125.GoalPage | optenalize030125.py:221-230 | the goal dispatch renders exactly one item: the cleaning workflow iff the goal is cleaning, the EDA workflow iff it is EDA, a message otherwise |
| Optenalize030125.RedirectStillShowsEda | optenalize030125.py:215-224 | with the EDA goal and the redirect flag, both the cleaning and the EDA workflows are rendered |
| Optenalize030125.LeftoverRedirectRaises | optenalize030125.py:137-142 | example: with the cleaning goal and a leftover redirect flag, the cleaning workflow is rendered once and its second call raises at the keyed placeholder input |
| Optenalize030125.ApplyPlaceholderReplacement | optenalize030125.py:143-147 | the text split on commas and stripped; exactly the cells equal to a piece become missing, in place |
| Optenalize040125.DatasetPrecheck | optenalize040125v2.py:7-46 | the success message iff no cell is missing, no row is a duplicate and every name is an identifier; the EDA hint iff there are issues and the goal is EDA; no flag is written |
| Optenalize040125.RenderedPages | optenalize040125v2.py:169-175 | cleaning iff the goal is cleaning; EDA iff the goal is EDA and the redirect key is unset; the warning iff the goal is EDA and it is set |
| Optenalize040125.EdaNotBlockedByIssues | optenalize040125v2.py:39-46 | for every table and goal: whenever the pre-check shows the EDA hint, the same run renders the EDA workflow; a table with issues under the EDA goal gets both the hint and the EDA workflow |

## Left out

- Streamlit rendering is not modelled: widgets, messages, charts, the gauge, previews and downloads. The chosen options and button clicks are parameters.
- File upload and reading (CSV, Excel, JSON, Parquet) are not modelled. The table is a parameter.
- `eda_workflow` and its statistics, histograms, scatter plots and correlation heatmap are not modelled. Only whether it is rendered is.
- `visualization_additions.py`, `optenalize_main.py` and `test_optenalize.py` are not part of this model.
- The ML-based imputation (scikit-learn) and the custom-value imputation of `handle_missing_values` in the 18 February revision are not modelled. They depend on a foreign library and on a per-column `type(...)(text)` conversion.
- Workflow130125: the "Validate and Fix Date/Year Columns" branch (lines 144-165) is not modelled. Its custom-format text input is read only inside a branch, and its errors are reported through the UI.
- Floating point is modelled as exact reals. The NaN mean of an empty frame is `None`.
- HealthScore.QualityScore: the score is not rounded to one decimal. `round(score, 1)` would also report a score just under 100 as 100.0.
- The text forms of numbers and dates, and date parsing and formatting, are `Codec` parameters. Their formats are not modelled.
- Workflow180225.StandardizedColumn: the `except ValueError` path of the custom-format conversion (dataset_precheck_workflow_local_perplexity_working_180225.py:186-192) is not modelled. The codec's explicit-format parse always succeeds, so an invalid custom format still replaces the column and logs, where the source leaves the column unchanged and logs nothing.
- Tables.TypeOf: Python `int` and `float` values share one type tag (`Num` cells are all `float`). An object column holding both ints and floats is single-typed in the model, where `apply(type).unique()` sees two types.
- `Text.Lower` and `Text.IsIdentifier` cover ASCII only. Python's Unicode case mapping and identifier rules are wider.
- TableOps.StandardizeName: the final `str.replace("[^a-zA-Z0-9_]", "")` is not modelled. Depending on the pandas version it is a literal or a regex replacement.
- Boolean columns are not modelled: a cell is missing, a number, text or a date. In pandas, `select_dtypes(exclude=["number"])` keeps a bool column and `isinstance(True, (int, float))` holds, so in dataset_precheck_workflow_local130125.py:20-23 every bool cell counts as a number in a non-numeric column and the fix at lines 129-131 rewrites it to "N/A"; `is_numeric_dtype` (improved_data_health_center.py:50) also treats bool columns as numeric. `Workflow130125.RunPrecheck`, `Workflow130125.FixNumbersInText` and `Tables.NumbersInTextColumnsZero` say nothing about such columns.
- Duplicate column names are not modelled. Column lookups take the first column of a name, and the properties about recommendation records assume distinct names.
- Tie-breaking is not modelled in two places:
  - ColumnStats.Mode: ties go to the earliest value, where pandas returns the smallest.
  - Optenalize281224.MissingSummary: the order among columns with equal missing counts is not fixed, where pandas uses its own sort order.
- Optenalize281224.ApplyEssentialAction: the mean and random imputations are applied to essential columns of numeric dtype only.
  - On a non-numeric column, pandas' `mean` raises.
  - On a non-numeric column, `min`/`max` draw text.
- Chained `fillna(..., inplace=True)` is modelled by its intended effect on the column. Under pandas copy-on-write it may change nothing.
- The messages logged by `log_action` are modelled as structured values, not formatted strings.
  - In the Health Center fix applier they are `FixApplier.Message` values.
  - In the 18 February revision they are `Workflow180225.Action` values.
  - The `%.1f` and f-string texts are not modelled.
- Optenalize040125: `selected_goal` is read but never written by this revision. The goal is a parameter, and the `KeyError` raised when no other page has set it is not modelled.
- The placeholder replacement and duplicate removal of `optenalize040125v2.py` (lines 123-135) are the same code as in `optenalize030125.py` (lines 143-155). Both are modelled by `Optenalize030125.ApplyPlaceholderReplacement` and `Frames.Frame.DropDuplicates`.
- In `data_cleaning_workflow.py`, the handling option is tested once outside the column loop rather than in every iteration. The fills only change their own column, so the targets computed before the loop are those the loop would see.

## Findings

| source | as written | input that shows it | evidently intended | confidence | as-written member | corrected member |
|---|---|---|---|---|---|---|
| optenalize.py:133-137 (also dataset_precheck_workflow_local_perplexity_working_180225.py:127-131) | `random.choice(non_null)` indexes the Series `non_null` by label. Its labels are the row positions of the non-missing cells, so a drawn key naming a row that was missing raises `KeyError`. | a numeric column `[NaN, 5.0]` with the default RangeIndex: `non_null` has the single label 1, and `random.choice` asks for key 0 | each missing cell takes one of the column's numbers, drawn by position | not executed | RandomFill.PickByLabel, RandomFill.LabelPickRaises | RandomFill.DrawFill |
