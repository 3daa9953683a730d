/**
 * The issue detector of the Smart Data Health Center
 * (`generate_ai_recommendations`): a rule table that turns the scans of a
 * table into recommendation records, in a fixed category order, and the
 * two views of the records the dashboard builds, a tally by severity and a
 * grouping by issue.
 */
module Recommendations {
  import opened Wrappers
  import opened Seqs
  import opened Text
  import opened Tables
  import opened Cleaning
  import opened TableOps

  datatype Severity = High | Medium | Low

  datatype Issue = MissingValues | Duplicates | TypeInconsistency | DateFormat | HighMissingColumns | Whitespace

  /** The `strategy` parameter of a fill action. */
  datatype Strategy = MeanStrategy | MedianStrategy | ModeStrategy

  /** The `action` of a record together with its `params`. */
  datatype Action =
    | FillMissing(column: string, strategy: Strategy)
    | RemoveDuplicates
    | FixTypes(column: string)
    | StandardizeDates(column: string)
    | RemoveHighMissing(columns: seq<string>)
    | CleanWhitespace(column: string)

  /** One recommendation record (its human-readable `description` is not modelled). */
  datatype Recommendation = Recommendation(issue: Issue, column: string, severity: Severity, action: Action, autoFix: bool)

  /** The position of each issue category in the generator's output. */
  function IssueRank(x: Issue): nat {
    match x
    case MissingValues => 0
    case Duplicates => 1
    case TypeInconsistency => 2
    case DateFormat => 3
    case HighMissingColumns => 4
    case Whitespace => 5
  }

  // ---------------------------------------------------------------------
  // Per-column rules

  /** The four checks that produce one record per offending column. */
  datatype Rule = MissingRule | TypeRule | DateRule | WhitespaceRule

  function RuleIssue(rule: Rule): Issue {
    match rule
    case MissingRule => MissingValues
    case TypeRule => TypeInconsistency
    case DateRule => DateFormat
    case WhitespaceRule => Whitespace
  }

  /** Whether column `j` is reported by `rule`. */
  predicate Flagged(rule: Rule, t: Table, j: nat)
    requires WellFormed(t) && j < |t.names|
  {
    var k, cells := t.kinds[j], Column(t, j);
    match rule
    case MissingRule => MissingInColumn(k, cells) > 0
    case TypeRule => MixedTypes(k, cells)
    case DateRule => Selects(DateOrTime, t.names[j]) && k != Datetime
    case WhitespaceRule => k == Object && WhitespaceInColumn(k, cells) > 0
  }

  /** `dataset[col].isnull().mean()` of a column of a table with rows. */
  function MissingRatio(t: Table, j: nat): real
    requires WellFormed(t) && j < |t.names| && |t.rows| > 0
  {
    MissingInColumn(t.kinds[j], Column(t, j)) as real / |t.rows| as real
  }

  /** "High" above 0.3, "Medium" above 0.1, "Low" otherwise. */
  function SeverityOfRatio(p: real): Severity {
    if p > 0.3 then High else if p > 0.1 then Medium else Low
  }

  /** The record `rule` produces for column `j`, if any. */
  function ColumnRecord(rule: Rule, t: Table, j: nat): (r: Option<Recommendation>)
    requires WellFormed(t) && j < |t.names|
    ensures r.Some? <==> Flagged(rule, t, j)
    ensures r.Some? ==> r.value.issue == RuleIssue(rule) && r.value.column == t.names[j]
  {
    if !Flagged(rule, t, j) then None
    else
      var name, k := t.names[j], t.kinds[j];
      match rule
      case MissingRule =>
        var sev := SeverityOfRatio(MissingRatio(t, j));
        var strategy := if k == Numeric then MeanStrategy else ModeStrategy;
        Some(Recommendation(MissingValues, name, sev, FillMissing(name, strategy), sev != High))
      case TypeRule =>
        Some(Recommendation(TypeInconsistency, name, Medium, FixTypes(name), true))
      case DateRule =>
        Some(Recommendation(DateFormat, name, Medium, StandardizeDates(name), true))
      case WhitespaceRule =>
        Some(Recommendation(Whitespace, name, Low, CleanWhitespace(name), true))
  }

  /** The outcome of `rule` on every column, in column order. */
  function ColumnRecords(rule: Rule, t: Table): (s: seq<Option<Recommendation>>)
    requires WellFormed(t)
    ensures |s| == |t.names|
  {
    seq(|t.names|, j requires 0 <= j < |t.names| => ColumnRecord(rule, t, j))
  }

  /** The records of one per-column rule, in column order. */
  function Section(rule: Rule, t: Table): seq<Recommendation>
    requires WellFormed(t)
  {
    Somes(ColumnRecords(rule, t))
  }

  // ---------------------------------------------------------------------
  // Whole-table rules

  /** The "Duplicate Rows" record: Medium below a 10% share of duplicates, High from 10% on. */
  function DuplicateRecord(t: Table): (r: Option<Recommendation>)
    ensures r.Some? <==> DuplicateRows(t) > 0
    ensures r.Some? ==> r.value.issue == Duplicates && r.value.action == RemoveDuplicates && r.value.autoFix
    ensures r.Some? ==> (r.value.severity == Medium <==> 10 * DuplicateRows(t) < |t.rows|)
    ensures r.Some? ==> (r.value.severity == High <==> 10 * DuplicateRows(t) >= |t.rows|)
  {
    var d := DuplicateRows(t);
    if d == 0 then None
    else
      ShareBelow(d, |t.rows|, 0.1);
      var sev := if d as real / |t.rows| as real < 0.1 then Medium else High;
      Some(Recommendation(Duplicates, "multiple", sev, RemoveDuplicates, true))
  }

  /** `m / h < c` compares `m` with `c * h`. */
  lemma ShareBelow(m: nat, h: nat, c: real)
    requires h > 0
    ensures m as real / h as real < c <==> m as real < c * h as real
    ensures m as real / h as real > c <==> m as real > c * h as real
  {
    var q := m as real / h as real;
    assert q * h as real == m as real;
  }

  /** The "High Missing Columns" record: one record listing every column more than 70% missing. */
  function HighMissingRecord(t: Table): (r: Option<Recommendation>)
    requires WellFormed(t)
    ensures r.Some? <==> exists j :: 0 <= j < |t.names| && MissingAbove(t, 0.7)[j]
    ensures r.Some? ==> r.value.issue == HighMissingColumns && r.value.severity == High && !r.value.autoFix
    ensures r.Some? ==> r.value.action == RemoveHighMissing(HighMissingNames(t, 0.7))
  {
    var names := HighMissingNames(t, 0.7);
    if names == [] then None
    else Some(Recommendation(HighMissingColumns, Join(names, ", "), High, RemoveHighMissing(names), false))
  }

  function AsSeq<T>(o: Option<T>): seq<T> {
    if o.Some? then [o.value] else []
  }

  /** `generate_ai_recommendations`: the sections in their fixed order. */
  function Recommendations(t: Table): seq<Recommendation>
    requires WellFormed(t)
  {
    Section(MissingRule, t) + AsSeq(DuplicateRecord(t)) + Section(TypeRule, t) +
    Section(DateRule, t) + AsSeq(HighMissingRecord(t)) + Section(WhitespaceRule, t)
  }

  /** The generator, written as the source writes it: one scan per rule, appending as it goes. */
  method GenerateRecommendations(t: Table) returns (recs: seq<Recommendation>)
    requires WellFormed(t)
    ensures recs == Recommendations(t)
  {
    recs := ScanColumns(MissingRule, t);
    var dup := DuplicateRows(t);
    if dup > 0 {
      recs := recs + [DuplicateRecord(t).value];
    }
    assert recs == Section(MissingRule, t) + AsSeq(DuplicateRecord(t));
    var types := ScanColumns(TypeRule, t);
    var dates := ScanColumns(DateRule, t);
    recs := recs + types + dates;
    var high := HighMissingNames(t, 0.7);
    ghost var before := recs;
    if high != [] {
      recs := recs + [Recommendation(HighMissingColumns, Join(high, ", "), High, RemoveHighMissing(high), false)];
    }
    assert recs == before + AsSeq(HighMissingRecord(t));
    var spaces := ScanColumns(WhitespaceRule, t);
    recs := recs + spaces;
  }

  /** `for col in dataset.columns: if <check>: recommendations.append(...)`. */
  method ScanColumns(rule: Rule, t: Table) returns (found: seq<Recommendation>)
    requires WellFormed(t)
    ensures found == Section(rule, t)
  {
    ghost var all := ColumnRecords(rule, t);
    found := [];
    for j := 0 to |t.names|
      invariant found == Somes(all[..j])
    {
      SomesStep(all, j);
      if Flagged(rule, t, j) {
        found := found + [ColumnRecord(rule, t, j).value];
      }
    }
    assert all[..|t.names|] == all;
  }

  // ---------------------------------------------------------------------
  // What the generator promises

  predicate RankSorted(s: seq<Recommendation>) {
    forall i, k :: 0 <= i < k < |s| ==> IssueRank(s[i].issue) <= IssueRank(s[k].issue)
  }

  /** Every record of a section carries the section's issue. */
  lemma SectionIssue(rule: Rule, t: Table)
    requires WellFormed(t)
    ensures AllOf(Section(rule, t), RuleIssue(rule))
  {
    var s := ColumnRecords(rule, t);
    var idx := SomesPositions(s);
  }

  lemma SortedAppend(a: seq<Recommendation>, b: seq<Recommendation>, n: nat)
    requires RankSorted(a) && forall k :: 0 <= k < |a| ==> IssueRank(a[k].issue) <= n
    requires forall k :: 0 <= k < |b| ==> IssueRank(b[k].issue) == n
    ensures RankSorted(a + b) && forall k :: 0 <= k < |a + b| ==> IssueRank((a + b)[k].issue) <= n
  {
  }

  /**
   * The records come out in category order: missing values, duplicates,
   * type inconsistencies, date formats, high-missing columns, whitespace.
   */
  lemma CategoryOrder(t: Table)
    requires WellFormed(t)
    ensures RankSorted(Recommendations(t))
  {
    SectionIssue(MissingRule, t);
    SectionIssue(TypeRule, t);
    SectionIssue(DateRule, t);
    SectionIssue(WhitespaceRule, t);
    SingleRecordIssues(t);
    BlocksSorted(Section(MissingRule, t), AsSeq(DuplicateRecord(t)), Section(TypeRule, t),
                 Section(DateRule, t), AsSeq(HighMissingRecord(t)), Section(WhitespaceRule, t));
  }

  /** The duplicate and high-missing blocks hold at most one record each, of their own issue. */
  lemma SingleRecordIssues(t: Table)
    requires WellFormed(t)
    ensures AllOf(AsSeq(DuplicateRecord(t)), Duplicates)
    ensures AllOf(AsSeq(HighMissingRecord(t)), HighMissingColumns)
  {
  }

  /** Six blocks, each of one issue, in rank order, concatenate to a rank-sorted list. */
  lemma BlocksSorted(p0: seq<Recommendation>, p1: seq<Recommendation>, p2: seq<Recommendation>,
                     p3: seq<Recommendation>, p4: seq<Recommendation>, p5: seq<Recommendation>)
    requires AllOf(p0, MissingValues) && AllOf(p1, Duplicates) && AllOf(p2, TypeInconsistency)
    requires AllOf(p3, DateFormat) && AllOf(p4, HighMissingColumns) && AllOf(p5, Whitespace)
    ensures RankSorted(p0 + p1 + p2 + p3 + p4 + p5)
  {
    SortedAppend([], p0, 0);
    assert [] + p0 == p0;
    SortedAppend(p0, p1, 1);
    SortedAppend(p0 + p1, p2, 2);
    SortedAppend(p0 + p1 + p2, p3, 3);
    SortedAppend(p0 + p1 + p2 + p3, p4, 4);
    SortedAppend(p0 + p1 + p2 + p3 + p4, p5, 5);
  }

  /** Record `r` is about column `name` under issue `x`. */
  predicate About(r: Recommendation, x: Issue, name: string) {
    r.issue == x && r.column == name
  }

  /**
   * Within its section, a rule has a record about column `j` exactly when
   * the column is flagged, that record is the column's record, and there
   * is only one.
   */
  lemma SectionRecordFor(rule: Rule, t: Table, j: nat)
    requires WellFormed(t) && j < |t.names| && Distinct(t.names)
    ensures var s, x, name := Section(rule, t), RuleIssue(rule), t.names[j];
            ((exists k :: 0 <= k < |s| && About(s[k], x, name)) <==> Flagged(rule, t, j)) &&
            (forall k :: 0 <= k < |s| && About(s[k], x, name) ==> Some(s[k]) == ColumnRecord(rule, t, j)) &&
            (forall k, l :: 0 <= k < |s| && 0 <= l < |s| && About(s[k], x, name) && About(s[l], x, name) ==> k == l)
  {
    var all := ColumnRecords(rule, t);
    forall i | 0 <= i < |all| && all[i].Some? ensures About(all[i].value, RuleIssue(rule), t.names[i]) {
      assert all[i] == ColumnRecord(rule, t, i);
    }
    assert all[j] == ColumnRecord(rule, t, j);
    assert Section(rule, t) == Somes(all);
    SomesAbout(all, t.names, RuleIssue(rule), j);
  }

  /**
   * When the i-th outcome can only be about the i-th of distinct names,
   * the records kept hold at most one about name `j`: exactly the j-th
   * outcome, when there is one.
   */
  lemma SomesAbout(all: seq<Option<Recommendation>>, names: seq<string>, x: Issue, j: nat)
    requires |all| == |names| && Distinct(names) && j < |names|
    requires forall i :: 0 <= i < |all| && all[i].Some? ==> About(all[i].value, x, names[i])
    ensures var s := Somes(all);
            ((exists k :: 0 <= k < |s| && About(s[k], x, names[j])) <==> all[j].Some?) &&
            (forall k :: 0 <= k < |s| && About(s[k], x, names[j]) ==> Some(s[k]) == all[j]) &&
            (forall k, l :: 0 <= k < |s| && 0 <= l < |s| && About(s[k], x, names[j]) && About(s[l], x, names[j]) ==> k == l)
  {
    var s := Somes(all);
    var idx := SomesPositions(all);
    forall k | 0 <= k < |s| && About(s[k], x, names[j]) ensures idx[k] == j {
      var i := idx[k];
      assert names[i] == names[j];
    }
    if all[j].Some? {
      var k :| 0 <= k < |idx| && idx[k] == j;
      assert About(s[k], x, names[j]);
    }
  }

  /** No record of `p` has issue `x`. */
  predicate NoneOf(p: seq<Recommendation>, x: Issue) {
    forall k :: 0 <= k < |p| ==> p[k].issue != x
  }

  lemma NoneOfAppend(a: seq<Recommendation>, b: seq<Recommendation>, x: Issue)
    requires NoneOf(a, x) && NoneOf(b, x)
    ensures NoneOf(a + b, x)
  {
  }

  /** The records around a rule's section all have other issues. */
  lemma Around(rule: Rule, t: Table) returns (a: seq<Recommendation>, b: seq<Recommendation>)
    requires WellFormed(t)
    ensures Recommendations(t) == a + Section(rule, t) + b
    ensures NoneOf(a, RuleIssue(rule)) && NoneOf(b, RuleIssue(rule))
  {
    var p0, p1, p2 := Section(MissingRule, t), AsSeq(DuplicateRecord(t)), Section(TypeRule, t);
    var p3, p4, p5 := Section(DateRule, t), AsSeq(HighMissingRecord(t)), Section(WhitespaceRule, t);
    SectionIssue(MissingRule, t);
    SectionIssue(TypeRule, t);
    SectionIssue(DateRule, t);
    SectionIssue(WhitespaceRule, t);
    SingleRecordIssues(t);
    a, b := SplitAround(rule, p0, p1, p2, p3, p4, p5);
  }

  /** All records of `p` have issue `x`. */
  predicate AllOf(p: seq<Recommendation>, x: Issue) {
    forall k :: 0 <= k < |p| ==> p[k].issue == x
  }

  lemma SplitAround(rule: Rule, p0: seq<Recommendation>, p1: seq<Recommendation>, p2: seq<Recommendation>,
                    p3: seq<Recommendation>, p4: seq<Recommendation>, p5: seq<Recommendation>)
    returns (a: seq<Recommendation>, b: seq<Recommendation>)
    requires AllOf(p0, MissingValues) && AllOf(p1, Duplicates) && AllOf(p2, TypeInconsistency)
    requires AllOf(p3, DateFormat) && AllOf(p4, HighMissingColumns) && AllOf(p5, Whitespace)
    ensures var s := match rule case MissingRule => p0 case TypeRule => p2 case DateRule => p3 case WhitespaceRule => p5;
            p0 + p1 + p2 + p3 + p4 + p5 == a + s + b
    ensures NoneOf(a, RuleIssue(rule)) && NoneOf(b, RuleIssue(rule))
  {
    match rule
    case MissingRule =>
      a, b := [], p1 + p2 + p3 + p4 + p5;
    case TypeRule =>
      a, b := p0 + p1, p3 + p4 + p5;
    case DateRule =>
      a, b := p0 + p1 + p2, p4 + p5;
    case WhitespaceRule =>
      a, b := p0 + p1 + p2 + p3 + p4, [];
  }

  /**
   * What a section says about the records of issue `x` on column `name`
   * still holds of `a + s + b` when neither `a` nor `b` holds that issue.
   */
  lemma LiftRecordFacts(a: seq<Recommendation>, s: seq<Recommendation>, b: seq<Recommendation>,
                        x: Issue, name: string, rec: Option<Recommendation>, flagged: bool)
    requires NoneOf(a, x) && NoneOf(b, x)
    requires (exists k :: 0 <= k < |s| && About(s[k], x, name)) <==> flagged
    requires forall k :: 0 <= k < |s| && About(s[k], x, name) ==> Some(s[k]) == rec
    requires forall k, l :: 0 <= k < |s| && 0 <= l < |s| && About(s[k], x, name) && About(s[l], x, name) ==> k == l
    ensures var all := a + s + b;
            ((exists k :: 0 <= k < |all| && About(all[k], x, name)) <==> flagged) &&
            (forall k :: 0 <= k < |all| && About(all[k], x, name) ==> Some(all[k]) == rec) &&
            (forall k, l :: 0 <= k < |all| && 0 <= l < |all| && About(all[k], x, name) && About(all[l], x, name) ==> k == l)
  {
    var all := a + s + b;
    assert forall k :: 0 <= k < |all| && About(all[k], x, name) ==> |a| <= k < |a| + |s| && all[k] == s[k - |a|];
    if flagged {
      var k :| 0 <= k < |s| && About(s[k], x, name);
      assert all[|a| + k] == s[k];
    }
  }

  /**
   * For distinct column names: column `j` gets a record of `rule`'s issue
   * exactly when the rule flags it (a missing cell; more than one Python
   * type; a date- or time-named column that is not datetime; an object
   * column with an edge-whitespace cell), exactly one, and it is the
   * column's record.
   */
  lemma RecordPerColumn(rule: Rule, t: Table, j: nat)
    requires WellFormed(t) && j < |t.names| && Distinct(t.names)
    ensures var recs, x, name := Recommendations(t), RuleIssue(rule), t.names[j];
            ((exists k :: 0 <= k < |recs| && About(recs[k], x, name)) <==> Flagged(rule, t, j)) &&
            (forall k :: 0 <= k < |recs| && About(recs[k], x, name) ==> Some(recs[k]) == ColumnRecord(rule, t, j)) &&
            (forall k, l :: 0 <= k < |recs| && 0 <= l < |recs| && About(recs[k], x, name) && About(recs[l], x, name) ==> k == l)
  {
    var a, b := Around(rule, t);
    SectionRecordFor(rule, t, j);
    LiftRecordFacts(a, Section(rule, t), b, RuleIssue(rule), t.names[j], ColumnRecord(rule, t, j), Flagged(rule, t, j));
  }

  /**
   * The missing-values record of a column with `m` missing cells out of
   * `h`: High when 10m > 3h, Medium when h < 10m <= 3h, Low when 10m <= h;
   * mean for a numeric column and mode otherwise; auto-fixed unless High.
   */
  lemma MissingRecordFor(t: Table, j: nat)
    requires WellFormed(t) && j < |t.names|
    ensures var r, m, h := ColumnRecord(MissingRule, t, j), MissingInColumn(t.kinds[j], Column(t, j)), |t.rows|;
            r.Some? ==>
              (r.value.severity == High <==> 10 * m > 3 * h) &&
              (r.value.severity == Medium <==> h < 10 * m <= 3 * h) &&
              (r.value.severity == Low <==> 10 * m <= h) &&
              r.value.action == FillMissing(t.names[j], if t.kinds[j] == Numeric then MeanStrategy else ModeStrategy) &&
              (r.value.autoFix <==> r.value.severity != High)
  {
    var m, h := MissingInColumn(t.kinds[j], Column(t, j)), |t.rows|;
    if m > 0 {
      ShareBelow(m, h, 0.3);
      ShareBelow(m, h, 0.1);
      assert (10 * m) as real == 10.0 * m as real && (3 * h) as real == 3.0 * h as real;
    }
  }

  /** A column above a non-negative missing-ratio threshold is flagged by the missing-values rule. */
  lemma AboveThresholdFlagged(t: Table, c: real, j: nat)
    requires WellFormed(t) && c >= 0.0 && j < |t.names| && MissingAbove(t, c)[j]
    ensures |t.rows| > 0 && Flagged(MissingRule, t, j) && MissingRatio(t, j) > c
  {
  }

  /**
   * Every column the high-missing record lists also has a missing-values
   * record, and that record is High and not auto-fixed.
   */
  lemma HighMissingCovered(t: Table)
    requires WellFormed(t)
    ensures var recs := Recommendations(t);
            forall n :: n in HighMissingNames(t, 0.7) ==>
              exists k :: 0 <= k < |recs| && About(recs[k], MissingValues, n) &&
                          recs[k].severity == High && !recs[k].autoFix
  {
    var recs, names := Recommendations(t), HighMissingNames(t, 0.7);
    MissingSectionFirst(t);
    forall n | n in names
      ensures exists k :: 0 <= k < |recs| && About(recs[k], MissingValues, n) &&
                          recs[k].severity == High && !recs[k].autoFix
    {
      var m :| 0 <= m < |names| && names[m] == n;
      var j := ListedColumn(t, 0.7, m);
      var k := HighMissingInSection(t, j);
      assert recs[k] == Section(MissingRule, t)[k];
    }
  }

  /** The missing-values section opens the recommendation list. */
  lemma MissingSectionFirst(t: Table)
    requires WellFormed(t)
    ensures |Section(MissingRule, t)| <= |Recommendations(t)|
    ensures forall k :: 0 <= k < |Section(MissingRule, t)| ==> Recommendations(t)[k] == Section(MissingRule, t)[k]
  {
    FirstBlock(Section(MissingRule, t), AsSeq(DuplicateRecord(t)), Section(TypeRule, t),
               Section(DateRule, t), AsSeq(HighMissingRecord(t)), Section(WhitespaceRule, t));
  }

  lemma FirstBlock(p0: seq<Recommendation>, p1: seq<Recommendation>, p2: seq<Recommendation>,
                   p3: seq<Recommendation>, p4: seq<Recommendation>, p5: seq<Recommendation>)
    ensures var all := p0 + p1 + p2 + p3 + p4 + p5;
            |p0| <= |all| && forall k :: 0 <= k < |p0| ==> all[k] == p0[k]
  {
  }

  /** A name listed as high-missing is the name of a column above the threshold. */
  lemma ListedColumn(t: Table, threshold: real, m: nat) returns (j: nat)
    requires WellFormed(t) && m < |HighMissingNames(t, threshold)|
    ensures j < |t.names| && MissingAbove(t, threshold)[j] && t.names[j] == HighMissingNames(t, threshold)[m]
  {
    var mask := MissingAbove(t, threshold);
    j := KeptPosition(mask, m);
    KeepAt(t.names, mask, m);
  }

  /** A column above 70% missing has a High, non-auto-fixed record in the missing-values section. */
  lemma HighMissingInSection(t: Table, j: nat) returns (k: nat)
    requires WellFormed(t) && j < |t.names| && MissingAbove(t, 0.7)[j]
    ensures k < |Section(MissingRule, t)|
    ensures var r := Section(MissingRule, t)[k];
            About(r, MissingValues, t.names[j]) && r.severity == High && !r.autoFix
  {
    var all := ColumnRecords(MissingRule, t);
    var idx := SomesPositions(all);
    AboveThresholdFlagged(t, 0.7, j);
    assert all[j].Some?;
    k :| 0 <= k < |idx| && idx[k] == j;
  }

  /** The high-missing record lists a column exactly when its missing ratio is above 0.7 (distinct names). */
  lemma HighMissingListsExactly(t: Table)
    requires WellFormed(t) && Distinct(t.names)
    ensures forall j :: 0 <= j < |t.names| ==> (t.names[j] in HighMissingNames(t, 0.7) <==> MissingAbove(t, 0.7)[j])
  {
    var mask := MissingAbove(t, 0.7);
    UnlistedKept(t.names, mask);
    assert forall j :: 0 <= j < |t.names| ==> UnlistedMask(t.names, Keep(t.names, mask))[j] == !mask[j];
  }

  /** `rule` reports no column of `t`. */
  predicate NoColumnFlagged(rule: Rule, t: Table)
    requires WellFormed(t)
  {
    forall j :: 0 <= j < |t.names| ==> !Flagged(rule, t, j)
  }

  /** A section is empty exactly when its rule flags no column. */
  lemma SectionEmptyIff(rule: Rule, t: Table)
    requires WellFormed(t)
    ensures Section(rule, t) == [] <==> NoColumnFlagged(rule, t)
  {
    var all := ColumnRecords(rule, t);
    SomesEmpty(all);
    forall j | 0 <= j < |t.names| ensures all[j].None? <==> !Flagged(rule, t, j) {
      assert all[j] == ColumnRecord(rule, t, j);
    }
  }

  /** A high-missing record implies some missing-values record. */
  lemma HighMissingNeedsMissing(t: Table)
    requires WellFormed(t) && HighMissingRecord(t).Some?
    ensures !NoColumnFlagged(MissingRule, t)
  {
    var j :| 0 <= j < |t.names| && MissingAbove(t, 0.7)[j];
    AboveThresholdFlagged(t, 0.7, j);
  }

  /**
   * "No issues detected" exactly when no row repeats and no per-column
   * rule flags a column: the high-missing rule never fires alone.
   */
  lemma NoRecommendationsIff(t: Table)
    requires WellFormed(t)
    ensures Recommendations(t) == [] <==> DuplicateRows(t) == 0 && forall rule :: NoColumnFlagged(rule, t)
  {
    var p0, p1, p2 := Section(MissingRule, t), AsSeq(DuplicateRecord(t)), Section(TypeRule, t);
    var p3, p4, p5 := Section(DateRule, t), AsSeq(HighMissingRecord(t)), Section(WhitespaceRule, t);
    ConcatEmpty(p0, p1, p2, p3, p4, p5);
    SectionEmptyIff(MissingRule, t);
    SectionEmptyIff(TypeRule, t);
    SectionEmptyIff(DateRule, t);
    SectionEmptyIff(WhitespaceRule, t);
    if p4 != [] {
      HighMissingNeedsMissing(t);
    }
    if p0 == [] && p2 == [] && p3 == [] && p5 == [] {
      forall rule ensures NoColumnFlagged(rule, t) {
        match rule
        case MissingRule =>
        case TypeRule =>
        case DateRule =>
        case WhitespaceRule =>
      }
    }
  }

  lemma ConcatEmpty<T>(p0: seq<T>, p1: seq<T>, p2: seq<T>, p3: seq<T>, p4: seq<T>, p5: seq<T>)
    ensures p0 + p1 + p2 + p3 + p4 + p5 == [] <==>
            p0 == [] && p1 == [] && p2 == [] && p3 == [] && p4 == [] && p5 == []
  {
    assert |p0 + p1 + p2 + p3 + p4 + p5| == |p0| + |p1| + |p2| + |p3| + |p4| + |p5|;
  }

  // ---------------------------------------------------------------------
  // Dashboard views

  /** How many records have severity `s`. */
  function SeverityCount(recs: seq<Recommendation>, s: Severity): (n: nat)
    ensures n <= |recs|
  {
    if recs == [] then 0
    else SeverityCount(recs[..|recs| - 1], s) + (if recs[|recs| - 1].severity == s then 1 else 0)
  }

  /** Every record is counted under exactly one severity. */
  lemma {:induction false} SeverityCountsAddUp(recs: seq<Recommendation>)
    ensures SeverityCount(recs, High) + SeverityCount(recs, Medium) + SeverityCount(recs, Low) == |recs|
  {
    if recs != [] {
      SeverityCountsAddUp(recs[..|recs| - 1]);
    }
  }

  /** `severity_counts[rec["severity"]] += 1` over all records. */
  method TallySeverities(recs: seq<Recommendation>) returns (high: nat, medium: nat, low: nat)
    ensures high == SeverityCount(recs, High)
    ensures medium == SeverityCount(recs, Medium)
    ensures low == SeverityCount(recs, Low)
  {
    high, medium, low := 0, 0, 0;
    for i := 0 to |recs|
      invariant high == SeverityCount(recs[..i], High)
      invariant medium == SeverityCount(recs[..i], Medium)
      invariant low == SeverityCount(recs[..i], Low)
    {
      assert recs[..i + 1][..i] == recs[..i];
      match recs[i].severity
      case High => high := high + 1;
      case Medium => medium := medium + 1;
      case Low => low := low + 1;
    }
    assert recs[..|recs|] == recs;
  }

  /** The issue of every record, in order. */
  function IssuesOf(recs: seq<Recommendation>): (xs: seq<Issue>)
    ensures |xs| == |recs| && forall i :: 0 <= i < |recs| ==> xs[i] == recs[i].issue
  {
    seq(|recs|, i requires 0 <= i < |recs| => recs[i].issue)
  }

  /** The records with issue `x`, in order. */
  function OfIssue(recs: seq<Recommendation>, x: Issue): (r: seq<Recommendation>)
    ensures forall k :: 0 <= k < |r| ==> r[k].issue == x && r[k] in recs
    ensures forall i :: 0 <= i < |recs| && recs[i].issue == x ==> recs[i] in r
  {
    if recs == [] then []
    else
      var n := |recs| - 1;
      var prev := OfIssue(recs[..n], x);
      assert forall i :: 0 <= i < n ==> recs[..n][i] == recs[i];
      prev + (if recs[n].issue == x then [recs[n]] else [])
  }

  /** An element occurs in the deduplication of a sequence exactly when it occurs in the sequence. */
  lemma {:induction false} DedupHas<T>(s: seq<T>, x: T)
    ensures x in Dedup(s) <==> x in s
  {
    if s != [] {
      var n := |s| - 1;
      DedupHas(s[..n], x);
      assert s == s[..n] + [s[n]];
    }
  }

  /** The issues of one more record: one more issue at the end. */
  lemma IssuesOfSnoc(p: seq<Recommendation>, r: Recommendation)
    ensures IssuesOf(p + [r]) == IssuesOf(p) + [r.issue]
  {
  }

  /** Deduplicating one more element adds it at the end unless it occurred already. */
  lemma DedupSnoc<T>(s: seq<T>, x: T)
    ensures Dedup(s + [x]) == if x in s then Dedup(s) else Dedup(s) + [x]
  {
    assert (s + [x])[..|s|] == s;
  }

  /** Each key's group holds exactly the records of `p` with that issue. */
  predicate Groups(p: seq<Recommendation>, keys: seq<Issue>, groups: seq<seq<Recommendation>>) {
    |groups| == |keys| && forall g :: 0 <= g < |keys| ==> groups[g] == OfIssue(p, keys[g])
  }

  /** One more record joins the end of its own issue's records. */
  lemma OfIssueSnoc(before: seq<Recommendation>, r: Recommendation, y: Issue)
    ensures OfIssue(before + [r], y) == OfIssue(before, y) + (if y == r.issue then [r] else [])
  {
    assert (before + [r])[..|before|] == before;
  }

  /** No record has issue `x`: its group is empty. */
  lemma OfIssueAbsent(recs: seq<Recommendation>, x: Issue)
    requires x !in IssuesOf(recs)
    ensures OfIssue(recs, x) == []
  {
  }

  /** A key no record has so far starts with an empty group. */
  lemma AddKey(p: seq<Recommendation>, keys: seq<Issue>, groups: seq<seq<Recommendation>>, x: Issue)
    requires Groups(p, keys, groups) && x !in IssuesOf(p)
    ensures Groups(p, keys + [x], groups + [[]])
  {
    OfIssueAbsent(p, x);
  }

  /** `issue_types[rec["issue"]].append(rec)`: the record joins the group of its issue. */
  function AddToGroup(keys: seq<Issue>, groups: seq<seq<Recommendation>>, r: Recommendation): (res: seq<seq<Recommendation>>)
    requires |groups| == |keys|
    ensures |res| == |keys|
    ensures forall h :: 0 <= h < |keys| ==> res[h] == if keys[h] == r.issue then groups[h] + [r] else groups[h]
  {
    seq(|keys|, h requires 0 <= h < |keys| => if keys[h] == r.issue then groups[h] + [r] else groups[h])
  }

  /** After the append, the groups hold each key's records of `p + [r]`. */
  lemma AddRecord(p: seq<Recommendation>, keys: seq<Issue>, groups: seq<seq<Recommendation>>, r: Recommendation)
    requires Groups(p, keys, groups)
    ensures Groups(p + [r], keys, AddToGroup(keys, groups, r))
  {
    forall h | 0 <= h < |keys| ensures AddToGroup(keys, groups, r)[h] == OfIssue(p + [r], keys[h]) {
      OfIssueSnoc(p, r, keys[h]);
    }
  }

  /** What the grouping loop keeps after scanning `p`: the keys in first-appearance order, and their groups. */
  predicate GroupedBy(p: seq<Recommendation>, keys: seq<Issue>, groups: seq<seq<Recommendation>>) {
    keys == Dedup(IssuesOf(p)) && Groups(p, keys, groups)
  }

  /** One turn of the grouping loop: add the key if it is new, then append the record to its group. */
  lemma GroupSnoc(p: seq<Recommendation>, r: Recommendation, keys: seq<Issue>, groups: seq<seq<Recommendation>>,
                   keys': seq<Issue>, groups': seq<seq<Recommendation>>)
    requires GroupedBy(p, keys, groups)
    requires r.issue in keys ==> keys' == keys && groups' == AddToGroup(keys, groups, r)
    requires r.issue !in keys ==> keys' == keys + [r.issue] && groups' == AddToGroup(keys', groups + [[]], r)
    ensures GroupedBy(p + [r], keys', groups')
  {
    IssuesOfSnoc(p, r);
    DedupSnoc(IssuesOf(p), r.issue);
    DedupHas(IssuesOf(p), r.issue);
    if r.issue !in keys {
      AddKey(p, keys, groups, r.issue);
      AddRecord(p, keys', groups + [[]], r);
    } else {
      AddRecord(p, keys, groups, r);
    }
  }

  /**
   * The grouping loop: one key per issue, in order of first appearance,
   * each holding the records with that issue in their original order.
   */
  method GroupByIssue(recs: seq<Recommendation>) returns (keys: seq<Issue>, groups: seq<seq<Recommendation>>)
    ensures keys == Dedup(IssuesOf(recs))
    ensures |groups| == |keys| && forall g :: 0 <= g < |keys| ==> groups[g] == OfIssue(recs, keys[g])
  {
    keys, groups := [], [];
    ghost var seen: seq<Recommendation> := [];
    for i := 0 to |recs|
      invariant seen == recs[..i] && GroupedBy(seen, keys, groups)
    {
      keys, groups := GroupRecord(seen, recs[i], keys, groups);
      seen := seen + [recs[i]];
    }
    assert seen == recs;
    assert GroupedBy(recs, keys, groups);
  }

  /** One turn of the grouping loop on the records `p` scanned so far and the next record `r`. */
  method GroupRecord(ghost p: seq<Recommendation>, r: Recommendation, keys: seq<Issue>, groups: seq<seq<Recommendation>>)
    returns (keys': seq<Issue>, groups': seq<seq<Recommendation>>)
    requires GroupedBy(p, keys, groups)
    ensures GroupedBy(p + [r], keys', groups')
  {
    keys', groups' := keys, groups;
    if r.issue !in keys {
      keys', groups' := keys + [r.issue], groups + [[]];
    }
    groups' := AddToGroup(keys', groups', r);
    GroupSnoc(p, r, keys, groups, keys', groups');
  }

  /** The groups have distinct keys, cover every record, and hold nothing else. */
  lemma GroupingPartitions(recs: seq<Recommendation>)
    ensures Distinct(Dedup(IssuesOf(recs)))
    ensures forall i :: 0 <= i < |recs| ==> recs[i].issue in Dedup(IssuesOf(recs))
    ensures forall x :: x !in Dedup(IssuesOf(recs)) ==> OfIssue(recs, x) == []
  {
    forall x ensures x in Dedup(IssuesOf(recs)) <==> x in IssuesOf(recs) {
      DedupHas(IssuesOf(recs), x);
    }
    forall x | x !in Dedup(IssuesOf(recs)) ensures OfIssue(recs, x) == [] {
      OfIssueAbsent(recs, x);
    }
  }
}
