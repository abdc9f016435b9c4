/** The insight generator (`build_insights`): four rules, each applied in a
    loop of its own, and a fallback when none of them fires. An insight is
    kept as the data its sentence reports rather than as the sentence. */
module InsightRules {
  import opened Seqs
  import opened Tables
  import opened Order
  import opened Audit
  import opened Stats
  import opened Anomaly
  import opened Ratios

  datatype Insight =
    | HighMissing(column: string, missing: nat, rowCount: nat)
    | HighVariability(column: string, spread: real, mean: real)
    | AnomaliesDetected(column: string, count: nat, mean: real, variance: real)
    | DominantCategory(column: string, value: string, occurrences: nat, nonNull: nat)
    | NoIssues

  /** Smallest missing share that is reported. */
  const MissingShare: real := 0.2
  /** Smallest range-to-mean ratio that is reported. */
  const VariabilityRatio: real := 1.0
  /** Largest number of distinct values of a column the dominance rule looks at. */
  const MaxCategories: nat := 10
  /** Smallest share of the dominant value that is reported. */
  const DominantShare: real := 0.5

  /** The position of an insight's rule in the order the rules run. */
  function Rank(i: Insight): nat {
    match i
    case HighMissing(_, _, _) => 0
    case HighVariability(_, _, _) => 1
    case AnomaliesDetected(_, _, _, _) => 2
    case DominantCategory(_, _, _, _) => 3
    case NoIssues => 4
  }

  /** `max(int(dataframe.shape[0]), 1)`. */
  function RowCount(t: Table): (n: nat)
    ensures n >= 1
  {
    Max(t.rows, 1)
  }

  /** `float(missing_count) / row_count >= 0.2`; the row count is never 0. */
  predicate MissingShareReached(missing: nat, rowCount: nat) {
    rowCount > 0 && (missing as real) / (rowCount as real) >= MissingShare
  }

  function MissingRule(rowCount: nat, entry: (string, nat)): Option<Insight> {
    var (column, missing) := entry;
    if MissingShareReached(missing, rowCount) then Some(HighMissing(column, missing, rowCount)) else None
  }

  /** `mean_value > 0 and spread / mean_value >= 1.0`. */
  predicate HighSpread(s: ColumnStats) {
    s.mean > 0.0 && (s.max - s.min) / s.mean >= VariabilityRatio
  }

  function VariabilityRule(entry: (string, ColumnStats)): Option<Insight> {
    var (column, s) := entry;
    if HighSpread(s) then Some(HighVariability(column, s.max - s.min, s.mean)) else None
  }

  function AnomalyRule(entry: (string, AnomalyEntry)): Option<Insight> {
    var (column, e) := entry;
    if e.count > 0 then Some(AnomaliesDetected(column, e.count, e.mean, e.variance)) else None
  }

  /** `float((as_str == dominant_value).mean()) >= 0.5`. */
  predicate DominanceReached(occurrences: nat, nonNull: nat) {
    nonNull > 0 && (occurrences as real) / (nonNull as real) >= DominantShare
  }

  /** A column as the dominance rule sees it: its name and its non-missing
      values rendered as strings (`series.dropna().astype(str)`). */
  datatype Labels = Labels(column: string, values: seq<string>)

  function LabelsOf(c: Column, co: Coercion): Labels {
    Labels(c.name, AsStrings(c.cells, co))
  }

  /** The columns of a table as the dominance rule sees them, in order. */
  function LabelColumns(columns: seq<Column>, co: Coercion): (ls: seq<Labels>)
    ensures |ls| == |columns|
    ensures forall j :: 0 <= j < |columns| ==> ls[j] == LabelsOf(columns[j], co)
  {
    Map(columns, (c: Column) => LabelsOf(c, co))
  }

  /** The dominance rule on one column: skipped when it has no values or
      more than ten distinct ones; otherwise its mode is reported when it
      covers at least half of the values. */
  function DominanceRule(l: Labels): (r: Option<Insight>)
    ensures r.Some? ==> r.value.DominantCategory? && r.value.column == l.column
  {
    var strs := l.values;
    if |strs| == 0 || Distinct(strs) > MaxCategories then None
    else
      match Mode(strs)
      case None => None
      case Some(v) =>
        var k := Occurrences(strs, v);
        if DominanceReached(k, |strs|) then Some(DominantCategory(l.column, v, k, |strs|)) else None
  }

  function MissingInsights(rowCount: nat, missing: seq<(string, nat)>): seq<Insight> {
    FilterMap(missing, (e: (string, nat)) => MissingRule(rowCount, e))
  }

  function VariabilityInsights(stats: seq<(string, ColumnStats)>): seq<Insight> {
    FilterMap(stats, VariabilityRule)
  }

  function AnomalyInsights(anomalies: seq<(string, AnomalyEntry)>): seq<Insight> {
    FilterMap(anomalies, AnomalyRule)
  }

  function DominanceInsights(labels: seq<Labels>): seq<Insight> {
    FilterMap(labels, DominanceRule)
  }

  /** What the four rules find, in the order they run. */
  function Found(t: Table, co: Coercion, audit: AuditReport, stats: seq<(string, ColumnStats)>,
                 anomalies: seq<(string, AnomalyEntry)>): seq<Insight>
  {
    MissingInsights(RowCount(t), audit.missing) + VariabilityInsights(stats)
      + AnomalyInsights(anomalies) + DominanceInsights(LabelColumns(t.columns, co))
  }

  /** The insight list: what the rules find, or the fallback alone. */
  function Insights(t: Table, co: Coercion, audit: AuditReport, stats: seq<(string, ColumnStats)>,
                    anomalies: seq<(string, AnomalyEntry)>): seq<Insight>
  {
    WithFallback(Found(t, co, audit, stats, anomalies))
  }

  /** The rules' findings, or the fallback alone when there are none. */
  function WithFallback(found: seq<Insight>): seq<Insight> {
    if |found| == 0 then [NoIssues] else found
  }

  /** One pass of the fourth loop (backend/app/main.py:194-208) in its
      statement form, early exit included: nothing for a column without
      values or with more than ten distinct ones, otherwise its mode when it
      covers at least half of the values. The rule itself is defined once,
      by `DominanceRule`; this method is proved to compute it. */
  method DominanceOfColumn(column: Column, co: Coercion) returns (insight: Option<Insight>)
    ensures insight == DominanceRule(LabelsOf(column, co))
  {
    var strs := AsStrings(column.cells, co);
    if |strs| == 0 {
      return None;
    }
    insight := None;
    if Distinct(strs) <= MaxCategories {
      var mode := Mode(strs);
      if mode.Some? {
        var k := Occurrences(strs, mode.value);
        if DominanceReached(k, |strs|) {
          insight := Some(DominantCategory(column.name, mode.value, k, |strs|));
        }
      }
    }
  }

  /** The fourth loop: the dominance rule on every column. */
  method DominanceLoop(t: Table, co: Coercion) returns (found: seq<Insight>)
    ensures found == DominanceInsights(LabelColumns(t.columns, co))
  {
    found := [];
    for j := 0 to |t.columns|
      invariant found == DominanceInsights(LabelColumns(t.columns[..j], co))
    {
      MapStep(t.columns, (c: Column) => LabelsOf(c, co), j);
      FilterMapSnoc(LabelColumns(t.columns[..j], co), LabelsOf(t.columns[j], co), DominanceRule);
      var insight := DominanceOfColumn(t.columns[j], co);
      if insight.Some? {
        found := found + [insight.value];
      }
    }
    assert t.columns[..|t.columns|] == t.columns;
  }

  /** The first loop: one insight per column whose missing share reaches 20%. */
  method MissingDataLoop(rowCount: nat, missing: seq<(string, nat)>) returns (found: seq<Insight>)
    ensures found == MissingInsights(rowCount, missing)
  {
    var missingRule := (e: (string, nat)) => MissingRule(rowCount, e);
    found := [];
    for i := 0 to |missing|
      invariant found == FilterMap(missing[..i], missingRule)
    {
      FilterMapStep(missing, missingRule, i);
      var (column, count) := missing[i];
      if MissingShareReached(count, rowCount) {
        found := found + [HighMissing(column, count, rowCount)];
      }
    }
    assert missing[..|missing|] == missing;
  }

  /** The second loop: one insight per statistics entry whose range reaches its mean. */
  method VariabilityLoop(stats: seq<(string, ColumnStats)>) returns (found: seq<Insight>)
    ensures found == VariabilityInsights(stats)
  {
    found := [];
    for i := 0 to |stats|
      invariant found == FilterMap(stats[..i], VariabilityRule)
    {
      FilterMapStep(stats, VariabilityRule, i);
      var (column, s) := stats[i];
      if HighSpread(s) {
        found := found + [HighVariability(column, s.max - s.min, s.mean)];
      }
    }
    assert stats[..|stats|] == stats;
  }

  /** The third loop: one insight per anomaly entry with at least one anomaly. */
  method AnomalyLoop(anomalies: seq<(string, AnomalyEntry)>) returns (found: seq<Insight>)
    ensures found == AnomalyInsights(anomalies)
  {
    found := [];
    for i := 0 to |anomalies|
      invariant found == FilterMap(anomalies[..i], AnomalyRule)
    {
      FilterMapStep(anomalies, AnomalyRule, i);
      var (column, e) := anomalies[i];
      if e.count > 0 {
        found := found + [AnomaliesDetected(column, e.count, e.mean, e.variance)];
      }
    }
    assert anomalies[..|anomalies|] == anomalies;
  }

  /** `build_insights`: the four loops in order, each appending to the same
      list, then the fallback when the list is still empty. */
  method BuildInsights(t: Table, co: Coercion, audit: AuditReport, stats: seq<(string, ColumnStats)>,
                       anomalies: seq<(string, AnomalyEntry)>)
    returns (insights: seq<Insight>)
    ensures insights == Insights(t, co, audit, stats, anomalies)
  {
    insights := MissingDataLoop(RowCount(t), audit.missing);
    var variability := VariabilityLoop(stats);
    insights := insights + variability;
    var outliers := AnomalyLoop(anomalies);
    insights := insights + outliers;
    var dominant := DominanceLoop(t, co);
    insights := insights + dominant;
    if |insights| == 0 {
      insights := insights + [NoIssues];
    }
  }

  /** The fractional thresholds as integer comparisons: a missing share of
      at least 20% is `5 * missing >= rowCount`, a range at least the mean is
      `spread >= mean`, and a dominant share of at least half is
      `2 * occurrences >= nonNull`. */
  lemma ThresholdsAsComparisons(missing: nat, rowCount: nat, occurrences: nat, nonNull: nat, s: ColumnStats)
    ensures MissingShareReached(missing, rowCount) <==> rowCount > 0 && 5 * missing >= rowCount
    ensures DominanceReached(occurrences, nonNull) <==> nonNull > 0 && 2 * occurrences >= nonNull
    ensures HighSpread(s) <==> s.mean > 0.0 && s.max - s.min >= s.mean
  {
    if rowCount > 0 {
      RatioAtLeast(missing as real, rowCount as real, MissingShare);
    }
    if nonNull > 0 {
      RatioAtLeast(occurrences as real, nonNull as real, DominantShare);
    }
    if s.mean > 0.0 {
      RatioAtLeast(s.max - s.min, s.mean, VariabilityRatio);
    }
  }

  /** Every element of `xs` comes from the rule of the given rank. */
  predicate AllOfRank(xs: seq<Insight>, rank: nat) {
    forall k :: 0 <= k < |xs| ==> Rank(xs[k]) == rank
  }

  lemma MissingRanks(rowCount: nat, missing: seq<(string, nat)>)
    ensures AllOfRank(MissingInsights(rowCount, missing), 0)
  {
    forall y | y in MissingInsights(rowCount, missing) ensures Rank(y) == 0 {
      FilterMapIn(missing, (e: (string, nat)) => MissingRule(rowCount, e), y);
    }
  }

  lemma VariabilityRanks(stats: seq<(string, ColumnStats)>)
    ensures AllOfRank(VariabilityInsights(stats), 1)
  {
    forall y | y in VariabilityInsights(stats) ensures Rank(y) == 1 {
      FilterMapIn(stats, VariabilityRule, y);
    }
  }

  lemma AnomalyRanks(anomalies: seq<(string, AnomalyEntry)>)
    ensures AllOfRank(AnomalyInsights(anomalies), 2)
  {
    forall y | y in AnomalyInsights(anomalies) ensures Rank(y) == 2 {
      FilterMapIn(anomalies, AnomalyRule, y);
    }
  }

  lemma DominanceRanks(labels: seq<Labels>)
    ensures AllOfRank(DominanceInsights(labels), 3)
  {
    var xs := DominanceInsights(labels);
    FilterMapAll(labels, DominanceRule, (y: Insight) => y.DominantCategory?);
    assert forall k :: 0 <= k < |xs| ==> xs[k].DominantCategory?;
  }

  lemma GroupRanks(t: Table, co: Coercion, audit: AuditReport, stats: seq<(string, ColumnStats)>,
                   anomalies: seq<(string, AnomalyEntry)>)
    ensures AllOfRank(MissingInsights(RowCount(t), audit.missing), 0)
    ensures AllOfRank(VariabilityInsights(stats), 1)
    ensures AllOfRank(AnomalyInsights(anomalies), 2)
    ensures AllOfRank(DominanceInsights(LabelColumns(t.columns, co)), 3)
  {
    MissingRanks(RowCount(t), audit.missing);
    VariabilityRanks(stats);
    AnomalyRanks(anomalies);
    DominanceRanks(LabelColumns(t.columns, co));
  }

  lemma ConcatInOrder(a: seq<Insight>, b: seq<Insight>, c: seq<Insight>, d: seq<Insight>)
    requires AllOfRank(a, 0) && AllOfRank(b, 1) && AllOfRank(c, 2) && AllOfRank(d, 3)
    ensures var r := a + b + c + d;
      forall x, y :: 0 <= x <= y < |r| ==> Rank(r[x]) <= Rank(r[y])
  {
    var r := a + b + c + d;
    forall k | 0 <= k < |r|
      ensures Rank(r[k]) == (if k < |a| then 0 else if k < |a| + |b| then 1 else if k < |a| + |b| + |c| then 2 else 3)
    {
      if k < |a| {
        assert r[k] == a[k];
      } else if k < |a| + |b| {
        assert r[k] == b[k - |a|];
      } else if k < |a| + |b| + |c| {
        assert r[k] == c[k - |a| - |b|];
      } else {
        assert r[k] == d[k - |a| - |b| - |c|];
      }
    }
  }

  lemma ConcatRanksBelowFallback(a: seq<Insight>, b: seq<Insight>, c: seq<Insight>, d: seq<Insight>, k: nat)
    requires AllOfRank(a, 0) && AllOfRank(b, 1) && AllOfRank(c, 2) && AllOfRank(d, 3)
    requires k < |a + b + c + d|
    ensures Rank((a + b + c + d)[k]) <= 3
  {
    var r := a + b + c + d;
    if k < |a| {
      assert r[k] == a[k];
    } else if k < |a| + |b| {
      assert r[k] == b[k - |a|];
    } else if k < |a| + |b| + |c| {
      assert r[k] == c[k - |a| - |b|];
    } else {
      assert r[k] == d[k - |a| - |b| - |c|];
    }
  }

  /** Four groups of rule results never hold the fallback. */
  lemma GroupsNoFallback(a: seq<Insight>, b: seq<Insight>, c: seq<Insight>, d: seq<Insight>)
    requires AllOfRank(a, 0) && AllOfRank(b, 1) && AllOfRank(c, 2) && AllOfRank(d, 3)
    ensures NoIssues !in a + b + c + d
  {
    var r := a + b + c + d;
    forall k | 0 <= k < |r| ensures r[k] != NoIssues {
      ConcatRanksBelowFallback(a, b, c, d, k);
    }
  }

  /** Four groups of rule results with the fallback added: never empty,
      ordered by rank, and holding the fallback only as the whole list. */
  lemma GroupsInOrder(a: seq<Insight>, b: seq<Insight>, c: seq<Insight>, d: seq<Insight>)
    requires AllOfRank(a, 0) && AllOfRank(b, 1) && AllOfRank(c, 2) && AllOfRank(d, 3)
    ensures var r := WithFallback(a + b + c + d);
      && |r| > 0
      && (forall x, y :: 0 <= x <= y < |r| ==> Rank(r[x]) <= Rank(r[y]))
      && (NoIssues in r <==> r == [NoIssues])
  {
    ConcatInOrder(a, b, c, d);
    GroupsNoFallback(a, b, c, d);
    var found := a + b + c + d;
    if |found| > 0 {
      assert found[0] in found;
      assert found != [NoIssues];
    }
  }

  /** The fallback alone is the answer exactly when all four groups are empty. */
  lemma GroupsFallbackIff(a: seq<Insight>, b: seq<Insight>, c: seq<Insight>, d: seq<Insight>)
    requires AllOfRank(a, 0) && AllOfRank(b, 1) && AllOfRank(c, 2) && AllOfRank(d, 3)
    ensures WithFallback(a + b + c + d) == [NoIssues] <==> a == [] && b == [] && c == [] && d == []
  {
    GroupsNoFallback(a, b, c, d);
    var found := a + b + c + d;
    assert |found| == |a| + |b| + |c| + |d|;
    if |found| > 0 {
      assert found[0] in found;
    }
  }

  /** An insight of the list with the fallback added comes from the group
      of its kind, or is the fallback standing alone. */
  lemma GroupsMembers(a: seq<Insight>, b: seq<Insight>, c: seq<Insight>, d: seq<Insight>, y: Insight)
    requires AllOfRank(a, 0) && AllOfRank(b, 1) && AllOfRank(c, 2) && AllOfRank(d, 3)
    ensures y in WithFallback(a + b + c + d) <==>
      || (y.HighMissing? && y in a)
      || (y.HighVariability? && y in b)
      || (y.AnomaliesDetected? && y in c)
      || (y.DominantCategory? && y in d)
      || (y.NoIssues? && WithFallback(a + b + c + d) == [NoIssues])
  {
    GroupsNoFallback(a, b, c, d);
    var found := a + b + c + d;
    assert y in found <==> y in a || y in b || y in c || y in d;
    RankOfMember(a, 0, y);
    RankOfMember(b, 1, y);
    RankOfMember(c, 2, y);
    RankOfMember(d, 3, y);
  }

  lemma RankOfMember(xs: seq<Insight>, rank: nat, y: Insight)
    requires AllOfRank(xs, rank)
    ensures y in xs ==> Rank(y) == rank
  {
    if y in xs {
      var k :| 0 <= k < |xs| && xs[k] == y;
    }
  }

  /** The rules never produce the fallback. */
  lemma FoundHasNoFallback(t: Table, co: Coercion, audit: AuditReport, stats: seq<(string, ColumnStats)>,
                           anomalies: seq<(string, AnomalyEntry)>)
    ensures NoIssues !in Found(t, co, audit, stats, anomalies)
  {
    GroupRanks(t, co, audit, stats, anomalies);
    GroupsNoFallback(MissingInsights(RowCount(t), audit.missing), VariabilityInsights(stats),
                     AnomalyInsights(anomalies), DominanceInsights(LabelColumns(t.columns, co)));
  }

  /** The list is never empty, the insights come in the order the rules run
      (missing data, variability, anomalies, dominant categories), and the
      fallback appears only as the whole list. */
  lemma InsightsInOrder(t: Table, co: Coercion, audit: AuditReport, stats: seq<(string, ColumnStats)>,
                        anomalies: seq<(string, AnomalyEntry)>)
    ensures var r := Insights(t, co, audit, stats, anomalies);
      && |r| > 0
      && (forall x, y :: 0 <= x <= y < |r| ==> Rank(r[x]) <= Rank(r[y]))
      && (NoIssues in r <==> r == [NoIssues])
  {
    GroupRanks(t, co, audit, stats, anomalies);
    GroupsInOrder(MissingInsights(RowCount(t), audit.missing), VariabilityInsights(stats),
                  AnomalyInsights(anomalies), DominanceInsights(LabelColumns(t.columns, co)));
  }

  /** The fallback is the answer exactly when no rule fires on any entry. */
  lemma FallbackIff(t: Table, co: Coercion, audit: AuditReport, stats: seq<(string, ColumnStats)>,
                    anomalies: seq<(string, AnomalyEntry)>)
    ensures Insights(t, co, audit, stats, anomalies) == [NoIssues] <==>
      && (forall i :: 0 <= i < |audit.missing| ==> !MissingShareReached(audit.missing[i].1, RowCount(t)))
      && (forall i :: 0 <= i < |stats| ==> !HighSpread(stats[i].1))
      && (forall i :: 0 <= i < |anomalies| ==> anomalies[i].1.count == 0)
      && (forall j :: 0 <= j < |t.columns| ==> DominanceRule(LabelsOf(t.columns[j], co)).None?)
  {
    var rc := RowCount(t);
    MissingNone(rc, audit.missing);
    VariabilityNone(stats);
    AnomalyNone(anomalies);
    var ls := LabelColumns(t.columns, co);
    FilterMapEmpty(ls, DominanceRule);
    assert (forall j :: 0 <= j < |ls| ==> DominanceRule(ls[j]).None?) <==>
           (forall j :: 0 <= j < |t.columns| ==> DominanceRule(LabelsOf(t.columns[j], co)).None?);
    FallbackWhenNothingFound(t, co, audit, stats, anomalies);
  }

  lemma FallbackWhenNothingFound(t: Table, co: Coercion, audit: AuditReport, stats: seq<(string, ColumnStats)>,
                                 anomalies: seq<(string, AnomalyEntry)>)
    ensures Insights(t, co, audit, stats, anomalies) == [NoIssues] <==>
      && MissingInsights(RowCount(t), audit.missing) == [] && VariabilityInsights(stats) == []
      && AnomalyInsights(anomalies) == [] && DominanceInsights(LabelColumns(t.columns, co)) == []
  {
    GroupRanks(t, co, audit, stats, anomalies);
    GroupsFallbackIff(MissingInsights(RowCount(t), audit.missing), VariabilityInsights(stats),
                      AnomalyInsights(anomalies), DominanceInsights(LabelColumns(t.columns, co)));
  }

  lemma MissingNone(rowCount: nat, missing: seq<(string, nat)>)
    ensures MissingInsights(rowCount, missing) == [] <==>
            forall i :: 0 <= i < |missing| ==> !MissingShareReached(missing[i].1, rowCount)
  {
    FilterMapEmpty(missing, (e: (string, nat)) => MissingRule(rowCount, e));
  }

  lemma VariabilityNone(stats: seq<(string, ColumnStats)>)
    ensures VariabilityInsights(stats) == [] <==> forall i :: 0 <= i < |stats| ==> !HighSpread(stats[i].1)
  {
    FilterMapEmpty(stats, VariabilityRule);
  }

  lemma AnomalyNone(anomalies: seq<(string, AnomalyEntry)>)
    ensures AnomalyInsights(anomalies) == [] <==> forall i :: 0 <= i < |anomalies| ==> anomalies[i].1.count == 0
  {
    FilterMapEmpty(anomalies, AnomalyRule);
  }

  /** Which group an insight can come from: each kind has one rule. */
  lemma InsightMembers(t: Table, co: Coercion, audit: AuditReport, stats: seq<(string, ColumnStats)>,
                       anomalies: seq<(string, AnomalyEntry)>, y: Insight)
    ensures y in Insights(t, co, audit, stats, anomalies) <==>
      || (y.HighMissing? && y in MissingInsights(RowCount(t), audit.missing))
      || (y.HighVariability? && y in VariabilityInsights(stats))
      || (y.AnomaliesDetected? && y in AnomalyInsights(anomalies))
      || (y.DominantCategory? && y in DominanceInsights(LabelColumns(t.columns, co)))
      || (y.NoIssues? && Insights(t, co, audit, stats, anomalies) == [NoIssues])
  {
    GroupRanks(t, co, audit, stats, anomalies);
    GroupsMembers(MissingInsights(RowCount(t), audit.missing), VariabilityInsights(stats),
                  AnomalyInsights(anomalies), DominanceInsights(LabelColumns(t.columns, co)), y);
  }

  /** A missing-data insight reports a column of the audit with its missing
      count, exactly when that count is at least a fifth of the row count
      (which is the table's row count, or 1 for an empty table). */
  lemma MissingInsightIff(t: Table, co: Coercion, audit: AuditReport, stats: seq<(string, ColumnStats)>,
                          anomalies: seq<(string, AnomalyEntry)>, column: string, missing: nat, rowCount: nat)
    ensures HighMissing(column, missing, rowCount) in Insights(t, co, audit, stats, anomalies) <==>
            (column, missing) in audit.missing && rowCount == Max(t.rows, 1) && 5 * missing >= rowCount
  {
    InsightMembers(t, co, audit, stats, anomalies, HighMissing(column, missing, rowCount));
    MissingMember(RowCount(t), audit.missing, column, missing, rowCount);
  }

  lemma MissingMember(rc: nat, entries: seq<(string, nat)>, column: string, missing: nat, rowCount: nat)
    ensures HighMissing(column, missing, rowCount) in MissingInsights(rc, entries) <==>
            (column, missing) in entries && rowCount == rc > 0 && 5 * missing >= rowCount
  {
    var y := HighMissing(column, missing, rowCount);
    FilterMapIn(entries, (e: (string, nat)) => MissingRule(rc, e), y);
    ThresholdsAsComparisons(missing, rc, 0, 0, ColumnStats(0.0, 0.0, 0.0, 0.0));
    if y in MissingInsights(rc, entries) {
      var i :| 0 <= i < |entries| && MissingRule(rc, entries[i]) == Some(y);
      assert entries[i] == (column, missing);
    }
    if (column, missing) in entries && rowCount == rc > 0 && 5 * missing >= rowCount {
      var i :| 0 <= i < |entries| && entries[i] == (column, missing);
      assert MissingRule(rc, entries[i]) == Some(y);
    }
  }

  /** A variability insight reports a statistics entry's range and mean,
      exactly when the mean is positive and the range at least the mean. */
  lemma VariabilityInsightIff(t: Table, co: Coercion, audit: AuditReport, stats: seq<(string, ColumnStats)>,
                              anomalies: seq<(string, AnomalyEntry)>, column: string, spread: real, mean: real)
    ensures HighVariability(column, spread, mean) in Insights(t, co, audit, stats, anomalies) <==>
            exists s :: (column, s) in stats && s.mean > 0.0 && s.max - s.min >= s.mean
                        && spread == s.max - s.min && mean == s.mean
  {
    InsightMembers(t, co, audit, stats, anomalies, HighVariability(column, spread, mean));
    VariabilityMember(stats, column, spread, mean);
  }

  lemma VariabilityMember(stats: seq<(string, ColumnStats)>, column: string, spread: real, mean: real)
    ensures HighVariability(column, spread, mean) in VariabilityInsights(stats) <==>
            exists s :: (column, s) in stats && s.mean > 0.0 && s.max - s.min >= s.mean
                        && spread == s.max - s.min && mean == s.mean
  {
    var y := HighVariability(column, spread, mean);
    FilterMapIn(stats, VariabilityRule, y);
    forall i | 0 <= i < |stats|
      ensures VariabilityRule(stats[i]) == Some(y) <==>
              stats[i].0 == column && stats[i].1.mean > 0.0 && stats[i].1.max - stats[i].1.min >= stats[i].1.mean
              && spread == stats[i].1.max - stats[i].1.min && mean == stats[i].1.mean
    {
      ThresholdsAsComparisons(0, 0, 0, 0, stats[i].1);
    }
    if exists s :: (column, s) in stats && s.mean > 0.0 && s.max - s.min >= s.mean
                   && spread == s.max - s.min && mean == s.mean {
      var s :| (column, s) in stats && s.mean > 0.0 && s.max - s.min >= s.mean
               && spread == s.max - s.min && mean == s.mean;
      var i :| 0 <= i < |stats| && stats[i] == (column, s);
      assert VariabilityRule(stats[i]) == Some(y);
    }
  }

  /** An anomaly insight reports an anomaly entry with at least one anomaly. */
  lemma AnomalyInsightIff(t: Table, co: Coercion, audit: AuditReport, stats: seq<(string, ColumnStats)>,
                          anomalies: seq<(string, AnomalyEntry)>, column: string, count: nat, mean: real, variance: real)
    ensures AnomaliesDetected(column, count, mean, variance) in Insights(t, co, audit, stats, anomalies) <==>
            exists e :: (column, e) in anomalies && e.count == count > 0 && e.mean == mean && e.variance == variance
  {
    InsightMembers(t, co, audit, stats, anomalies, AnomaliesDetected(column, count, mean, variance));
    AnomalyMember(anomalies, column, count, mean, variance);
  }

  lemma AnomalyMember(anomalies: seq<(string, AnomalyEntry)>, column: string, count: nat, mean: real, variance: real)
    ensures AnomaliesDetected(column, count, mean, variance) in AnomalyInsights(anomalies) <==>
            exists e :: (column, e) in anomalies && e.count == count > 0 && e.mean == mean && e.variance == variance
  {
    var y := AnomaliesDetected(column, count, mean, variance);
    FilterMapIn(anomalies, AnomalyRule, y);
    if y in AnomalyInsights(anomalies) {
      var i :| 0 <= i < |anomalies| && AnomalyRule(anomalies[i]) == Some(y);
      assert anomalies[i] == (column, anomalies[i].1);
    }
    if exists e :: (column, e) in anomalies && e.count == count > 0 && e.mean == mean && e.variance == variance {
      var e :| (column, e) in anomalies && e.count == count > 0 && e.mean == mean && e.variance == variance;
      var i :| 0 <= i < |anomalies| && anomalies[i] == (column, e);
      assert AnomalyRule(anomalies[i]) == Some(y);
    }
  }

  /** The dominance rule fires on non-missing values with at most ten
      distinct strings whose mode covers at least half of them. */
  predicate Dominates(strs: seq<string>, value: string, occurrences: nat, nonNull: nat) {
    && nonNull == |strs| > 0
    && Distinct(strs) <= MaxCategories
    && Mode(strs) == Some(value)
    && occurrences == Occurrences(strs, value)
    && 2 * occurrences >= nonNull
  }

  /** A dominance insight reports a column, its mode, how often the mode
      occurs and how many values the column has, exactly when the rule
      fires on that column's values. */
  lemma DominanceInsightIff(t: Table, co: Coercion, audit: AuditReport, stats: seq<(string, ColumnStats)>,
                            anomalies: seq<(string, AnomalyEntry)>, column: string, value: string,
                            occurrences: nat, nonNull: nat)
    ensures DominantCategory(column, value, occurrences, nonNull) in Insights(t, co, audit, stats, anomalies) <==>
            exists j :: 0 <= j < |t.columns| && t.columns[j].name == column &&
                        Dominates(AsStrings(t.columns[j].cells, co), value, occurrences, nonNull)
  {
    var y := DominantCategory(column, value, occurrences, nonNull);
    InsightMembers(t, co, audit, stats, anomalies, y);
    var ls := LabelColumns(t.columns, co);
    DominanceMember(ls, y);
    assert (exists j :: 0 <= j < |ls| && ls[j].column == column && Dominates(ls[j].values, value, occurrences, nonNull)) <==>
           (exists j :: 0 <= j < |t.columns| && t.columns[j].name == column &&
                        Dominates(AsStrings(t.columns[j].cells, co), value, occurrences, nonNull));
  }

  lemma DominanceMember(labels: seq<Labels>, y: Insight)
    requires y.DominantCategory?
    ensures y in DominanceInsights(labels) <==>
            exists j :: 0 <= j < |labels| && labels[j].column == y.column &&
                        Dominates(labels[j].values, y.value, y.occurrences, y.nonNull)
  {
    FilterMapIn(labels, DominanceRule, y);
    forall j | 0 <= j < |labels|
      ensures DominanceRule(labels[j]) == Some(y) <==>
              labels[j].column == y.column && Dominates(labels[j].values, y.value, y.occurrences, y.nonNull)
    {
      DominanceRuleIff(labels[j], y);
    }
  }

  lemma DominanceRuleIff(l: Labels, y: Insight)
    requires y.DominantCategory?
    ensures DominanceRule(l) == Some(y) <==>
            l.column == y.column && Dominates(l.values, y.value, y.occurrences, y.nonNull)
  {
    ThresholdsAsComparisons(0, 0, y.occurrences, |l.values|, ColumnStats(0.0, 0.0, 0.0, 0.0));
  }
}
