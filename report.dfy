/** The orchestration layer: `analyze_dataframe`, which runs every analysis
    on one table, and `build_dashboard_config`, which condenses the result
    into a dashboard. */
module Report {
  import opened Seqs
  import opened Tables
  import opened Classifier
  import opened Audit
  import opened Stats
  import opened Anomaly
  import opened InsightRules
  import opened Charts

  /** The analysis dict. */
  datatype Analysis = Analysis(
    columnTypes: seq<(string, ColumnType)>,
    audit: AuditReport,
    stats: seq<(string, ColumnStats)>,
    anomalies: seq<(string, AnomalyEntry)>,
    insights: seq<Insight>,
    charts: seq<ChartSuggestion>)

  /** `analyze_dataframe`: the insights see the audit, statistics and anomaly
      report of the same table, and the charts see its column types. */
  function Analyze(t: Table, co: Coercion): Analysis
    requires t.Valid()
  {
    var types := ColumnTypes(t, co);
    var audit := BuildDataAudit(t);
    var stats := NumericStats(t, co);
    var anomalies := AnomalyReport(t, co);
    Analysis(types, audit, stats, anomalies, Insights(t, co, audit, stats, anomalies), Suggestions(types))
  }

  datatype DashboardMeta = DashboardMeta(rows: nat, columns: nat, generatedAt: string)

  datatype SummaryItem = SummaryItem(title: string, value: real)

  datatype AnomalyHighlight = AnomalyHighlight(column: string, count: nat)

  datatype Dashboard = Dashboard(
    meta: DashboardMeta,
    summary: seq<SummaryItem>,
    charts: seq<ChartSuggestion>,
    insights: seq<Insight>,
    anomalies: seq<AnomalyHighlight>)

  /** `sum(int(value) for value in missing_values.values())`. */
  function TotalMissing(missing: seq<(string, nat)>): nat
    decreases |missing|
  {
    if |missing| == 0 then 0 else TotalMissing(missing[..|missing| - 1]) + missing[|missing| - 1].1
  }

  function HighlightFor(entry: (string, AnomalyEntry)): Option<AnomalyHighlight> {
    if entry.1.count > 0 then Some(AnomalyHighlight(entry.0, entry.1.count)) else None
  }

  /** The anomaly highlights: the columns with at least one anomaly, in order. */
  function Highlights(anomalies: seq<(string, AnomalyEntry)>): seq<AnomalyHighlight> {
    FilterMap(anomalies, HighlightFor)
  }

  /** What `build_dashboard_config` does with the analysis of a table. */
  function Condense(t: Table, a: Analysis, generatedAt: string): Dashboard {
    Dashboard(
      DashboardMeta(t.rows, |t.columns|, generatedAt),
      [ SummaryItem("Health Score", a.audit.health),
        SummaryItem("Duplicate Rows", a.audit.duplicates as real),
        SummaryItem("Total Missing Values", TotalMissing(a.audit.missing) as real) ],
      a.charts,
      a.insights,
      Highlights(a.anomalies))
  }

  /** `build_dashboard_config`; the clock reading `generatedAt` is a parameter. */
  function BuildDashboard(t: Table, co: Coercion, generatedAt: string): Dashboard
    requires t.Valid()
  {
    Condense(t, Analyze(t, co), generatedAt)
  }

  lemma {:induction false} TotalMissingIsMissingCells(columns: seq<Column>)
    ensures TotalMissing(Map(columns, (c: Column) => (c.name, NullCount(c.cells)))) == MissingCells(columns)
    decreases |columns|
  {
    if |columns| > 0 {
      var n := |columns| - 1;
      var f := (c: Column) => (c.name, NullCount(c.cells));
      TotalMissingIsMissingCells(columns[..n]);
      MapStep(columns, f, n);
      assert columns[..n + 1] == columns;
      assert Map(columns, f)[..n] == Map(columns[..n], f);
    }
  }

  /** The dashboard describes the table's shape and the generation time, and
      its summary holds, in this order, the health score (a percentage), the
      duplicate row count and the number of missing cells in the whole
      table. */
  lemma DashboardSummary(t: Table, co: Coercion, generatedAt: string)
    requires t.Valid()
    ensures var d := BuildDashboard(t, co, generatedAt);
      && d.meta == DashboardMeta(t.rows, |t.columns|, generatedAt)
      && |d.summary| == 3
      && d.summary[0] == SummaryItem("Health Score", HealthScore(t))
      && 0.0 <= d.summary[0].value <= 100.0
      && d.summary[1] == SummaryItem("Duplicate Rows", DuplicateRows(t) as real)
      && d.summary[2] == SummaryItem("Total Missing Values", MissingCells(t.columns) as real)
  {
    var a := Analyze(t, co);
    assert a.audit == BuildDataAudit(t);
    CondensedSummary(t, a, generatedAt);
  }

  lemma CondensedSummary(t: Table, a: Analysis, generatedAt: string)
    requires t.Valid() && a.audit == BuildDataAudit(t)
    ensures var d := Condense(t, a, generatedAt);
      && d.meta == DashboardMeta(t.rows, |t.columns|, generatedAt)
      && |d.summary| == 3
      && d.summary[0] == SummaryItem("Health Score", HealthScore(t))
      && 0.0 <= d.summary[0].value <= 100.0
      && d.summary[1] == SummaryItem("Duplicate Rows", DuplicateRows(t) as real)
      && d.summary[2] == SummaryItem("Total Missing Values", MissingCells(t.columns) as real)
  {
    assert a.audit.missing == Map(t.columns, (c: Column) => (c.name, NullCount(c.cells)));
    TotalMissingIsMissingCells(t.columns);
    HealthScoreBounds(t);
  }

  /** The dashboard always has at least one chart and one insight, and they
      are the analysis's own. */
  lemma DashboardNeverEmpty(t: Table, co: Coercion, generatedAt: string)
    requires t.Valid()
    ensures var d, a := BuildDashboard(t, co, generatedAt), Analyze(t, co);
      && d.charts == a.charts && d.insights == a.insights
      && |d.charts| > 0 && |d.insights| > 0
  {
    var a := Analyze(t, co);
    SuggestionsShape(a.columnTypes);
    InsightsInOrder(t, co, a.audit, a.stats, a.anomalies);
  }

  lemma HighlightMembers(anomalies: seq<(string, AnomalyEntry)>, column: string, count: nat)
    ensures AnomalyHighlight(column, count) in Highlights(anomalies) <==>
            exists e :: (column, e) in anomalies && e.count == count > 0
  {
    var y := AnomalyHighlight(column, count);
    FilterMapIn(anomalies, HighlightFor, y);
    if y in Highlights(anomalies) {
      var i :| 0 <= i < |anomalies| && HighlightFor(anomalies[i]) == Some(y);
      assert anomalies[i] == (column, anomalies[i].1);
    }
    if exists e :: (column, e) in anomalies && e.count == count > 0 {
      var e :| (column, e) in anomalies && e.count == count > 0;
      var i :| 0 <= i < |anomalies| && anomalies[i] == (column, e);
      assert HighlightFor(anomalies[i]) == Some(y);
    }
  }

  /** A column is highlighted with a count exactly when the anomaly report
      gives it that many anomalies, at least one, and exactly when the
      insights report the same column with the same count. */
  lemma HighlightsMatchInsights(t: Table, co: Coercion, generatedAt: string, column: string, count: nat)
    requires t.Valid()
    ensures var d, a := BuildDashboard(t, co, generatedAt), Analyze(t, co);
      && (AnomalyHighlight(column, count) in d.anomalies <==>
            exists e :: (column, e) in a.anomalies && e.count == count > 0)
      && (AnomalyHighlight(column, count) in d.anomalies <==>
            exists m, v :: AnomaliesDetected(column, count, m, v) in d.insights)
  {
    var a := Analyze(t, co);
    HighlightMembers(a.anomalies, column, count);
    forall m, v {
      AnomalyInsightIff(t, co, a.audit, a.stats, a.anomalies, column, count, m, v);
    }
    if exists e :: (column, e) in a.anomalies && e.count == count > 0 {
      var e :| (column, e) in a.anomalies && e.count == count > 0;
      AnomalyInsightIff(t, co, a.audit, a.stats, a.anomalies, column, count, e.mean, e.variance);
    }
  }

  lemma ColumnTypeMembers(t: Table, co: Coercion, c: string, ty: ColumnType)
    ensures (c, ty) in ColumnTypes(t, co) <==>
            exists j :: 0 <= j < |t.columns| && t.columns[j].name == c && DetectColumnType(t.columns[j].cells, co) == ty
  {
    var types := ColumnTypes(t, co);
    if (c, ty) in types {
      var j :| 0 <= j < |types| && types[j] == (c, ty);
    }
    if exists j :: 0 <= j < |t.columns| && t.columns[j].name == c && DetectColumnType(t.columns[j].cells, co) == ty {
      var j :| 0 <= j < |t.columns| && t.columns[j].name == c && DetectColumnType(t.columns[j].cells, co) == ty;
      assert types[j] == (c, ty);
    }
  }

  /** The analysis recommends a bar chart for exactly the columns detected as
      categorical, a histogram for the numeric ones, a line chart for the
      date ones and a pie or grouped bar chart for every categorical and
      numeric pair. */
  lemma ChartsFollowTypes(t: Table, co: Coercion, c: string, n: string)
    requires t.Valid()
    ensures var charts := Analyze(t, co).charts;
      && (BarFor(c) in charts <==> exists j :: 0 <= j < |t.columns| && t.columns[j].name == c
                                            && DetectColumnType(t.columns[j].cells, co) == Categorical)
      && (HistogramFor(c) in charts <==> exists j :: 0 <= j < |t.columns| && t.columns[j].name == c
                                                  && DetectColumnType(t.columns[j].cells, co) == Numeric)
      && (LineFor(c) in charts <==> exists j :: 0 <= j < |t.columns| && t.columns[j].name == c
                                             && DetectColumnType(t.columns[j].cells, co) == Date)
      && (PairFor(c, n) in charts <==> (c, Categorical) in ColumnTypes(t, co) && (n, Numeric) in ColumnTypes(t, co))
  {
    var types := ColumnTypes(t, co);
    assert Analyze(t, co).charts == Suggestions(types);
    BarIff(types, c);
    HistogramIff(types, c);
    LineIff(types, c);
    PairIff(types, c, n);
    ColumnTypeMembers(t, co, c, Categorical);
    ColumnTypeMembers(t, co, c, Numeric);
    ColumnTypeMembers(t, co, c, Date);
  }

  /** On the analysis, a missing-data insight names a column whose null count
      is at least a fifth of the row count (or of 1 for an empty table). */
  lemma MissingInsightsOfTable(t: Table, co: Coercion, c: string, missing: nat, rowCount: nat)
    requires t.Valid()
    ensures HighMissing(c, missing, rowCount) in Analyze(t, co).insights <==>
            exists j :: 0 <= j < |t.columns| && t.columns[j].name == c && NullCount(t.columns[j].cells) == missing
                        && rowCount == Max(t.rows, 1) && 5 * missing >= rowCount
  {
    var a := Analyze(t, co);
    MissingInsightIff(t, co, a.audit, a.stats, a.anomalies, c, missing, rowCount);
    assert a.audit.missing == MissingPerColumn(t);
    MissingEntries(t, c, missing);
  }

  /** Statistics with a positive mean and a range at least that mean, which
      are `spread` and `mean`. */
  predicate WideSummary(s: ColumnStats, spread: real, mean: real) {
    s.mean > 0.0 && s.max - s.min >= s.mean && spread == s.max - s.min && mean == s.mean
  }

  /** A column's valid numbers have a positive mean and a range at least
      that mean. */
  predicate WideSpread(xs: seq<real>, spread: real, mean: real) {
    |xs| > 0 && mean == Mean(xs) > 0.0 && spread == Maximum(xs) - Minimum(xs) && spread >= mean
  }

  /** On the analysis, a variability insight names a column with valid
      numbers whose mean is positive and whose range is at least its mean. */
  lemma VariabilityInsightsOfTable(t: Table, co: Coercion, c: string, spread: real, mean: real)
    requires t.Valid()
    ensures HighVariability(c, spread, mean) in Analyze(t, co).insights <==>
            exists j :: 0 <= j < |t.columns| && t.columns[j].name == c && WideSpread(Numbers(t.columns[j].cells, co), spread, mean)
  {
    var a := Analyze(t, co);
    VariabilityInsightIff(t, co, a.audit, a.stats, a.anomalies, c, spread, mean);
    assert a.stats == NumericStats(t, co);
    WideSpreadEntries(t, co, c, spread, mean);
  }

  lemma WideSpreadEntries(t: Table, co: Coercion, c: string, spread: real, mean: real)
    ensures (exists s :: (c, s) in NumericStats(t, co) && WideSummary(s, spread, mean)) <==>
            exists j :: 0 <= j < |t.columns| && t.columns[j].name == c && WideSpread(Numbers(t.columns[j].cells, co), spread, mean)
  {
    if exists s :: (c, s) in NumericStats(t, co) && WideSummary(s, spread, mean) {
      var s :| (c, s) in NumericStats(t, co) && WideSummary(s, spread, mean);
      WideSpreadColumn(t, co, c, s, spread, mean);
    }
    if exists j :: 0 <= j < |t.columns| && t.columns[j].name == c && WideSpread(Numbers(t.columns[j].cells, co), spread, mean) {
      var j :| 0 <= j < |t.columns| && t.columns[j].name == c && WideSpread(Numbers(t.columns[j].cells, co), spread, mean);
      WideSpreadEntry(t, co, j, spread, mean);
    }
  }

  lemma WideSpreadColumn(t: Table, co: Coercion, c: string, s: ColumnStats, spread: real, mean: real)
    requires (c, s) in NumericStats(t, co) && WideSummary(s, spread, mean)
    ensures exists j :: 0 <= j < |t.columns| && t.columns[j].name == c && WideSpread(Numbers(t.columns[j].cells, co), spread, mean)
  {
    StatsMembers(t, co, c, s);
    var j :| 0 <= j < |t.columns| && t.columns[j].name == c &&
             |Numbers(t.columns[j].cells, co)| > 0 && s == ColumnSummary(t.columns[j], co);
    assert WideSpread(Numbers(t.columns[j].cells, co), spread, mean);
  }

  lemma WideSpreadEntry(t: Table, co: Coercion, j: nat, spread: real, mean: real)
    requires j < |t.columns| && WideSpread(Numbers(t.columns[j].cells, co), spread, mean)
    ensures exists s :: (t.columns[j].name, s) in NumericStats(t, co) && WideSummary(s, spread, mean)
  {
    var s := ColumnSummary(t.columns[j], co);
    StatsMembers(t, co, t.columns[j].name, s);
    assert (t.columns[j].name, s) in NumericStats(t, co);
  }
}
