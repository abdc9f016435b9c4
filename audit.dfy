/** The data-quality auditor (`build_data_audit`): missing values per column,
    rows that repeat an earlier row, and a completeness score. */
module Audit {
  import opened Seqs
  import opened Tables
  import opened Ratios

  datatype AuditReport = AuditReport(
    missing: seq<(string, nat)>,  // missing_values_per_column, in column order
    duplicates: nat,              // duplicate_rows_count
    health: real)                 // health_score, before rounding to 2 places

  /** `dataframe.isna().sum()` as a name-to-count dict. */
  function MissingPerColumn(t: Table): seq<(string, nat)> {
    Map(t.columns, (c: Column) => (c.name, NullCount(c.cells)))
  }

  /** `dataframe.shape[0] * dataframe.shape[1]`. */
  function TotalCells(t: Table): nat {
    t.rows * |t.columns|
  }

  /** `dataframe.isna().sum().sum()`. */
  function MissingCells(columns: seq<Column>): nat
    decreases |columns|
  {
    if |columns| == 0 then 0
    else MissingCells(columns[..|columns| - 1]) + NullCount(columns[|columns| - 1].cells)
  }

  /** Row `i` of a table, one cell per column. */
  function Row(t: Table, i: nat): (r: seq<Cell>)
    requires t.Valid() && i < t.rows
    ensures |r| == |t.columns|
  {
    seq(|t.columns|, (j: int) requires 0 <= j < |t.columns| => t.columns[j].cells[i])
  }

  /** Row `i` equals some earlier row, cell by cell (a missing cell equals a
      missing cell). */
  predicate RepeatsEarlierRow(t: Table, i: nat)
    requires t.Valid() && i < t.rows
  {
    exists k :: 0 <= k < i && Row(t, k) == Row(t, i)
  }

  /** How many of the first `n` rows repeat an earlier row. */
  function RepeatedRowsBefore(t: Table, n: nat): nat
    requires t.Valid() && n <= t.rows
    decreases n
  {
    if n == 0 then 0
    else RepeatedRowsBefore(t, n - 1) + (if RepeatsEarlierRow(t, n - 1) then 1 else 0)
  }

  /** `dataframe.duplicated().sum()`: `duplicated` keeps the first occurrence
      of every row and returns an empty mask for an empty frame (no rows or
      no columns). */
  function DuplicateRows(t: Table): nat
    requires t.Valid()
  {
    if t.rows == 0 || |t.columns| == 0 then 0 else RepeatedRowsBefore(t, t.rows)
  }

  /** `round(completeness * 100, 2)` before rounding, with completeness 0 for
      a table without cells. */
  function HealthScore(t: Table): real {
    var total := TotalCells(t);
    if total == 0 then 0.0
    else 100.0 * (((total - MissingCells(t.columns)) as real) / (total as real))
  }

  function BuildDataAudit(t: Table): AuditReport
    requires t.Valid()
  {
    AuditReport(MissingPerColumn(t), DuplicateRows(t), HealthScore(t))
  }

  /** The missing counts are keyed by the column names in table order, and
      each is the number of cells of that column that `dropna` removes. */
  lemma MissingValuesPerColumn(t: Table)
    requires t.Valid()
    ensures var m := BuildDataAudit(t).missing;
      && Keys(m) == t.Names()
      && forall j :: 0 <= j < |t.columns| ==>
           m[j].1 == NullCount(t.columns[j].cells) && m[j].1 + |NonNull(t.columns[j].cells)| == t.rows
  {
    forall j | 0 <= j < |t.columns| {
      NullCountSplit(t.columns[j].cells);
    }
  }

  /** A name is paired with a count exactly when a column of that name has
      that many missing cells. */
  lemma MissingEntries(t: Table, column: string, missing: nat)
    ensures (column, missing) in MissingPerColumn(t) <==>
            exists j :: 0 <= j < |t.columns| && t.columns[j].name == column && NullCount(t.columns[j].cells) == missing
  {
    var m := MissingPerColumn(t);
    if (column, missing) in m {
      var j :| 0 <= j < |m| && m[j] == (column, missing);
    }
    if exists j :: 0 <= j < |t.columns| && t.columns[j].name == column && NullCount(t.columns[j].cells) == missing {
      var j :| 0 <= j < |t.columns| && t.columns[j].name == column && NullCount(t.columns[j].cells) == missing;
      assert m[j] == (column, missing);
    }
  }

  lemma NullCountAtMost(cells: seq<Cell>)
    ensures NullCount(cells) <= |cells|
  {
    NullCountSplit(cells);
  }

  lemma {:induction false} MissingCellsBound(columns: seq<Column>, rows: nat)
    requires forall j :: 0 <= j < |columns| ==> |columns[j].cells| == rows
    ensures MissingCells(columns) <= |columns| * rows
    decreases |columns|
  {
    if |columns| > 0 {
      var n := |columns| - 1;
      MissingCellsBound(columns[..n], rows);
      NullCountAtMost(columns[n].cells);
      assert MissingCells(columns) <= n * rows + rows;
      assert |columns| * rows == n * rows + rows;
    }
  }

  /** The health score is a percentage: 0 for a table without cells, and
      otherwise 100 exactly when no cell is missing. */
  lemma HealthScoreBounds(t: Table)
    requires t.Valid()
    ensures 0.0 <= HealthScore(t) <= 100.0
    ensures TotalCells(t) == 0 ==> HealthScore(t) == 0.0
    ensures TotalCells(t) > 0 ==> (HealthScore(t) == 100.0 <==> MissingCells(t.columns) == 0)
  {
    MissingCellsBound(t.columns, t.rows);
    var total, missing := TotalCells(t), MissingCells(t.columns);
    if total > 0 {
      Percentage(total - missing, total);
    }
  }

  lemma Percentage(part: nat, whole: nat)
    requires 0 < whole && part <= whole
    ensures var p := 100.0 * ((part as real) / (whole as real));
      0.0 <= p <= 100.0 && (p == 100.0 <==> part == whole)
  {
    RatioAtLeast(part as real, whole as real, 0.0);
    RatioAtLeast(part as real, whole as real, 1.0);
  }

  lemma {:induction false} RepeatedRowsBound(t: Table, n: nat)
    requires t.Valid() && 0 < n <= t.rows
    ensures RepeatedRowsBefore(t, n) <= n - 1
    decreases n
  {
    if n > 1 {
      RepeatedRowsBound(t, n - 1);
    } else {
      assert !RepeatsEarlierRow(t, 0);
    }
  }

  /** The first row never counts as a duplicate. */
  lemma DuplicateRowsBound(t: Table)
    requires t.Valid()
    ensures DuplicateRows(t) <= Max(t.rows - 1, 0)
  {
    if t.rows > 0 && |t.columns| > 0 {
      RepeatedRowsBound(t, t.rows);
    }
  }

  /** The distinct rows among the first `n`. */
  ghost function DistinctRows(t: Table, n: nat): set<seq<Cell>>
    requires t.Valid() && n <= t.rows
  {
    set k | 0 <= k < n :: Row(t, k)
  }

  lemma {:induction false} RepeatedPlusDistinct(t: Table, n: nat)
    requires t.Valid() && n <= t.rows
    ensures RepeatedRowsBefore(t, n) + |DistinctRows(t, n)| == n
    decreases n
  {
    if n == 0 {
      assert DistinctRows(t, 0) == {};
    } else {
      RepeatedPlusDistinct(t, n - 1);
      var before := DistinctRows(t, n - 1);
      assert DistinctRows(t, n) == before + {Row(t, n - 1)};
      assert Row(t, n - 1) in before <==> RepeatsEarlierRow(t, n - 1);
    }
  }

  /** Duplicates are the rows left over once every distinct row is counted once. */
  lemma DuplicatesAreRepeats(t: Table)
    requires t.Valid() && t.rows > 0 && |t.columns| > 0
    ensures DuplicateRows(t) == t.rows - |DistinctRows(t, t.rows)|
  {
    RepeatedPlusDistinct(t, t.rows);
  }
}
