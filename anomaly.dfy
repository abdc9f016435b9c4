/** The anomaly detector (`build_anomaly_report`): per numeric column, the
    rows whose value lies strictly above the population mean plus two
    population standard deviations. */
module Anomaly {
  import opened Seqs
  import opened Tables
  import opened Stats

  /** The threshold is the mean plus this many standard deviations. */
  const SigmaMultiplier: real := 2.0

  /** One column's report. The source also reports `std_dev`, the square root
      of `variance`, and `threshold = mean + 2 * std_dev`; the model keeps the
      variance, from which both follow, and decides the flag without the
      square root. */
  datatype AnomalyEntry = AnomalyEntry(
    mean: real,
    variance: real,
    count: nat,           // anomaly_count
    indices: seq<nat>,    // anomaly_indices: row positions
    values: seq<real>)    // anomaly_values

  function Square(d: real): (s: real)
    ensures s >= 0.0
  {
    if d >= 0.0 then d * d else (-d) * (-d)
  }

  /** The sum of squared deviations from `m`. */
  function SquaredDeviations(xs: seq<real>, m: real): (s: real)
    ensures s >= 0.0
    decreases |xs|
  {
    if |xs| == 0 then 0.0
    else SquaredDeviations(xs[..|xs| - 1], m) + Square(xs[|xs| - 1] - m)
  }

  /** The population variance (`std(ddof=0)` squared: denominator n). */
  function Variance(xs: seq<real>): (v: real)
    requires |xs| > 0
    ensures v >= 0.0
  {
    SquaredDeviations(xs, Mean(xs)) / (|xs| as real)
  }

  /** `v > mean + 2 * sqrt(variance)`, stated without the square root. */
  predicate Exceeds(v: real, mean: real, variance: real) {
    v > mean && (v - mean) * (v - mean) > SigmaMultiplier * SigmaMultiplier * variance
  }

  /** One entry of `numeric_series > threshold`: a missing value is never flagged. */
  predicate Flagged(x: Option<real>, mean: real, variance: real) {
    x.Some? && Exceeds(x.value, mean, variance)
  }

  /** `anomaly_mask[anomaly_mask].index.tolist()`: the flagged row positions. */
  function FlaggedIndices(xs: seq<Option<real>>, mean: real, variance: real): (r: seq<nat>)
    ensures forall k :: 0 <= k < |r| ==> r[k] < |xs|
    decreases |xs|
  {
    if |xs| == 0 then []
    else
      var n := |xs| - 1;
      FlaggedIndices(xs[..n], mean, variance) + (if Flagged(xs[n], mean, variance) then [n] else [])
  }

  /** `numeric_series[anomaly_mask].tolist()`: the flagged values. */
  function FlaggedValues(xs: seq<Option<real>>, mean: real, variance: real): seq<real>
    decreases |xs|
  {
    if |xs| == 0 then []
    else
      var n := |xs| - 1;
      FlaggedValues(xs[..n], mean, variance) + (if Flagged(xs[n], mean, variance) then [xs[n].value] else [])
  }

  /** The entry a column contributes, if any: none when no value coerces. */
  function AnomalyFor(c: Column, co: Coercion): Option<(string, AnomalyEntry)> {
    var valid := Numbers(c.cells, co);
    if |valid| == 0 then None
    else
      var series := Coerced(c.cells, co);
      var m, v := Mean(valid), Variance(valid);
      var values := FlaggedValues(series, m, v);
      Some((c.name, AnomalyEntry(m, v, |values|, FlaggedIndices(series, m, v), values)))
  }

  /** The anomaly dict, in column order. */
  function AnomalyReport(t: Table, co: Coercion): seq<(string, AnomalyEntry)> {
    FilterMap(t.columns, (c: Column) => AnomalyFor(c, co))
  }

  /** `build_anomaly_report`: a loop over the columns that skips those without
      numbers and inserts one entry for each of the others. */
  method BuildAnomalyReport(t: Table, co: Coercion) returns (report: seq<(string, AnomalyEntry)>)
    ensures report == AnomalyReport(t, co)
  {
    report := [];
    for j := 0 to |t.columns|
      invariant report == FilterMap(t.columns[..j], (c: Column) => AnomalyFor(c, co))
    {
      FilterMapStep(t.columns, (c: Column) => AnomalyFor(c, co), j);
      var column := t.columns[j];
      var valid := Numbers(column.cells, co);
      if |valid| == 0 {
        continue;
      }
      var series := Coerced(column.cells, co);
      var mean, variance := Mean(valid), Variance(valid);
      var indices := FlaggedIndices(series, mean, variance);
      var values := FlaggedValues(series, mean, variance);
      report := report + [(column.name, AnomalyEntry(mean, variance, |values|, indices, values))];
    }
    assert t.columns[..|t.columns|] == t.columns;
  }

  /** For the standard deviation `sigma` (a non-negative square root of the
      variance), the test is `v > mean + 2 * sigma`: only the upper tail is
      flagged, and a value exactly at the threshold is not. */
  lemma ThresholdWithoutSquareRoot(v: real, mean: real, variance: real, sigma: real)
    requires sigma >= 0.0 && sigma * sigma == variance
    ensures Exceeds(v, mean, variance) <==> v > mean + SigmaMultiplier * sigma
    ensures v <= mean ==> !Exceeds(v, mean, variance)
    ensures !Exceeds(mean + SigmaMultiplier * sigma, mean, variance)
  {
    var d, b := v - mean, SigmaMultiplier * sigma;
    assert b >= 0.0 && b * b == SigmaMultiplier * SigmaMultiplier * variance;
    if d > b {
      assert d * d > b * b by {
        assert d * d - b * b == (d - b) * (d + b);
        assert d - b > 0.0 && d + b > 0.0;
      }
    }
    if d > 0.0 && d <= b {
      assert d * d <= b * b by {
        assert b * b - d * d == (b - d) * (b + d);
        assert b - d >= 0.0 && b + d > 0.0;
      }
    }
  }

  lemma {:induction false} FlaggedIndicesExact(xs: seq<Option<real>>, mean: real, variance: real)
    ensures var r := FlaggedIndices(xs, mean, variance);
      && (forall a, b :: 0 <= a < b < |r| ==> r[a] < r[b])
      && (forall i :: 0 <= i < |xs| ==> (i in r <==> Flagged(xs[i], mean, variance)))
    decreases |xs|
  {
    if |xs| > 0 {
      var n := |xs| - 1;
      FlaggedIndicesExact(xs[..n], mean, variance);
      assert forall i :: 0 <= i < n ==> xs[..n][i] == xs[i];
    }
  }

  lemma {:induction false} FlaggedValuesMatch(xs: seq<Option<real>>, mean: real, variance: real)
    ensures var r, vs := FlaggedIndices(xs, mean, variance), FlaggedValues(xs, mean, variance);
      && |vs| == |r|
      && forall k :: 0 <= k < |r| ==> xs[r[k]].Some? && vs[k] == xs[r[k]].value
    decreases |xs|
  {
    if |xs| > 0 {
      var n := |xs| - 1;
      FlaggedValuesMatch(xs[..n], mean, variance);
      var r := FlaggedIndices(xs[..n], mean, variance);
      assert forall k :: 0 <= k < |r| ==> xs[..n][r[k]] == xs[r[k]];
    }
  }

  /** What one column's entry holds: population mean and variance of its
      valid numbers, the row positions in ascending order of exactly the
      values above the threshold, those values, and their count. */
  predicate DescribesColumn(e: AnomalyEntry, c: Column, co: Coercion) {
    var cells, valid := c.cells, Numbers(c.cells, co);
    && |valid| > 0 && e.mean == Mean(valid) && e.variance == Variance(valid)
    && e.count == |e.indices| == |e.values|
    && (forall a, b :: 0 <= a < b < |e.indices| ==> e.indices[a] < e.indices[b])
    && (forall k :: 0 <= k < |e.indices| ==> e.indices[k] < |cells|)
    && (forall i :: 0 <= i < |cells| ==>
          (i in e.indices <==> Lenient(cells[i], co).Some? && Exceeds(Lenient(cells[i], co).value, e.mean, e.variance)))
    && (forall k :: 0 <= k < |e.indices| ==> Lenient(cells[e.indices[k]], co) == Some(e.values[k]))
  }

  lemma ColumnEntry(c: Column, co: Coercion, e: AnomalyEntry)
    requires AnomalyFor(c, co) == Some((c.name, e))
    ensures DescribesColumn(e, c, co)
  {
    var series := Coerced(c.cells, co);
    FlaggedIndicesExact(series, e.mean, e.variance);
    FlaggedValuesMatch(series, e.mean, e.variance);
  }

  /** Every entry describes the column it names. */
  lemma AnomalyEntries(t: Table, co: Coercion, name: string, e: AnomalyEntry)
    requires (name, e) in AnomalyReport(t, co)
    ensures exists j :: 0 <= j < |t.columns| && t.columns[j].name == name && DescribesColumn(e, t.columns[j], co)
  {
    FilterMapIn(t.columns, (c: Column) => AnomalyFor(c, co), (name, e));
    var j :| 0 <= j < |t.columns| && AnomalyFor(t.columns[j], co) == Some((name, e));
    ColumnEntry(t.columns[j], co, e);
  }

  /** The report and the statistics name the same columns in the same order:
      a column with valid numbers but no anomaly still has an entry. */
  lemma AnomalyColumnsMatchStats(t: Table, co: Coercion)
    ensures Keys(AnomalyReport(t, co)) == Keys(NumericStats(t, co))
  {
    var f, g := (c: Column) => AnomalyFor(c, co), (c: Column) => StatsEntry(c, co);
    assert forall c :: SameKey(f(c), g(c));
    FilterMapSameKeys(t.columns, f, g);
  }

  /** A column 1, 2, 3, 4, 100: mean 22 and variance 1522, so the standard
      deviation is about 39.01 and the threshold about 100.03; the value 100
      stays just below it and nothing is flagged. */
  lemma SpreadOutlierNotFlagged(co: Coercion)
    ensures AnomalyFor(Column("v", [Num(1.0), Num(2.0), Num(3.0), Num(4.0), Num(100.0)]), co)
         == Some(("v", AnomalyEntry(22.0, 1522.0, 0, [], [])))
  {
    var cells := [Num(1.0), Num(2.0), Num(3.0), Num(4.0), Num(100.0)];
    SpreadNumbers(co);
    SpreadMoments();
    SpreadFlags(Coerced(cells, co));
  }

  lemma SpreadNumbers(co: Coercion)
    ensures Numbers([Num(1.0), Num(2.0), Num(3.0), Num(4.0), Num(100.0)], co) == [1.0, 2.0, 3.0, 4.0, 100.0]
  {
    var c1 := [Num(1.0)];
    var c2 := c1 + [Num(2.0)];
    var c3 := c2 + [Num(3.0)];
    var c4 := c3 + [Num(4.0)];
    var c5 := c4 + [Num(100.0)];
    assert c2[..1] == c1 && c3[..2] == c2 && c4[..3] == c3 && c5[..4] == c4;
    assert Numbers(c1, co) == [1.0];
    assert Numbers(c2, co) == [1.0, 2.0];
    assert Numbers(c3, co) == [1.0, 2.0, 3.0];
    assert Numbers(c4, co) == [1.0, 2.0, 3.0, 4.0];
    assert c5 == [Num(1.0), Num(2.0), Num(3.0), Num(4.0), Num(100.0)];
  }

  lemma SpreadMoments()
    ensures Mean([1.0, 2.0, 3.0, 4.0, 100.0]) == 22.0
    ensures Variance([1.0, 2.0, 3.0, 4.0, 100.0]) == 1522.0
  {
    var x1 := [1.0];
    var x2 := x1 + [2.0];
    var x3 := x2 + [3.0];
    var x4 := x3 + [4.0];
    var xs := x4 + [100.0];
    assert x2[..1] == x1 && x3[..2] == x2 && x4[..3] == x3 && xs[..4] == x4;
    assert xs == [1.0, 2.0, 3.0, 4.0, 100.0];
    assert Sum(x1) == 1.0 && Sum(x2) == 3.0 && Sum(x3) == 6.0 && Sum(x4) == 10.0;
    assert Sum(xs) == 110.0;
    assert SquaredDeviations(x1, 22.0) == 441.0;
    assert SquaredDeviations(x2, 22.0) == 841.0;
    assert SquaredDeviations(x3, 22.0) == 1202.0;
    assert SquaredDeviations(x4, 22.0) == 1526.0;
    assert SquaredDeviations(xs, 22.0) == 7610.0;
  }

  lemma SpreadFlags(series: seq<Option<real>>)
    requires series == [Some(1.0), Some(2.0), Some(3.0), Some(4.0), Some(100.0)]
    ensures FlaggedValues(series, 22.0, 1522.0) == []
    ensures FlaggedIndices(series, 22.0, 1522.0) == []
  {
    var s1 := [Some(1.0)];
    var s2 := s1 + [Some(2.0)];
    var s3 := s2 + [Some(3.0)];
    var s4 := s3 + [Some(4.0)];
    assert s2[..1] == s1 && s3[..2] == s2 && s4[..3] == s3 && series[..4] == s4;
    assert !Flagged(series[4], 22.0, 1522.0);
    assert FlaggedValues(s1, 22.0, 1522.0) == [] && FlaggedIndices(s1, 22.0, 1522.0) == [];
    assert FlaggedValues(s2, 22.0, 1522.0) == [] && FlaggedIndices(s2, 22.0, 1522.0) == [];
    assert FlaggedValues(s3, 22.0, 1522.0) == [] && FlaggedIndices(s3, 22.0, 1522.0) == [];
    assert FlaggedValues(s4, 22.0, 1522.0) == [] && FlaggedIndices(s4, 22.0, 1522.0) == [];
  }
}
