/** The numeric statistics builder (`build_numeric_stats`): mean, minimum,
    maximum and total of every column that has at least one value
    `pd.to_numeric(errors="coerce")` accepts. */
module Stats {
  import opened Seqs
  import opened Tables

  /** One column's statistics, on exact reals (the source rounds each to four
      places). */
  datatype ColumnStats = ColumnStats(mean: real, min: real, max: real, total: real)

  function Sum(xs: seq<real>): real
    decreases |xs|
  {
    if |xs| == 0 then 0.0 else Sum(xs[..|xs| - 1]) + xs[|xs| - 1]
  }

  /** `series.min()`. */
  function Minimum(xs: seq<real>): real
    requires |xs| > 0
    decreases |xs|
  {
    var n := |xs| - 1;
    if n == 0 then xs[0]
    else
      var rest := Minimum(xs[..n]);
      if xs[n] < rest then xs[n] else rest
  }

  /** `series.max()`. */
  function Maximum(xs: seq<real>): real
    requires |xs| > 0
    decreases |xs|
  {
    var n := |xs| - 1;
    if n == 0 then xs[0]
    else
      var rest := Maximum(xs[..n]);
      if xs[n] > rest then xs[n] else rest
  }

  /** The minimum is one of the values and no value is smaller. */
  lemma {:induction false} MinimumIsLeast(xs: seq<real>)
    requires |xs| > 0
    ensures Minimum(xs) in xs
    ensures forall i :: 0 <= i < |xs| ==> Minimum(xs) <= xs[i]
    decreases |xs|
  {
    var n := |xs| - 1;
    if n > 0 {
      MinimumIsLeast(xs[..n]);
      assert forall i :: 0 <= i < n ==> xs[..n][i] == xs[i];
      assert Minimum(xs[..n]) in xs[..n];
    }
  }

  /** The maximum is one of the values and no value is larger. */
  lemma {:induction false} MaximumIsGreatest(xs: seq<real>)
    requires |xs| > 0
    ensures Maximum(xs) in xs
    ensures forall i :: 0 <= i < |xs| ==> xs[i] <= Maximum(xs)
    decreases |xs|
  {
    var n := |xs| - 1;
    if n > 0 {
      MaximumIsGreatest(xs[..n]);
      assert forall i :: 0 <= i < n ==> xs[..n][i] == xs[i];
      assert Maximum(xs[..n]) in xs[..n];
    }
  }

  /** The arithmetic mean (`series.mean()`). */
  function Mean(xs: seq<real>): real
    requires |xs| > 0
  {
    Sum(xs) / (|xs| as real)
  }

  const Int64Modulus: int := 0x1_0000_0000_0000_0000
  const Int64Min: int := -0x8000_0000_0000_0000

  /** numpy's int64 arithmetic: `k` reduced modulo 2^64 into
      -2^63 .. 2^63 - 1 (two's complement), with no overflow error. */
  function Int64Wrap(k: int): (w: int)
    ensures Int64Min <= w < Int64Min + Int64Modulus
    ensures (w - k) % Int64Modulus == 0
    ensures Int64Min <= k < Int64Min + Int64Modulus ==> w == k
  {
    (k - Int64Min) % Int64Modulus + Int64Min
  }

  /** numpy's uint64 arithmetic: `k` reduced modulo 2^64 into 0 .. 2^64 - 1. */
  function UInt64Wrap(k: int): (w: int)
    ensures 0 <= w < Int64Modulus
    ensures (w - k) % Int64Modulus == 0
    ensures 0 <= k < Int64Modulus ==> w == k
  {
    k % Int64Modulus
  }

  /** Every cell an integer: a blank would have made the column float64. */
  predicate IntegerColumn(cells: seq<Cell>) {
    forall i :: 0 <= i < |cells| ==> cells[i].Int?
  }

  /** A column of read_csv's int64 dtype: integers that all fit in int64.
      `pd.to_numeric` leaves such a column int64. */
  predicate Int64Column(cells: seq<Cell>) {
    forall i :: 0 <= i < |cells| ==> cells[i].Int? && Int64Min <= cells[i].whole < Int64Min + Int64Modulus
  }

  /** A column of read_csv's uint64 dtype: integers, none negative, all below
      2^64, and not all within int64. Integers that fit neither type are read
      as strings. */
  predicate UInt64Column(cells: seq<Cell>) {
    && !Int64Column(cells)
    && forall i :: 0 <= i < |cells| ==> cells[i].Int? && 0 <= cells[i].whole < Int64Modulus
  }

  /** The mathematical sum of an integer column. */
  function IntSum(cells: seq<Cell>): int
    requires IntegerColumn(cells)
    decreases |cells|
  {
    if |cells| == 0 then 0 else IntSum(cells[..|cells| - 1]) + cells[|cells| - 1].whole
  }

  /** `series.sum()` of a column's valid numbers. pandas computes the mean of
      an int64 or uint64 column in float64, so only the sum is 64-bit integer
      arithmetic: it wraps past 2^63 - 1 on int64 and past 2^64 - 1 on uint64. */
  function Total(cells: seq<Cell>, co: Coercion): real {
    if Int64Column(cells) then Int64Wrap(IntSum(cells)) as real
    else if UInt64Column(cells) then UInt64Wrap(IntSum(cells)) as real
    else Sum(Numbers(cells, co))
  }

  /** A column's statistics. */
  function ColumnSummary(c: Column, co: Coercion): ColumnStats
    requires |Numbers(c.cells, co)| > 0
  {
    var xs := Numbers(c.cells, co);
    ColumnStats(Mean(xs), Minimum(xs), Maximum(xs), Total(c.cells, co))
  }

  /** The entry a column contributes, if any: none when no value coerces. */
  function StatsEntry(c: Column, co: Coercion): Option<(string, ColumnStats)> {
    var xs := Numbers(c.cells, co);
    if |xs| == 0 then None else Some((c.name, ColumnSummary(c, co)))
  }

  /** The statistics dict, in column order. */
  function NumericStats(t: Table, co: Coercion): seq<(string, ColumnStats)> {
    FilterMap(t.columns, (c: Column) => StatsEntry(c, co))
  }

  /** `build_numeric_stats`: a loop over the columns that skips those without
      numbers and inserts one entry for each of the others. */
  method BuildNumericStats(t: Table, co: Coercion) returns (stats: seq<(string, ColumnStats)>)
    ensures stats == NumericStats(t, co)
  {
    stats := [];
    for j := 0 to |t.columns|
      invariant stats == FilterMap(t.columns[..j], (c: Column) => StatsEntry(c, co))
    {
      FilterMapStep(t.columns, (c: Column) => StatsEntry(c, co), j);
      var numbers := Numbers(t.columns[j].cells, co);
      if |numbers| == 0 {
        continue;
      }
      stats := stats + [(t.columns[j].name, ColumnSummary(t.columns[j], co))];
    }
    assert t.columns[..|t.columns|] == t.columns;
  }

  lemma {:induction false} SumBounds(xs: seq<real>, lo: real, hi: real)
    requires forall i :: 0 <= i < |xs| ==> lo <= xs[i] <= hi
    ensures (|xs| as real) * lo <= Sum(xs) <= (|xs| as real) * hi
    decreases |xs|
  {
    if |xs| > 0 {
      var n := |xs| - 1;
      assert forall i :: 0 <= i < n ==> xs[..n][i] == xs[i];
      SumBounds(xs[..n], lo, hi);
      assert (|xs| as real) * lo == (n as real) * lo + lo;
      assert (|xs| as real) * hi == (n as real) * hi + hi;
    }
  }

  /** The mean lies between the minimum and the maximum. */
  lemma MeanWithinRange(xs: seq<real>)
    requires |xs| > 0
    ensures Minimum(xs) <= Mean(xs) <= Maximum(xs)
  {
    var lo, hi := Minimum(xs), Maximum(xs);
    MinimumIsLeast(xs);
    MaximumIsGreatest(xs);
    SumBounds(xs, lo, hi);
    MeanBetween(xs, lo, hi);
  }

  lemma MeanBetween(xs: seq<real>, lo: real, hi: real)
    requires |xs| > 0
    requires (|xs| as real) * lo <= Sum(xs) <= (|xs| as real) * hi
    ensures lo <= Mean(xs) <= hi
  {
    QuotientBetween(Sum(xs), |xs| as real, lo, hi);
  }

  lemma QuotientBetween(sum: real, n: real, lo: real, hi: real)
    requires n > 0.0 && n * lo <= sum <= n * hi
    ensures lo <= sum / n <= hi
  {
    assert (sum / n) * n == sum;
  }

  /** The statistics name exactly the columns that have a cell
      `pd.to_numeric` accepts; a column without one is left out rather than
      given placeholder values. */
  lemma StatsColumns(t: Table, co: Coercion, name: string)
    ensures (exists s :: (name, s) in NumericStats(t, co)) <==>
            exists j, i :: 0 <= j < |t.columns| && t.columns[j].name == name &&
                           0 <= i < |t.columns[j].cells| && Lenient(t.columns[j].cells[i], co).Some?
  {
    StatsNames(t, co, name);
    forall j | 0 <= j < |t.columns| {
      NumbersNonEmptyIff(t.columns[j].cells, co);
    }
  }

  lemma StatsNames(t: Table, co: Coercion, name: string)
    ensures (exists s :: (name, s) in NumericStats(t, co)) <==>
            exists j :: 0 <= j < |t.columns| && t.columns[j].name == name && |Numbers(t.columns[j].cells, co)| > 0
  {
    if exists s :: (name, s) in NumericStats(t, co) {
      var s :| (name, s) in NumericStats(t, co);
      StatsMembers(t, co, name, s);
    }
    if exists j :: 0 <= j < |t.columns| && t.columns[j].name == name && |Numbers(t.columns[j].cells, co)| > 0 {
      var j :| 0 <= j < |t.columns| && t.columns[j].name == name && |Numbers(t.columns[j].cells, co)| > 0;
      StatsMembers(t, co, name, ColumnSummary(t.columns[j], co));
    }
  }

  /** Every entry summarises the valid numbers of the column it names, and
      its minimum, mean and maximum are in order. */
  lemma StatsEntries(t: Table, co: Coercion, name: string, s: ColumnStats)
    requires (name, s) in NumericStats(t, co)
    ensures exists j :: 0 <= j < |t.columns| && t.columns[j].name == name &&
                        |Numbers(t.columns[j].cells, co)| > 0 && s == ColumnSummary(t.columns[j], co)
    ensures s.min <= s.mean <= s.max
  {
    FilterMapIn(t.columns, (c: Column) => StatsEntry(c, co), (name, s));
    var j :| 0 <= j < |t.columns| && StatsEntry(t.columns[j], co) == Some((name, s));
    MeanWithinRange(Numbers(t.columns[j].cells, co));
  }

  /** Conversely, every column with valid numbers has its summary in the
      statistics. */
  lemma StatsMembers(t: Table, co: Coercion, name: string, s: ColumnStats)
    ensures (name, s) in NumericStats(t, co) <==>
            exists j :: 0 <= j < |t.columns| && t.columns[j].name == name &&
                        |Numbers(t.columns[j].cells, co)| > 0 && s == ColumnSummary(t.columns[j], co)
  {
    var f := (c: Column) => StatsEntry(c, co);
    FilterMapIn(t.columns, f, (name, s));
  }

  lemma SumSnoc(xs: seq<real>, x: real)
    ensures Sum(xs + [x]) == Sum(xs) + x
  {
    assert (xs + [x])[..|xs|] == xs;
  }

  /** On an int64 column the valid numbers are its integers, so their exact
      sum is the integer sum. */
  lemma {:induction false} IntSumIsSum(cells: seq<Cell>, co: Coercion)
    requires IntegerColumn(cells)
    ensures Sum(Numbers(cells, co)) == IntSum(cells) as real
    decreases |cells|
  {
    if |cells| > 0 {
      var n := |cells| - 1;
      assert IntegerColumn(cells[..n]) by {
        assert forall i :: 0 <= i < n ==> cells[..n][i] == cells[i];
      }
      IntSumIsSum(cells[..n], co);
      assert Lenient(cells[n], co).ToSeq() == [cells[n].whole as real];
      assert Numbers(cells, co) == Numbers(cells[..n], co) + [cells[n].whole as real];
      SumSnoc(Numbers(cells[..n], co), cells[n].whole as real);
    }
  }

  /** The total of an entry: the exact sum for a float64 or object column;
      for an int64 or uint64 column the 64-bit sum, which equals the exact sum
      exactly when that fits the type and otherwise differs from it by a
      multiple of 2^64. Mean, minimum and maximum are never wrapped. */
  lemma ColumnTotal(c: Column, co: Coercion)
    requires |Numbers(c.cells, co)| > 0
    ensures var s, xs := ColumnSummary(c, co), Numbers(c.cells, co);
      && s.mean == Mean(xs) && s.min == Minimum(xs) && s.max == Maximum(xs)
      && (!Int64Column(c.cells) && !UInt64Column(c.cells) ==> s.total == Sum(xs))
      && (Int64Column(c.cells) ==>
            && (s.total == Sum(xs) <==> Int64Min <= IntSum(c.cells) < Int64Min + Int64Modulus)
            && Int64Min as real <= s.total < (Int64Min + Int64Modulus) as real
            && (s.total.Floor - IntSum(c.cells)) % Int64Modulus == 0)
      && (UInt64Column(c.cells) ==>
            && (s.total == Sum(xs) <==> IntSum(c.cells) < Int64Modulus)
            && 0.0 <= s.total < Int64Modulus as real
            && (s.total.Floor - IntSum(c.cells)) % Int64Modulus == 0)
  {
    if Int64Column(c.cells) {
      IntSumIsSum(c.cells, co);
    } else if UInt64Column(c.cells) {
      IntSumIsSum(c.cells, co);
      IntSumNonNegative(c.cells);
    }
  }

  lemma {:induction false} IntSumNonNegative(cells: seq<Cell>)
    requires forall i :: 0 <= i < |cells| ==> cells[i].Int? && 0 <= cells[i].whole
    ensures IntSum(cells) >= 0
    decreases |cells|
  {
    if |cells| > 0 {
      var n := |cells| - 1;
      assert forall i :: 0 <= i < n ==> cells[..n][i] == cells[i];
      IntSumNonNegative(cells[..n]);
    }
  }

  /** Two int64 values of 5 * 10^18: the mean, minimum and maximum are
      5 * 10^18, but the total wraps to 10^19 - 2^64. */
  lemma TotalWrapsPastInt64(co: Coercion)
    ensures StatsEntry(Column("id", [Int(5_000_000_000_000_000_000), Int(5_000_000_000_000_000_000)]), co)
         == Some(("id", ColumnStats(5_000_000_000_000_000_000.0, 5_000_000_000_000_000_000.0,
                                    5_000_000_000_000_000_000.0, -8_446_744_073_709_551_616.0)))
  {
    var big := 5_000_000_000_000_000_000;
    var cells := [Int(big), Int(big)];
    assert cells[..1] == [Int(big)];
    assert Numbers(cells[..1], co) == [big as real];
    assert Numbers(cells, co) == [big as real, big as real];
    assert [big as real, big as real][..1] == [big as real];
    assert IntSum(cells[..1]) == big;
    assert IntSum(cells) == 10_000_000_000_000_000_000;
    var xs := [big as real, big as real];
    assert xs[..1] == [big as real];
    assert Sum(xs[..1]) == big as real by {
      assert xs[..1][..0] == [];
    }
    assert Sum(xs) == 10_000_000_000_000_000_000.0;
    assert Minimum(xs) == big as real && Maximum(xs) == big as real;
    assert Int64Wrap(IntSum(cells)) == -8_446_744_073_709_551_616;
  }

  /** One uint64 value of 10^19 (above 2^63 - 1): its total is 10^19, with no
      sign wrap. Two of them make 2 * 10^19, which wraps modulo 2^64 to
      2 * 10^19 - 2^64. */
  lemma UInt64Totals(co: Coercion)
    ensures StatsEntry(Column("id", [Int(10_000_000_000_000_000_000)]), co)
         == Some(("id", ColumnStats(10_000_000_000_000_000_000.0, 10_000_000_000_000_000_000.0,
                                    10_000_000_000_000_000_000.0, 10_000_000_000_000_000_000.0)))
    ensures StatsEntry(Column("id", [Int(10_000_000_000_000_000_000), Int(10_000_000_000_000_000_000)]), co).value.1.total
         == 1_553_255_926_290_448_384.0
  {
    var big := 10_000_000_000_000_000_000;
    var one, two := [Int(big)], [Int(big), Int(big)];
    assert one[..0] == [] && two[..1] == one;
    assert Numbers(one, co) == [big as real];
    assert Numbers(two, co) == [big as real, big as real];
    assert !Int64Column(one) by { assert !(one[0].whole < Int64Min + Int64Modulus); }
    assert !Int64Column(two) by { assert !(two[0].whole < Int64Min + Int64Modulus); }
    assert UInt64Column(one) && UInt64Column(two);
    assert IntSum(one) == big;
    assert IntSum(two) == 2 * big;
    var xs := [big as real];
    assert xs[..0] == [];
    assert Sum(xs) == big as real;
    assert Minimum(xs) == big as real && Maximum(xs) == big as real;
    assert UInt64Wrap(IntSum(two)) == 1_553_255_926_290_448_384;
  }
}
