/** The column type classifier (`detect_column_type`): a chain of rules tried
    in a fixed order, the first that holds deciding the type. */
module Classifier {
  import opened Seqs
  import opened Tables
  import opened Ratios

  datatype ColumnType = Numeric | Date | Categorical | Text

  /** Share of values that must parse for the date and the number rule. */
  const ParseShare: real := 0.8
  /** Share of the values that sets the categorical cap, before clamping. */
  const CategoricalShare: real := 0.2
  const CategoricalCapFloor: nat := 2
  const CategoricalCapCeiling: nat := 50
  /** Largest mean string length of a categorical column. */
  const MaxMeanLength: nat := 40

  /** How many of `xs` satisfy `p` (`parsed.notna().sum()`). */
  function CountWhere(xs: seq<string>, p: string -> bool): (n: nat)
    ensures n <= |xs|
    decreases |xs|
  {
    if |xs| == 0 then 0
    else CountWhere(xs[..|xs| - 1], p) + (if p(xs[|xs| - 1]) then 1 else 0)
  }

  /** `as_str.str.len().sum()`. */
  function TotalLength(xs: seq<string>): nat
    decreases |xs|
  {
    if |xs| == 0 then 0 else TotalLength(xs[..|xs| - 1]) + |xs[|xs| - 1]|
  }

  /** `is_numeric_dtype` of the non-missing cells: read_csv gives a column a
      numeric dtype exactly when all its values are numbers. */
  predicate AllNumbers(clean: seq<Cell>) {
    forall i :: 0 <= i < |clean| ==> clean[i].IsNumber()
  }

  /** `parsed.notna().mean() >= 0.8`. */
  predicate ShareReached(hits: nat, total: nat) {
    total > 0 && (hits as real) / (total as real) >= ParseShare
  }

  predicate DateShareReached(strs: seq<string>, co: Coercion) {
    ShareReached(CountWhere(strs, co.parsesAsDate), |strs|)
  }

  predicate NumberShareReached(strs: seq<string>, co: Coercion) {
    ShareReached(CountWhere(strs, (s: string) => co.parseNumber(s).Some?), |strs|)
  }

  /** `min(50, max(2, int(total_count * 0.2)))`; `int` truncates toward zero. */
  function CategoricalCap(total: nat): (cap: nat)
    ensures CategoricalCapFloor <= cap <= CategoricalCapCeiling
  {
    Min(CategoricalCapCeiling, Max(CategoricalCapFloor, ((total as real) * CategoricalShare).Floor))
  }

  /** Few distinct values and short strings on average. */
  predicate LooksCategorical(strs: seq<string>) {
    && Distinct(strs) <= CategoricalCap(|strs|)
    && |strs| > 0
    && (TotalLength(strs) as real) / (|strs| as real) <= MaxMeanLength as real
  }

  /** `detect_column_type`. The branch for a native datetime dtype is not
      modelled: read_csv, as the engine calls it, never produces one. */
  function DetectColumnType(cells: seq<Cell>, co: Coercion): ColumnType {
    var clean := NonNull(cells);
    if |clean| == 0 then Text
    else if AllNumbers(clean) then Numeric
    else
      var strs := AsStrings(cells, co);
      if DateShareReached(strs, co) then Date
      else if NumberShareReached(strs, co) then Numeric
      else if LooksCategorical(strs) then Categorical
      else Text
  }

  /** The column type map, keyed by column name in table order
      (`{column: detect_column_type(dataframe[column]) for column in dataframe.columns}`). */
  function ColumnTypes(t: Table, co: Coercion): (types: seq<(string, ColumnType)>)
    ensures Keys(types) == t.Names()
    ensures forall j :: 0 <= j < |t.columns| ==> types[j].1 == DetectColumnType(t.columns[j].cells, co)
  {
    Map(t.columns, (c: Column) => (c.name, DetectColumnType(c.cells, co)))
  }

  /** The rules are tried in order and the first that holds wins: in
      particular the date rule beats the number rule when both shares are
      reached, and a natively numeric column is numeric whatever its strings
      would parse as. */
  lemma RuleOrder(cells: seq<Cell>, co: Coercion)
    ensures var clean, strs, r := NonNull(cells), AsStrings(cells, co), DetectColumnType(cells, co);
      && (r == Date <==> |clean| > 0 && !AllNumbers(clean) && DateShareReached(strs, co))
      && (r == Numeric <==> |clean| > 0 && (AllNumbers(clean) || (!DateShareReached(strs, co) && NumberShareReached(strs, co))))
      && (r == Categorical <==> |clean| > 0 && !AllNumbers(clean) && !DateShareReached(strs, co)
                                && !NumberShareReached(strs, co) && LooksCategorical(strs))
      && (r == Text <==> |clean| == 0 || (!AllNumbers(clean) && !DateShareReached(strs, co)
                                && !NumberShareReached(strs, co) && !LooksCategorical(strs)))
  {
  }

  /** A column whose every cell is missing is text. */
  lemma AllMissingIsText(cells: seq<Cell>, co: Coercion)
    requires forall i :: 0 <= i < |cells| ==> cells[i].Null?
    ensures DetectColumnType(cells, co) == Text
  {
    NonNullEmptyIff(cells);
  }

  /** Missing cells play no part in the decision: it is made on `dropna()`. */
  lemma MissingCellsIgnored(cells: seq<Cell>, co: Coercion)
    ensures DetectColumnType(cells, co) == DetectColumnType(NonNull(cells), co)
  {
    NonNullIdempotent(cells);
    SameValuesSameType(cells, NonNull(cells), co);
  }

  lemma SameValuesSameType(a: seq<Cell>, b: seq<Cell>, co: Coercion)
    requires NonNull(a) == NonNull(b)
    ensures DetectColumnType(a, co) == DetectColumnType(b, co)
  {
    assert AsStrings(a, co) == AsStrings(b, co);
  }

  /** A column with at least one value, all of them numbers, is numeric. */
  lemma NativeNumbersAreNumeric(cells: seq<Cell>, co: Coercion)
    requires exists i :: 0 <= i < |cells| && !cells[i].Null?
    requires forall i :: 0 <= i < |cells| ==> cells[i].Null? || cells[i].IsNumber()
    ensures DetectColumnType(cells, co) == Numeric
  {
    NonNullEmptyIff(cells);
    OnlyNumbersSurvive(cells);
  }

  lemma {:induction false} OnlyNumbersSurvive(cells: seq<Cell>)
    requires forall i :: 0 <= i < |cells| ==> cells[i].Null? || cells[i].IsNumber()
    ensures AllNumbers(NonNull(cells))
    decreases |cells|
  {
    if |cells| > 0 {
      var n := |cells| - 1;
      assert forall i :: 0 <= i < n ==> cells[..n][i] == cells[i];
      OnlyNumbersSurvive(cells[..n]);
    }
  }

  /** The cap is `total / 5` clamped to [2, 50]: truncating `total * 0.2` is
      floor division by five. */
  lemma CategoricalCapIsFloorDivision(total: nat)
    ensures CategoricalCap(total) == Min(CategoricalCapCeiling, Max(CategoricalCapFloor, total / 5))
  {
    var q := total / 5;
    var x := (total as real) * CategoricalShare;
    assert x == (total as real) / 5.0;
    assert total == 5 * q + total % 5;
    assert (q as real) <= x < (q as real) + 1.0;
  }

  /** The fractional thresholds are integer comparisons in disguise. */
  lemma ThresholdsAsIntegers(hits: nat, lengths: nat, total: nat)
    requires total > 0
    ensures ShareReached(hits, total) <==> 5 * hits >= 4 * total
    ensures (lengths as real) / (total as real) <= MaxMeanLength as real <==> lengths <= MaxMeanLength * total
  {
    RatioAtLeast(hits as real, total as real, ParseShare);
    RatioAtLeast(lengths as real, total as real, MaxMeanLength as real);
  }

  /** Past the date and number rules, a column is categorical exactly when
      its distinct count is within `min(50, max(2, T / 5))` and its total
      string length within `40 * T`, for T non-missing values; otherwise it
      is text. */
  lemma CategoricalIff(cells: seq<Cell>, co: Coercion)
    requires |NonNull(cells)| > 0 && !AllNumbers(NonNull(cells))
    requires !DateShareReached(AsStrings(cells, co), co) && !NumberShareReached(AsStrings(cells, co), co)
    ensures var strs, total := AsStrings(cells, co), |NonNull(cells)|;
      && (DetectColumnType(cells, co) == Categorical <==>
            Distinct(strs) <= Min(CategoricalCapCeiling, Max(CategoricalCapFloor, total / 5))
            && TotalLength(strs) <= MaxMeanLength * total)
      && (DetectColumnType(cells, co) != Categorical ==> DetectColumnType(cells, co) == Text)
  {
    var strs := AsStrings(cells, co);
    CategoricalCapIsFloorDivision(|strs|);
    ThresholdsAsIntegers(0, TotalLength(strs), |strs|);
  }

  /** One or two short values that parse neither as dates nor as numbers
      always make a categorical column: the cap is never below two. */
  lemma FewShortValuesAreCategorical(cells: seq<Cell>, co: Coercion)
    requires 0 < |NonNull(cells)| <= 2 && !AllNumbers(NonNull(cells))
    requires !DateShareReached(AsStrings(cells, co), co) && !NumberShareReached(AsStrings(cells, co), co)
    requires TotalLength(AsStrings(cells, co)) <= MaxMeanLength * |NonNull(cells)|
    ensures DetectColumnType(cells, co) == Categorical
  {
    var strs := AsStrings(cells, co);
    DistinctAtMostLength(strs);
    ThresholdsAsIntegers(0, TotalLength(strs), |strs|);
  }

  lemma {:induction false} CountWhereNone(xs: seq<string>, p: string -> bool)
    requires forall i :: 0 <= i < |xs| ==> !p(xs[i])
    ensures CountWhere(xs, p) == 0
    decreases |xs|
  {
    if |xs| > 0 {
      var n := |xs| - 1;
      assert forall i :: 0 <= i < n ==> xs[..n][i] == xs[i];
      CountWhereNone(xs[..n], p);
    }
  }

  /** Four values with three distinct ones that parse neither as dates nor as
      numbers make a text column, not a categorical one: the cap for four
      values is two. */
  lemma ThreeDistinctOfFourIsText(co: Coercion)
    requires forall s :: s in ["x", "y", "z"] ==> !co.parsesAsDate(s) && co.parseNumber(s).None?
    ensures DetectColumnType([Str("x"), Str("x"), Str("y"), Str("z")], co) == Text
  {
    var cells := [Str("x"), Str("x"), Str("y"), Str("z")];
    var strs := ["x", "x", "y", "z"];
    ScenarioStrings(co);
    CountWhereNone(strs, co.parsesAsDate);
    CountWhereNone(strs, (s: string) => co.parseNumber(s).Some?);
    ScenarioDistinct();
    assert !AllNumbers(NonNull(cells)) by {
      assert !NonNull(cells)[0].IsNumber();
    }
    CategoricalIff(cells, co);
  }

  lemma ScenarioStrings(co: Coercion)
    ensures NonNull([Str("x"), Str("x"), Str("y"), Str("z")]) == [Str("x"), Str("x"), Str("y"), Str("z")]
    ensures AsStrings([Str("x"), Str("x"), Str("y"), Str("z")], co) == ["x", "x", "y", "z"]
  {
    ScenarioNonNull();
    var cells := [Str("x"), Str("x"), Str("y"), Str("z")];
    var f := (c: Cell) => Stringify(c, co);
    var m := Map(cells, f);
    assert m == ["x", "x", "y", "z"];
  }

  lemma ScenarioNonNull()
    ensures NonNull([Str("x"), Str("x"), Str("y"), Str("z")]) == [Str("x"), Str("x"), Str("y"), Str("z")]
  {
    var cells := [Str("x"), Str("x"), Str("y"), Str("z")];
    var c1 := [Str("x")];
    var c2 := c1 + [Str("x")];
    var c3 := c2 + [Str("y")];
    assert c2[..1] == c1;
    assert NonNull(c2) == c2;
    assert c3[..2] == c2;
    assert NonNull(c3) == c3;
    assert cells[..3] == c3;
  }

  lemma ScenarioDistinct()
    ensures Distinct(["x", "x", "y", "z"]) == 3
  {
    assert Values(["x", "x", "y", "z"]) == {"x", "y", "z"};
  }
}
