/** The chart recommender (`build_chart_suggestions`): from the detected
    column types, one chart per categorical, numeric and date column, one
    per categorical-numeric pair, and a table view when there is nothing
    else to show. */
module Charts {
  import opened Seqs
  import opened Classifier

  datatype ChartType = Bar | Histogram | Line | PieOrGroupedBar | TableView {
    /** The `chart_type` string the source emits. */
    function Name(): string {
      match this
      case Bar => "bar"
      case Histogram => "histogram"
      case Line => "line"
      case PieOrGroupedBar => "pie_or_grouped_bar"
      case TableView => "table"
    }
  }

  /** A chart suggestion (the `DashboardChart` shape). Its `reason` is fixed
      by its type and columns, so it is a member rather than a field. */
  datatype ChartSuggestion = ChartSuggestion(chartType: ChartType, columns: seq<string>) {
    /** The k-th column named, or the empty string. */
    function Column(k: nat): string {
      if k < |columns| then columns[k] else ""
    }

    /** The sentence `build_chart_suggestions` gives with the suggestion. */
    function Reason(): string {
      match chartType
      case PieOrGroupedBar => Quoted(Column(0)) + PairLink + Quoted(Column(1)) + PairTail
      case TableView => NoChartReason
      case _ => Quoted(Column(0)) + SingleTail(chartType)
    }
  }

  /** What follows the column in a single-column chart's reason. */
  function SingleTail(t: ChartType): string {
    match t
    case Bar => " is categorical, so a bar chart is suitable."
    case Histogram => " is numeric, so a histogram is suitable."
    case Line => " is date-like, so a line chart is suitable for trends."
    case _ => ""
  }

  const PairLink: string := " (categorical) with "
  const PairTail: string := " (numeric) fits a pie chart or grouped bar chart."
  const NoChartReason: string := "No clear chart recommendation based on detected column types."

  function Quoted(column: string): string {
    "'" + column + "'"
  }

  function BarFor(column: string): ChartSuggestion {
    ChartSuggestion(Bar, [column])
  }

  function HistogramFor(column: string): ChartSuggestion {
    ChartSuggestion(Histogram, [column])
  }

  function LineFor(column: string): ChartSuggestion {
    ChartSuggestion(Line, [column])
  }

  function PairFor(categorical: string, numeric: string): ChartSuggestion {
    ChartSuggestion(PieOrGroupedBar, [categorical, numeric])
  }

  const TableFallback: ChartSuggestion := ChartSuggestion(TableView, [])

  /** `[column for column, detected_type in column_types.items() if detected_type == ty]`. */
  function ColumnsOfType(types: seq<(string, ColumnType)>, ty: ColumnType): seq<string> {
    FilterMap(types, (p: (string, ColumnType)) => if p.1 == ty then Some(p.0) else None)
  }

  /** The inner loop of the pair recommendations: one categorical column
      with every numeric column. */
  function PairsWith(categorical: string, numerics: seq<string>): seq<ChartSuggestion> {
    Map(numerics, (n: string) => PairFor(categorical, n))
  }

  /** All categorical-numeric pairs, categorical column major. */
  function Pairs(categoricals: seq<string>, numerics: seq<string>): seq<ChartSuggestion>
    decreases |categoricals|
  {
    if |categoricals| == 0 then []
    else
      var n := |categoricals| - 1;
      Pairs(categoricals[..n], numerics) + PairsWith(categoricals[n], numerics)
  }

  /** What the four recommendation loops produce, in order. */
  function Recommended(cats: seq<string>, nums: seq<string>, dates: seq<string>): seq<ChartSuggestion> {
    Map(cats, BarFor) + Map(nums, HistogramFor) + Map(dates, LineFor) + Pairs(cats, nums)
  }

  function Suggestions(types: seq<(string, ColumnType)>): seq<ChartSuggestion> {
    var found := Recommended(ColumnsOfType(types, Categorical), ColumnsOfType(types, Numeric),
                             ColumnsOfType(types, Date));
    if |found| == 0 then [TableFallback] else found
  }

  /** A loop appending one single-column chart per column. */
  method SingleColumnCharts(columns: seq<string>, chart: string -> ChartSuggestion) returns (out: seq<ChartSuggestion>)
    ensures out == Map(columns, chart)
  {
    out := [];
    for i := 0 to |columns|
      invariant out == Map(columns[..i], chart)
    {
      MapStep(columns, chart, i);
      out := out + [chart(columns[i])];
    }
    assert columns[..|columns|] == columns;
  }

  /** The nested loop of the pair recommendations. */
  method PairCharts(cats: seq<string>, nums: seq<string>) returns (out: seq<ChartSuggestion>)
    ensures out == Pairs(cats, nums)
  {
    out := [];
    for i := 0 to |cats|
      invariant out == Pairs(cats[..i], nums)
    {
      assert cats[..i + 1][..i] == cats[..i];
      ghost var before := out;
      for j := 0 to |nums|
        invariant out == before + PairsWith(cats[i], nums[..j])
      {
        MapStep(nums, (n: string) => PairFor(cats[i], n), j);
        out := out + [PairFor(cats[i], nums[j])];
      }
      assert nums[..|nums|] == nums;
    }
    assert cats[..|cats|] == cats;
  }

  /** `build_chart_suggestions`. */
  method BuildChartSuggestions(types: seq<(string, ColumnType)>) returns (suggestions: seq<ChartSuggestion>)
    ensures suggestions == Suggestions(types)
  {
    var cats := ColumnsOfType(types, Categorical);
    var nums := ColumnsOfType(types, Numeric);
    var dates := ColumnsOfType(types, Date);
    suggestions := SingleColumnCharts(cats, BarFor);
    var histograms := SingleColumnCharts(nums, HistogramFor);
    suggestions := suggestions + histograms;
    var lines := SingleColumnCharts(dates, LineFor);
    suggestions := suggestions + lines;
    var pairs := PairCharts(cats, nums);
    suggestions := suggestions + pairs;
    if |suggestions| == 0 {
      suggestions := suggestions + [TableFallback];
    }
  }

  /** The type lists hold exactly the columns of that type. */
  lemma ColumnsOfTypeIff(types: seq<(string, ColumnType)>, ty: ColumnType)
    ensures forall c :: c in ColumnsOfType(types, ty) <==> (c, ty) in types
  {
    var f := (p: (string, ColumnType)) => if p.1 == ty then Some(p.0) else None;
    forall c ensures c in ColumnsOfType(types, ty) <==> (c, ty) in types {
      FilterMapIn(types, f, c);
      if (c, ty) in types {
        var i :| 0 <= i < |types| && types[i] == (c, ty);
        assert f(types[i]) == Some(c);
      }
    }
  }

  /** A list of no type has no columns exactly when no column has that type. */
  lemma ColumnsOfTypeEmpty(types: seq<(string, ColumnType)>, ty: ColumnType)
    ensures ColumnsOfType(types, ty) == [] <==> forall i :: 0 <= i < |types| ==> types[i].1 != ty
  {
    FilterMapEmpty(types, (p: (string, ColumnType)) => if p.1 == ty then Some(p.0) else None);
  }

  /** One pair per categorical-numeric combination. */
  lemma {:induction false} PairsLength(cats: seq<string>, nums: seq<string>)
    ensures |Pairs(cats, nums)| == |cats| * |nums|
    decreases |cats|
  {
    if |cats| > 0 {
      var n := |cats| - 1;
      PairsLength(cats[..n], nums);
      assert |cats| * |nums| == n * |nums| + |nums|;
    }
  }

  lemma GridIndex(i: nat, j: nat, rows: nat, width: nat)
    requires i < rows && j < width
    ensures i * width + j < rows * width
  {
    assert i * width + j < (i + 1) * width;
    assert (i + 1) * width <= rows * width;
  }

  /** The pairs form a |C| by |N| grid laid out row by row: categorical
      column i with numeric column j sits at position i * |N| + j. */
  lemma {:induction false} PairAt(cats: seq<string>, nums: seq<string>, i: nat, j: nat)
    requires i < |cats| && j < |nums|
    ensures i * |nums| + j < |Pairs(cats, nums)|
    ensures Pairs(cats, nums)[i * |nums| + j] == PairFor(cats[i], nums[j])
    decreases |cats|
  {
    var n := |cats| - 1;
    var front := cats[..n];
    PairsLength(cats, nums);
    PairsLength(front, nums);
    GridIndex(i, j, |cats|, |nums|);
    if i < n {
      PairAt(front, nums, i, j);
      GridIndex(i, j, n, |nums|);
    } else {
      assert i * |nums| == |Pairs(front, nums)|;
    }
  }

  /** A pair chart is a categorical column with a numeric one, and there is
      one for every such combination. */
  lemma {:induction false} PairsMembers(cats: seq<string>, nums: seq<string>, y: ChartSuggestion)
    ensures y in Pairs(cats, nums) <==> exists c, n :: c in cats && n in nums && y == PairFor(c, n)
    decreases |cats|
  {
    if |cats| > 0 {
      var k := |cats| - 1;
      var front := cats[..k];
      PairsMembers(front, nums, y);
      assert forall c :: c in cats <==> c in front || c == cats[k];
      var row := PairsWith(cats[k], nums);
      assert y in row <==> exists n :: n in nums && y == PairFor(cats[k], n) by {
        if y in row {
          var j :| 0 <= j < |row| && row[j] == y;
          assert nums[j] in nums;
        }
        if exists n :: n in nums && y == PairFor(cats[k], n) {
          var n :| n in nums && y == PairFor(cats[k], n);
          var j :| 0 <= j < |nums| && nums[j] == n;
          assert row[j] == y;
        }
      }
    }
  }

  lemma MapMember<A>(xs: seq<A>, f: A -> ChartSuggestion, y: ChartSuggestion)
    ensures y in Map(xs, f) <==> exists x :: x in xs && y == f(x)
  {
    if exists x :: x in xs && y == f(x) {
      var x :| x in xs && y == f(x);
      var i :| 0 <= i < |xs| && xs[i] == x;
      assert Map(xs, f)[i] == y;
    }
  }

  /** Which loop a recommendation can come from: each chart type has one. */
  lemma RecommendedMembers(cats: seq<string>, nums: seq<string>, dates: seq<string>, y: ChartSuggestion)
    ensures y in Recommended(cats, nums, dates) <==>
      || (exists c :: c in cats && y == BarFor(c))
      || (exists n :: n in nums && y == HistogramFor(n))
      || (exists d :: d in dates && y == LineFor(d))
      || (exists c, n :: c in cats && n in nums && y == PairFor(c, n))
  {
    MapMember(cats, BarFor, y);
    MapMember(nums, HistogramFor, y);
    MapMember(dates, LineFor, y);
    PairsMembers(cats, nums, y);
  }

  /** Every recommendation names detected columns of the right types: a bar
      chart per categorical column, a histogram per numeric column, a line
      chart per date column and a pie or grouped bar chart per categorical
      and numeric column, with nothing else besides the table fallback. */
  lemma SuggestionMembers(types: seq<(string, ColumnType)>, y: ChartSuggestion)
    requires y != TableFallback
    ensures y in Suggestions(types) <==>
      || (exists c :: (c, Categorical) in types && y == BarFor(c))
      || (exists n :: (n, Numeric) in types && y == HistogramFor(n))
      || (exists d :: (d, Date) in types && y == LineFor(d))
      || (exists c, n :: (c, Categorical) in types && (n, Numeric) in types && y == PairFor(c, n))
  {
    var cats, nums, dates := ColumnsOfType(types, Categorical), ColumnsOfType(types, Numeric), ColumnsOfType(types, Date);
    RecommendedMembers(cats, nums, dates, y);
    ColumnsOfTypeIff(types, Categorical);
    ColumnsOfTypeIff(types, Numeric);
    ColumnsOfTypeIff(types, Date);
  }

  /** A bar chart is recommended for a column exactly when it was detected
      as categorical. */
  lemma BarIff(types: seq<(string, ColumnType)>, c: string)
    ensures BarFor(c) in Suggestions(types) <==> (c, Categorical) in types
  {
    SuggestionMembers(types, BarFor(c));
    if exists x :: (x, Categorical) in types && BarFor(c) == BarFor(x) {
      var x :| (x, Categorical) in types && BarFor(c) == BarFor(x);
      assert BarFor(x).columns[0] == x;
    }
  }

  /** A histogram is recommended for a column exactly when it was detected
      as numeric. */
  lemma HistogramIff(types: seq<(string, ColumnType)>, c: string)
    ensures HistogramFor(c) in Suggestions(types) <==> (c, Numeric) in types
  {
    SuggestionMembers(types, HistogramFor(c));
    if exists x :: (x, Numeric) in types && HistogramFor(c) == HistogramFor(x) {
      var x :| (x, Numeric) in types && HistogramFor(c) == HistogramFor(x);
      assert HistogramFor(x).columns[0] == x;
    }
  }

  /** A line chart is recommended for a column exactly when it was detected
      as a date column. */
  lemma LineIff(types: seq<(string, ColumnType)>, c: string)
    ensures LineFor(c) in Suggestions(types) <==> (c, Date) in types
  {
    SuggestionMembers(types, LineFor(c));
    if exists x :: (x, Date) in types && LineFor(c) == LineFor(x) {
      var x :| (x, Date) in types && LineFor(c) == LineFor(x);
      assert LineFor(x).columns[0] == x;
    }
  }

  /** A pie or grouped bar chart is recommended for two columns exactly when
      the first was detected as categorical and the second as numeric. */
  lemma PairIff(types: seq<(string, ColumnType)>, c: string, n: string)
    ensures PairFor(c, n) in Suggestions(types) <==> (c, Categorical) in types && (n, Numeric) in types
  {
    SuggestionMembers(types, PairFor(c, n));
    if exists x, y :: (x, Categorical) in types && (y, Numeric) in types && PairFor(c, n) == PairFor(x, y) {
      var x, y :| (x, Categorical) in types && (y, Numeric) in types && PairFor(c, n) == PairFor(x, y);
      assert PairFor(x, y).columns == [x, y];
    }
  }

  /** The table fallback is the whole answer exactly when no column was
      detected as categorical, numeric or date; otherwise the answer holds
      one chart per such column and one per categorical-numeric pair. */
  lemma SuggestionsShape(types: seq<(string, ColumnType)>)
    ensures var r, cats, nums, dates := Suggestions(types), ColumnsOfType(types, Categorical),
                                        ColumnsOfType(types, Numeric), ColumnsOfType(types, Date);
      && |r| > 0
      && (r == [TableFallback] <==> forall i :: 0 <= i < |types| ==> types[i].1 == Text)
      && (r != [TableFallback] ==> r == Recommended(cats, nums, dates))
      && (r != [TableFallback] ==> |r| == |cats| + |nums| + |dates| + |cats| * |nums|)
  {
    var cats, nums, dates := ColumnsOfType(types, Categorical), ColumnsOfType(types, Numeric), ColumnsOfType(types, Date);
    NothingRecommendedIff(types);
    PairsLength(cats, nums);
    var found := Recommended(cats, nums, dates);
    if |found| > 0 {
      assert found != [TableFallback] by {
        if |cats| > 0 {
          assert found[0] == BarFor(cats[0]);
        } else if |nums| > 0 {
          assert found[0] == HistogramFor(nums[0]);
        } else {
          assert found[0] == LineFor(dates[0]);
        }
      }
    }
  }

  lemma NothingRecommendedIff(types: seq<(string, ColumnType)>)
    ensures var cats, nums, dates := ColumnsOfType(types, Categorical), ColumnsOfType(types, Numeric), ColumnsOfType(types, Date);
      && (|Recommended(cats, nums, dates)| == 0 <==> cats == [] && nums == [] && dates == [])
      && (cats == [] && nums == [] && dates == [] <==> forall i :: 0 <= i < |types| ==> types[i].1 == Text)
  {
    ColumnsOfTypeEmpty(types, Categorical);
    ColumnsOfTypeEmpty(types, Numeric);
    ColumnsOfTypeEmpty(types, Date);
    var cats, nums, dates := ColumnsOfType(types, Categorical), ColumnsOfType(types, Numeric), ColumnsOfType(types, Date);
    PairsLength(cats, nums);
  }

  /** The table view appears only as the whole answer. */
  lemma FallbackAlone(types: seq<(string, ColumnType)>)
    ensures TableFallback in Suggestions(types) <==> Suggestions(types) == [TableFallback]
  {
    var cats, nums, dates := ColumnsOfType(types, Categorical), ColumnsOfType(types, Numeric), ColumnsOfType(types, Date);
    RecommendedMembers(cats, nums, dates, TableFallback);
  }

  lemma PartsOfFour(a: seq<ChartSuggestion>, b: seq<ChartSuggestion>, c: seq<ChartSuggestion>, d: seq<ChartSuggestion>, k: nat)
    ensures var r := a + b + c + d;
      && |r| == |a| + |b| + |c| + |d|
      && (k < |a| ==> r[k] == a[k])
      && (k < |b| ==> r[|a| + k] == b[k])
      && (k < |c| ==> r[|a| + |b| + k] == c[k])
      && (k < |d| ==> r[|a| + |b| + |c| + k] == d[k])
  {
  }

  /** The recommendations come in loop order: the bars in the order of the
      categorical columns, then the histograms, then the line charts. */
  lemma SingleChartsOrder(cats: seq<string>, nums: seq<string>, dates: seq<string>, k: nat)
    ensures var r := Recommended(cats, nums, dates);
      && |r| == |cats| + |nums| + |dates| + |Pairs(cats, nums)|
      && (k < |cats| ==> r[k] == BarFor(cats[k]))
      && (k < |nums| ==> r[|cats| + k] == HistogramFor(nums[k]))
      && (k < |dates| ==> r[|cats| + |nums| + k] == LineFor(dates[k]))
  {
    PartsOfFour(Map(cats, BarFor), Map(nums, HistogramFor), Map(dates, LineFor), Pairs(cats, nums), k);
  }

  /** After them come the pairs, row by row. */
  lemma PairChartsOrder(cats: seq<string>, nums: seq<string>, dates: seq<string>, i: nat, j: nat)
    requires i < |cats| && j < |nums|
    ensures var r := Recommended(cats, nums, dates);
      && |cats| + |nums| + |dates| + i * |nums| + j < |r|
      && r[|cats| + |nums| + |dates| + i * |nums| + j] == PairFor(cats[i], nums[j])
  {
    var q := i * |nums| + j;
    PairAt(cats, nums, i, j);
    PartsOfFour(Map(cats, BarFor), Map(nums, HistogramFor), Map(dates, LineFor), Pairs(cats, nums), q);
  }
  /** `part` occurs in `s`. */
  predicate Mentions(s: string, part: string) {
    exists i, j :: 0 <= i <= j <= |s| && s[i..j] == part
  }

  /** The columns a suggestion carries for its chart type: two for a pair
      chart, none for the table view, one otherwise. */
  predicate Shaped(y: ChartSuggestion) {
    match y.chartType
    case PieOrGroupedBar => |y.columns| == 2
    case TableView => |y.columns| == 0
    case _ => |y.columns| == 1
  }

  lemma MentionsFirst(a: string, b: string)
    ensures Mentions(a + b, a)
  {
    assert (a + b)[0..|a|] == a;
  }

  lemma MentionsFirstOfFour(a: string, b: string, c: string, d: string)
    ensures Mentions(a + b + c + d, a)
  {
    assert (a + b + c + d)[0..|a|] == a;
  }

  lemma MentionsThirdOfFour(a: string, b: string, c: string, d: string)
    ensures Mentions(a + b + c + d, c)
  {
    assert (a + b + c + d)[|a + b|..|a + b| + |c|] == c;
  }

  /** A well-shaped suggestion's reason names each of its columns, quoted. */
  lemma ReasonMentionsColumns(y: ChartSuggestion)
    requires Shaped(y)
    ensures forall k :: 0 <= k < |y.columns| ==> Mentions(y.Reason(), Quoted(y.columns[k]))
  {
    match y.chartType
    case PieOrGroupedBar =>
      MentionsFirstOfFour(Quoted(y.Column(0)), PairLink, Quoted(y.Column(1)), PairTail);
      MentionsThirdOfFour(Quoted(y.Column(0)), PairLink, Quoted(y.Column(1)), PairTail);
    case TableView =>
    case _ =>
      MentionsFirst(Quoted(y.Column(0)), SingleTail(y.chartType));
  }

  /** Every recommendation's reason names the column or columns it is
      about. */
  lemma ReasonNamesColumns(types: seq<(string, ColumnType)>, y: ChartSuggestion)
    requires y in Suggestions(types)
    ensures forall k :: 0 <= k < |y.columns| ==> Mentions(y.Reason(), Quoted(y.columns[k]))
  {
    if y != TableFallback {
      SuggestionMembers(types, y);
    }
    ReasonMentionsColumns(y);
  }
}
