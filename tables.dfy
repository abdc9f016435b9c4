/** The table the analysis engine works on: a pandas DataFrame as read_csv
    builds it, with its cells, column names and row count, plus the pandas
    coercions the engine applies to cells. */
module Tables {
  import opened Seqs

  /** One cell: pandas' missing value (NaN / None), a value of an integer
      column, a value of a float64 column, or a string. read_csv gives a
      column of integer literals without blanks an integer dtype (int64, or
      uint64 when a value exceeds 2^63 - 1 and none is negative; which one is
      decided in `Stats`) and any other column of numbers float64; the two
      kinds print differently under `astype(str)` (1 against 1.0), so the cell
      records which it is. */
  datatype Cell = Null | Int(whole: int) | Num(value: real) | Str(text: string) {
    /** A value of a numeric dtype. */
    predicate IsNumber() {
      Int? || Num?
    }
  }

  datatype Column = Column(name: string, cells: seq<Cell>)

  /** `rows` is `dataframe.shape[0]`; it is kept apart from the columns so
      that a table with no columns still has a row count. */
  datatype Table = Table(rows: nat, columns: seq<Column>) {
    /** What every DataFrame that read_csv returns satisfies: every column has
        one cell per row, and column names are unique (read_csv renames
        repeated headers). */
    predicate Valid() {
      && (forall j :: 0 <= j < |columns| ==> |columns[j].cells| == rows)
      && (forall i, j :: 0 <= i < j < |columns| ==> columns[i].name != columns[j].name)
    }

    /** `dataframe.columns`, in table order. */
    function Names(): (ns: seq<string>)
      ensures |ns| == |columns|
      ensures forall j :: 0 <= j < |columns| ==> ns[j] == columns[j].name
    {
      Map(columns, (c: Column) => c.name)
    }
  }

  /** The pandas routines the engine calls on cell values, which this model
      takes as given:
      - `parsesAsDate(s)`: `pd.to_datetime(s, errors="coerce")` gives a timestamp;
      - `parseNumber(s)`: `pd.to_numeric(s, errors="coerce")`, None for NaN;
      - `render(v)`: `str(v)` of a float64 value, as `astype(str)` writes it
        (an int64 value is printed by `DecimalString`). */
  datatype Coercion = Coercion(
    parsesAsDate: string -> bool,
    parseNumber: string -> Option<real>,
    render: real -> string)

  /** `series.dropna()`: the non-missing cells, in order. */
  function NonNull(cells: seq<Cell>): (r: seq<Cell>)
    ensures |r| <= |cells|
    ensures forall c :: c in r ==> !c.Null?
    decreases |cells|
  {
    if |cells| == 0 then []
    else
      var n := |cells| - 1;
      NonNull(cells[..n]) + (if cells[n].Null? then [] else [cells[n]])
  }

  /** `series.isna().sum()`. */
  function NullCount(cells: seq<Cell>): nat
    decreases |cells|
  {
    if |cells| == 0 then 0
    else NullCount(cells[..|cells| - 1]) + (if cells[|cells| - 1].Null? then 1 else 0)
  }

  /** Every cell is either counted as missing or survives `dropna`. */
  lemma {:induction false} NullCountSplit(cells: seq<Cell>)
    ensures NullCount(cells) + |NonNull(cells)| == |cells|
    decreases |cells|
  {
    if |cells| > 0 {
      NullCountSplit(cells[..|cells| - 1]);
    }
  }

  /** `dropna` leaves nothing exactly when every cell is missing. */
  lemma {:induction false} NonNullEmptyIff(cells: seq<Cell>)
    ensures |NonNull(cells)| == 0 <==> forall i :: 0 <= i < |cells| ==> cells[i].Null?
    decreases |cells|
  {
    if |cells| > 0 {
      var n := |cells| - 1;
      NonNullEmptyIff(cells[..n]);
      assert forall i :: 0 <= i < n ==> cells[..n][i] == cells[i];
    }
  }

  /** Dropping missing values a second time changes nothing. */
  lemma {:induction false} NonNullIdempotent(cells: seq<Cell>)
    ensures NonNull(NonNull(cells)) == NonNull(cells)
    decreases |cells|
  {
    if |cells| > 0 {
      var n := |cells| - 1;
      NonNullIdempotent(cells[..n]);
      var front := NonNull(cells[..n]);
      if !cells[n].Null? {
        var r := front + [cells[n]];
        assert NonNull(cells) == r;
        assert r[..|r| - 1] == front;
        assert NonNull(r) == NonNull(front) + [cells[n]];
      } else {
        assert NonNull(cells) == front;
      }
    }
  }

  /** The decimal digit `d`. */
  function DigitChar(d: nat): char
    requires d < 10
  {
    "0123456789"[d]
  }

  /** The decimal digits of `n`, most significant first, no leading zero. */
  function Digits(n: nat): (s: string)
    ensures |s| > 0
    decreases n
  {
    if n < 10 then [DigitChar(n)] else Digits(n / 10) + [DigitChar(n % 10)]
  }

  /** `str` of a Python int: optional minus sign, then the digits. */
  function DecimalString(k: int): string {
    if k < 0 then "-" + Digits(-k) else Digits(k)
  }

  /** The value the decimal digits `s` spell. */
  function DigitsValue(s: string): int
    decreases |s|
  {
    if |s| == 0 then 0 else 10 * DigitsValue(s[..|s| - 1]) + ((s[|s| - 1] as int) - ('0' as int))
  }

  /** Reading a non-negative decimal string back. */
  function DecimalValue(s: string): int {
    if |s| > 0 && s[0] == '-' then -DigitsValue(s[1..]) else DigitsValue(s)
  }

  lemma {:induction false} DigitsRoundTrip(n: nat)
    ensures DigitsValue(Digits(n)) == n
    ensures Digits(n)[0] != '-'
    decreases n
  {
    if n >= 10 {
      DigitsRoundTrip(n / 10);
      var s := Digits(n / 10) + [DigitChar(n % 10)];
      assert s[..|s| - 1] == Digits(n / 10);
    }
  }

  /** The int64 rendering loses nothing: the value reads back from it. */
  lemma DecimalRoundTrip(k: int)
    ensures DecimalValue(DecimalString(k)) == k
  {
    if k < 0 {
      DigitsRoundTrip(-k);
      assert ("-" + Digits(-k))[1..] == Digits(-k);
    } else {
      DigitsRoundTrip(k);
    }
  }

  /** `astype(str)` of one cell; dropna runs first wherever it is used, so the
      missing case is never reached. An int64 value prints as a Python int,
      a float64 value as the `render` parameter says. */
  function Stringify(c: Cell, co: Coercion): string {
    match c
    case Null => "nan"
    case Int(k) => DecimalString(k)
    case Num(v) => co.render(v)
    case Str(s) => s
  }

  /** `series.dropna().astype(str)`. */
  function AsStrings(cells: seq<Cell>, co: Coercion): (strs: seq<string>)
    ensures |strs| == |NonNull(cells)|
  {
    Map(NonNull(cells), (c: Cell) => Stringify(c, co))
  }

  /** An int64 column of ones prints "1"; a float64 column of ones with a
      blank (which read_csv makes float64) prints as `render` writes 1.0. */
  lemma IntAndFloatColumnsPrintApart(co: Coercion)
    requires co.render(1.0) == "1.0"
    ensures AsStrings([Int(1), Int(1)], co) == ["1", "1"]
    ensures AsStrings([Num(1.0), Null, Num(1.0)], co) == ["1.0", "1.0"]
  {
    var a := [Int(1), Int(1)];
    assert a[..1] == [Int(1)];
    assert NonNull(a) == a;
    var b := [Num(1.0), Null, Num(1.0)];
    assert b[..2][..1] == [Num(1.0)];
    assert b[..2] == [Num(1.0), Null];
    assert NonNull(b) == [Num(1.0), Num(1.0)];
  }

  /** `pd.to_numeric(cell, errors="coerce")`: numbers stay, strings are parsed,
      anything that does not parse becomes missing. */
  function Lenient(c: Cell, co: Coercion): Option<real> {
    match c
    case Null => None
    case Int(k) => Some(k as real)
    case Num(v) => Some(v)
    case Str(s) => co.parseNumber(s)
  }

  /** `pd.to_numeric(column, errors="coerce")`, one entry per row. */
  function Coerced(cells: seq<Cell>, co: Coercion): (xs: seq<Option<real>>)
    ensures |xs| == |cells|
    ensures forall i :: 0 <= i < |cells| ==> xs[i] == Lenient(cells[i], co)
  {
    Map(cells, (c: Cell) => Lenient(c, co))
  }

  /** `pd.to_numeric(column, errors="coerce").dropna()`: the valid numbers. */
  function Numbers(cells: seq<Cell>, co: Coercion): (xs: seq<real>)
    ensures |xs| <= |cells|
  {
    FilterMap(cells, (c: Cell) => Lenient(c, co))
  }

  /** A column has valid numbers exactly when one of its cells coerces. */
  lemma NumbersNonEmptyIff(cells: seq<Cell>, co: Coercion)
    ensures |Numbers(cells, co)| > 0 <==> exists i :: 0 <= i < |cells| && Lenient(cells[i], co).Some?
  {
    FilterMapEmpty(cells, (c: Cell) => Lenient(c, co));
  }

  /** The set of values in `xs`. */
  function Values(xs: seq<string>): (vs: set<string>)
    ensures forall x :: x in vs <==> x in xs
    decreases |xs|
  {
    if |xs| == 0 then {}
    else
      var n := |xs| - 1;
      assert forall x :: x in xs <==> x in xs[..n] || x == xs[n] by {
        assert xs == xs[..n] + [xs[n]];
      }
      Values(xs[..n]) + {xs[n]}
  }

  /** `nunique()`: the number of distinct strings. */
  function Distinct(xs: seq<string>): nat {
    |Values(xs)|
  }

  lemma {:induction false} DistinctAtMostLength(xs: seq<string>)
    ensures Distinct(xs) <= |xs|
    decreases |xs|
  {
    if |xs| > 0 {
      DistinctAtMostLength(xs[..|xs| - 1]);
    }
  }
}
