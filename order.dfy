/** Python's ordering of strings and the deterministic mode that
    `Series.mode().iloc[0]` picks: the most frequent value, and among equally
    frequent values the smallest one in sort order. */
module Order {
  import opened Seqs

  /** How often `x` occurs in `xs`. */
  function Occurrences(xs: seq<string>, x: string): nat
    decreases |xs|
  {
    if |xs| == 0 then 0 else Occurrences(xs[..|xs| - 1], x) + (if xs[|xs| - 1] == x then 1 else 0)
  }

  /** Python's `a <= b` on `str`: lexicographic by code point, a proper
      prefix sorting first. */
  predicate StrLe(a: string, b: string)
    decreases |a|
  {
    |a| == 0 || (|b| > 0 && (a[0] < b[0] || (a[0] == b[0] && StrLe(a[1..], b[1..]))))
  }

  lemma {:induction false} StrLeReflexive(a: string)
    ensures StrLe(a, a)
    decreases |a|
  {
    if |a| > 0 {
      StrLeReflexive(a[1..]);
    }
  }

  lemma {:induction false} StrLeTransitive(a: string, b: string, c: string)
    requires StrLe(a, b) && StrLe(b, c)
    ensures StrLe(a, c)
    decreases |a|
  {
    if |a| > 0 && a[0] == b[0] && b[0] == c[0] {
      StrLeTransitive(a[1..], b[1..], c[1..]);
    }
  }

  lemma {:induction false} StrLeTotal(a: string, b: string)
    ensures StrLe(a, b) || StrLe(b, a)
    decreases |a|
  {
    if |a| > 0 && |b| > 0 && a[0] == b[0] {
      StrLeTotal(a[1..], b[1..]);
    }
  }

  lemma {:induction false} StrLeAntisymmetric(a: string, b: string)
    requires StrLe(a, b) && StrLe(b, a)
    ensures a == b
    decreases |a|
  {
    if |a| > 0 {
      StrLeAntisymmetric(a[1..], b[1..]);
      assert a == [a[0]] + a[1..] && b == [b[0]] + b[1..];
    }
  }

  /** Of two candidates, the one the mode prefers: more occurrences, or as
      many and not after the other in sort order. */
  function Prefer(a: string, b: string, xs: seq<string>): string {
    var na, nb := Occurrences(xs, a), Occurrences(xs, b);
    if na > nb || (na == nb && StrLe(a, b)) then a else b
  }

  /** The preferred value among `cands`, counting occurrences in `xs`. */
  function Best(cands: seq<string>, xs: seq<string>): string
    requires |cands| > 0
    decreases |cands|
  {
    if |cands| == 1 then cands[0] else Prefer(cands[0], Best(cands[1..], xs), xs)
  }

  /** `series.mode()` followed by `.iloc[0]`; pandas returns an empty mode for
      an empty series, which is None here. */
  function Mode(xs: seq<string>): (m: Option<string>)
    ensures m.None? <==> |xs| == 0
  {
    if |xs| == 0 then None else Some(Best(xs, xs))
  }

  ghost predicate IsModeAmong(m: string, cands: seq<string>, xs: seq<string>) {
    && m in cands
    && (forall c :: c in cands ==> Occurrences(xs, c) <= Occurrences(xs, m))
    && (forall c :: c in cands && Occurrences(xs, c) == Occurrences(xs, m) ==> StrLe(m, c))
  }

  lemma {:induction false} BestIsMode(cands: seq<string>, xs: seq<string>)
    requires |cands| > 0
    ensures IsModeAmong(Best(cands, xs), cands, xs)
    decreases |cands|
  {
    var a := cands[0];
    StrLeReflexive(a);
    if |cands| > 1 {
      var tail := cands[1..];
      BestIsMode(tail, xs);
      var b := Best(tail, xs);
      assert forall c :: c in cands ==> c == a || c in tail;
      if Prefer(a, b, xs) == a {
        forall c | c in tail && Occurrences(xs, c) == Occurrences(xs, a)
          ensures StrLe(a, c)
        {
          StrLeTransitive(a, b, c);
        }
      } else {
        StrLeTotal(a, b);
      }
    }
  }

  /** The value the dominance rule reports: it occurs in the column, no value
      occurs more often, and it sorts first among the values that occur as
      often. */
  lemma ModeIsSmallestMostFrequent(xs: seq<string>)
    requires |xs| > 0
    ensures Mode(xs).Some?
    ensures Mode(xs).value in xs
    ensures forall y :: y in xs ==> Occurrences(xs, y) <= Occurrences(xs, Mode(xs).value)
    ensures forall y :: y in xs && Occurrences(xs, y) == Occurrences(xs, Mode(xs).value) ==> StrLe(Mode(xs).value, y)
  {
    BestIsMode(xs, xs);
  }

  /** Those three facts leave no choice: any value that has them is the mode. */
  lemma ModeIsUnique(xs: seq<string>, v: string)
    requires v in xs
    requires forall y :: y in xs ==> Occurrences(xs, y) <= Occurrences(xs, v)
    requires forall y :: y in xs && Occurrences(xs, y) == Occurrences(xs, v) ==> StrLe(v, y)
    ensures Mode(xs) == Some(v)
  {
    ModeIsSmallestMostFrequent(xs);
    StrLeAntisymmetric(v, Mode(xs).value);
  }
}
