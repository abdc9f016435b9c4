/** Generic sequence helpers shared by every report builder.

    The analysis engine builds its reports the way Python code usually does:
    a loop over an ordered collection that appends one entry per element
    (`Map`), or appends an entry only when a condition holds (`FilterMap`).
    Both are defined by recursion on the prefix, so that a loop that has
    processed `xs[..i]` holds exactly `Map(xs[..i], f)` or
    `FilterMap(xs[..i], f)`. */
module Seqs {

  datatype Option<+T> = None | Some(value: T) {
    /** The empty sequence for None, a singleton for Some. */
    function ToSeq(): (s: seq<T>)
      ensures |s| <= 1
      ensures Some? <==> |s| == 1
      ensures Some? ==> s[0] == value
    {
      match this
      case None => []
      case Some(v) => [v]
    }
  }

  function Max(a: int, b: int): int { if a >= b then a else b }

  function Min(a: int, b: int): int { if a <= b then a else b }

  /** Applies `f` to every element, in order. */
  function Map<A, B>(xs: seq<A>, f: A -> B): (r: seq<B>)
    ensures |r| == |xs|
    ensures forall i {:trigger r[i]} :: 0 <= i < |xs| ==> r[i] == f(xs[i])
    decreases |xs|
  {
    if |xs| == 0 then [] else Map(xs[..|xs| - 1], f) + [f(xs[|xs| - 1])]
  }

  /** Keeps, in order, the values `f` produces for the elements it accepts. */
  function FilterMap<A, B>(xs: seq<A>, f: A -> Option<B>): (r: seq<B>)
    ensures |r| <= |xs|
    decreases |xs|
  {
    if |xs| == 0 then [] else FilterMap(xs[..|xs| - 1], f) + f(xs[|xs| - 1]).ToSeq()
  }

  /** The first components of an ordered association list (the keys of a Python dict). */
  function Keys<K, V>(m: seq<(K, V)>): (ks: seq<K>)
    ensures |ks| == |m|
    ensures forall i :: 0 <= i < |m| ==> ks[i] == m[i].0
  {
    Map(m, (p: (K, V)) => p.0)
  }

  /** One more element processed: what a loop body appends. */
  lemma MapStep<A, B>(xs: seq<A>, f: A -> B, i: nat)
    requires i < |xs|
    ensures Map(xs[..i + 1], f) == Map(xs[..i], f) + [f(xs[i])]
  {
    assert xs[..i + 1][..i] == xs[..i];
  }

  lemma FilterMapStep<A, B>(xs: seq<A>, f: A -> Option<B>, i: nat)
    requires i < |xs|
    ensures FilterMap(xs[..i + 1], f) == FilterMap(xs[..i], f) + f(xs[i]).ToSeq()
  {
    assert xs[..i + 1][..i] == xs[..i];
  }

  /** One more element at the end: what a loop body appends. */
  lemma FilterMapSnoc<A, B>(xs: seq<A>, x: A, f: A -> Option<B>)
    ensures FilterMap(xs + [x], f) == FilterMap(xs, f) + f(x).ToSeq()
  {
    assert (xs + [x])[..|xs|] == xs;
  }

  /** A value is kept exactly when some element produced it. */
  lemma {:induction false} FilterMapIn<A, B>(xs: seq<A>, f: A -> Option<B>, y: B)
    ensures y in FilterMap(xs, f) <==> exists i :: 0 <= i < |xs| && f(xs[i]) == Some(y)
    decreases |xs|
  {
    if |xs| > 0 {
      var n := |xs| - 1;
      FilterMapIn(xs[..n], f, y);
      assert FilterMap(xs, f) == FilterMap(xs[..n], f) + f(xs[n]).ToSeq();
      if exists i :: 0 <= i < |xs| && f(xs[i]) == Some(y) {
        var i :| 0 <= i < |xs| && f(xs[i]) == Some(y);
        if i < n {
          assert xs[..n][i] == xs[i];
        } else {
          assert f(xs[n]).ToSeq() == [y];
        }
      }
      if y in FilterMap(xs[..n], f) {
        var i :| 0 <= i < n && f(xs[..n][i]) == Some(y);
        assert xs[..n][i] == xs[i];
      }
    }
  }

  /** Every value kept has a property that every produced value has. */
  lemma {:induction false} FilterMapAll<A, B>(xs: seq<A>, f: A -> Option<B>, p: B -> bool)
    requires forall x :: f(x).Some? ==> p(f(x).value)
    ensures forall k :: 0 <= k < |FilterMap(xs, f)| ==> p(FilterMap(xs, f)[k])
    decreases |xs|
  {
    if |xs| > 0 {
      FilterMapAll(xs[..|xs| - 1], f, p);
    }
  }

  /** Nothing is kept exactly when no element is accepted. */
  lemma FilterMapEmpty<A, B>(xs: seq<A>, f: A -> Option<B>)
    ensures FilterMap(xs, f) == [] <==> forall i :: 0 <= i < |xs| ==> f(xs[i]).None?
  {
    var r := FilterMap(xs, f);
    if r != [] {
      FilterMapIn(xs, f, r[0]);
    }
    if exists i :: 0 <= i < |xs| && f(xs[i]).Some? {
      var i :| 0 <= i < |xs| && f(xs[i]).Some?;
      FilterMapIn(xs, f, f(xs[i]).value);
    }
  }

  lemma KeysAppend<K, V>(a: seq<(K, V)>, b: seq<(K, V)>)
    ensures Keys(a + b) == Keys(a) + Keys(b)
  {
  }

  /** Two optional entries that are both absent, or both present with the same key. */
  ghost predicate SameKey<K, V, W>(a: Option<(K, V)>, b: Option<(K, W)>) {
    a.Some? == b.Some? && (a.Some? && b.Some? ==> a.value.0 == b.value.0)
  }

  /** Two filters that accept the same elements, and give them the same key,
      produce association lists with the same keys in the same order. */
  lemma {:induction false} FilterMapSameKeys<A, K, V, W>(xs: seq<A>, f: A -> Option<(K, V)>, g: A -> Option<(K, W)>)
    requires forall x :: SameKey(f(x), g(x))
    ensures Keys(FilterMap(xs, f)) == Keys(FilterMap(xs, g))
    decreases |xs|
  {
    if |xs| > 0 {
      var n := |xs| - 1;
      FilterMapSameKeys(xs[..n], f, g);
      KeysAppend(FilterMap(xs[..n], f), f(xs[n]).ToSeq());
      KeysAppend(FilterMap(xs[..n], g), g(xs[n]).ToSeq());
      LastKeys(f(xs[n]), g(xs[n]));
    }
  }

  lemma LastKeys<K, V, W>(a: Option<(K, V)>, b: Option<(K, W)>)
    requires SameKey(a, b)
    ensures Keys(a.ToSeq()) == Keys(b.ToSeq())
  {
  }
}
