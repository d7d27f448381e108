/** The array and string operations the model uses: `find`/`findIndex`,
    `filter`, `flat` and `slice(0, n)`. */
module Sequences {
  import opened Wrappers

  /** The index of the first element satisfying `p`, as `findIndex` computes it. */
  function FindIndex<T>(xs: seq<T>, p: T -> bool): (r: Option<nat>)
    ensures r.Some? ==> r.value < |xs| && p(xs[r.value])
    ensures r.Some? ==> forall j :: 0 <= j < r.value ==> !p(xs[j])
    ensures r.None? <==> forall j :: 0 <= j < |xs| ==> !p(xs[j])
  {
    if |xs| == 0 then None
    else if p(xs[0]) then Some(0)
    else match FindIndex(xs[1..], p)
      case Some(i) => Some(i + 1)
      case None => None
  }

  /** The first element satisfying `p`, as `find` computes it. */
  function Find<T>(xs: seq<T>, p: T -> bool): (r: Option<T>)
    ensures r.Some? ==> r.value in xs && p(r.value)
    ensures r.None? <==> forall j :: 0 <= j < |xs| ==> !p(xs[j])
  {
    match FindIndex(xs, p)
    case Some(i) => Some(xs[i])
    case None => None
  }

  /** `xs.filter(p)`: the elements satisfying `p`, in their original order. */
  function Filter<T>(xs: seq<T>, p: T -> bool): (r: seq<T>)
    ensures |r| <= |xs|
    ensures forall i :: 0 <= i < |r| ==> p(r[i])
  {
    if |xs| == 0 then []
    else if p(xs[0]) then [xs[0]] + Filter(xs[1..], p)
    else Filter(xs[1..], p)
  }

  /** An element survives filtering exactly when it is present and passes. */
  lemma {:induction false} FilterMembers<T>(xs: seq<T>, p: T -> bool, x: T)
    ensures x in Filter(xs, p) <==> x in xs && p(x)
    decreases |xs|
  {
    if |xs| > 0 {
      FilterMembers(xs[1..], p, x);
      assert xs == [xs[0]] + xs[1..];
    }
  }

  /** Filtering commutes with concatenation, which fixes the relative order of
      the kept elements. */
  lemma {:induction false} FilterAppend<T>(a: seq<T>, b: seq<T>, p: T -> bool)
    ensures Filter(a + b, p) == Filter(a, p) + Filter(b, p)
    decreases |a|
  {
    if |a| > 0 {
      assert (a + b)[1..] == a[1..] + b;
      FilterAppend(a[1..], b, p);
    } else {
      assert a + b == b;
    }
  }

  /** A one-element sequence keeps its element exactly when it passes. */
  lemma FilterSingleton<T>(x: T, p: T -> bool)
    ensures Filter([x], p) == if p(x) then [x] else []
  {
    assert [x][1..] == [];
  }

  /** `xss.flat()`: the inner sequences laid end to end. */
  function Flatten<T>(xss: seq<seq<T>>): (r: seq<T>)
    ensures |r| == 0 <==> forall i :: 0 <= i < |xss| ==> |xss[i]| == 0
  {
    if |xss| == 0 then []
    else
      var rest := Flatten(xss[1..]);
      assert forall i :: 1 <= i < |xss| ==> xss[i] == xss[1..][i - 1];
      xss[0] + rest
  }

  /** Every element of an inner sequence appears in the flattened result. */
  lemma {:induction false} FlattenContains<T>(xss: seq<seq<T>>, i: int, x: T)
    requires 0 <= i < |xss| && x in xss[i]
    ensures x in Flatten(xss)
    decreases |xss|
  {
    if i > 0 {
      assert xss[1..][i - 1] == xss[i];
      FlattenContains(xss[1..], i - 1, x);
    }
  }

  /** `xs.slice(0, n)` (and `substring(0, n)` on text) for a non-negative `n`. */
  function Take<T>(xs: seq<T>, n: nat): (r: seq<T>)
    ensures |r| <= n && |r| <= |xs|
    ensures |r| == n || r == xs
    ensures r <= xs
  {
    if |xs| <= n then xs else xs[..n]
  }

  /** Cutting at `n` only looks at the first `n` elements. */
  lemma TakeIgnoresTail<T>(xs: seq<T>, tail: seq<T>, n: nat)
    requires n <= |xs|
    ensures Take(xs + tail, n) == Take(xs, n)
  {
    assert (xs + tail)[..n] == xs[..n];
  }
}
