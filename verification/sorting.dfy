/** The newest-first ordering of the aggregated news: `Array.prototype.sort`
    with the comparator `(a, b) => time(b) - time(a)`. The built-in sort is
    stable, so entries with equal times keep their relative order; with a
    consistent comparator the result is therefore unique, and an insertion sort
    that is stable computes it. */
module Sorting {
  import opened Sequences

  /** Every entry is at least as new as every entry after it. */
  ghost predicate NewestFirst<T>(xs: seq<T>, time: T -> int) {
    forall i, j :: 0 <= i < j < |xs| ==> time(xs[i]) >= time(xs[j])
  }

  function HasTime<T>(time: T -> int, t: int): T -> bool {
    (x: T) => time(x) == t
  }

  /** The entries whose time is exactly `t`. */
  function AtTime<T>(xs: seq<T>, time: T -> int, t: int): seq<T> {
    Filter(xs, HasTime(time, t))
  }

  /** Places `x` in front of the first entry not newer than it. */
  function InsertNewest<T>(x: T, ys: seq<T>, time: T -> int): (r: seq<T>)
    ensures multiset(r) == multiset(ys) + multiset{x}
    ensures NewestFirst(ys, time) ==> NewestFirst(r, time)
  {
    if |ys| == 0 || time(x) >= time(ys[0]) then
      [x] + ys
    else
      var rest := InsertNewest(x, ys[1..], time);
      assert ys == [ys[0]] + ys[1..];
      InsertAfterNewer(x, ys, rest, time);
      [ys[0]] + rest
  }

  /** The step of `InsertNewest` that keeps the head `ys[0]` in front. */
  lemma InsertAfterNewer<T>(x: T, ys: seq<T>, rest: seq<T>, time: T -> int)
    requires |ys| > 0 && time(x) < time(ys[0])
    requires multiset(rest) == multiset(ys[1..]) + multiset{x}
    requires NewestFirst(ys[1..], time) ==> NewestFirst(rest, time)
    ensures NewestFirst(ys, time) ==> NewestFirst([ys[0]] + rest, time)
  {
    if NewestFirst(ys, time) {
      var r := [ys[0]] + rest;
      forall j | 1 <= j < |r|
        ensures time(r[0]) >= time(r[j])
      {
        assert r[j] in multiset(rest);
        if r[j] != x {
          assert r[j] in multiset(ys[1..]);
          var k :| 0 <= k < |ys[1..]| && ys[1..][k] == r[j];
          assert ys[k + 1] == r[j];
        }
      }
      forall i, j | 0 <= i < j < |r|
        ensures time(r[i]) >= time(r[j])
      {
        if i > 0 {
          assert r[i] == rest[i - 1] && r[j] == rest[j - 1];
        }
      }
    }
  }

  /** The newest-first order of `xs`: a permutation of it, newest first. */
  function SortNewestFirst<T>(xs: seq<T>, time: T -> int): (r: seq<T>)
    ensures multiset(r) == multiset(xs)
    ensures |r| == |xs|
    ensures NewestFirst(r, time)
  {
    if |xs| == 0 then []
    else
      var rest := SortNewestFirst(xs[1..], time);
      assert xs == [xs[0]] + xs[1..];
      var r := InsertNewest(xs[0], rest, time);
      assert |r| == |multiset(r)|;
      r
  }

  /** The tail of a newest-first sequence is newest first. */
  lemma NewestFirstTail<T>(xs: seq<T>, time: T -> int)
    requires |xs| > 0 && NewestFirst(xs, time)
    ensures NewestFirst(xs[1..], time)
  {
    var tail := xs[1..];
    forall i, j | 0 <= i < j < |tail|
      ensures time(tail[i]) >= time(tail[j])
    {
      assert tail[i] == xs[i + 1] && tail[j] == xs[j + 1];
    }
  }

  /** Putting `y` in front of two sequences whose kept entries differ only by
      a prefix `front` that `y` cannot precede in the result. */
  lemma ConsUnderFilter<T>(y: T, rest: seq<T>, tail: seq<T>, front: seq<T>, p: T -> bool)
    requires Filter(rest, p) == front + Filter(tail, p)
    requires !p(y) || front == []
    ensures Filter([y] + rest, p) == front + Filter([y] + tail, p)
  {
    var a, b := [y] + rest, [y] + tail;
    assert a[0] == y && a[1..] == rest;
    assert b[0] == y && b[1..] == tail;
    if p(y) {
      assert Filter(a, p) == [y] + Filter(rest, p);
      assert Filter(b, p) == [y] + Filter(tail, p);
      assert front == [];
    } else {
      assert Filter(a, p) == Filter(rest, p);
      assert Filter(b, p) == Filter(tail, p);
    }
  }

  /** Inserting `x` adds it at the front of the entries of its own time and
      leaves the order of every time's entries otherwise unchanged. */
  lemma {:induction false} InsertKeepsTies<T>(x: T, ys: seq<T>, time: T -> int, t: int)
    requires NewestFirst(ys, time)
    ensures AtTime(InsertNewest(x, ys, time), time, t) ==
              (if time(x) == t then [x] else []) + AtTime(ys, time, t)
    decreases |ys|
  {
    var p := HasTime(time, t);
    FilterSingleton(x, p);
    if |ys| == 0 || time(x) >= time(ys[0]) {
      FilterAppend([x], ys, p);
    } else {
      var tail := ys[1..];
      NewestFirstTail(ys, time);
      InsertKeepsTies(x, tail, time, t);
      ConsUnderFilter(ys[0], InsertNewest(x, tail, time), tail, if time(x) == t then [x] else [], p);
      assert ys == [ys[0]] + tail;
    }
  }

  /** Stability: the entries of any one time come out in their input order. */
  lemma {:induction false} SortIsStable<T>(xs: seq<T>, time: T -> int, t: int)
    ensures AtTime(SortNewestFirst(xs, time), time, t) == AtTime(xs, time, t)
    decreases |xs|
  {
    if |xs| > 0 {
      SortIsStable(xs[1..], time, t);
      InsertKeepsTies(xs[0], SortNewestFirst(xs[1..], time), time, t);
      AtTimeHead(xs, time, t);
    }
  }

  /** The entries of time `t` in a non-empty sequence: its head, if of that
      time, then those of its tail. */
  lemma AtTimeHead<T>(xs: seq<T>, time: T -> int, t: int)
    requires |xs| > 0
    ensures AtTime(xs, time, t) == (if time(xs[0]) == t then [xs[0]] else []) + AtTime(xs[1..], time, t)
  {
  }

  /** Input already newest first is left as it is. */
  lemma {:induction false} SortKeepsSorted<T>(xs: seq<T>, time: T -> int)
    requires NewestFirst(xs, time)
    ensures SortNewestFirst(xs, time) == xs
    decreases |xs|
  {
    if |xs| > 0 {
      var tail := xs[1..];
      NewestFirstTail(xs, time);
      SortKeepsSorted(tail, time);
      if |tail| > 0 {
        assert time(xs[0]) >= time(xs[1]);
      }
      assert xs == [xs[0]] + tail;
    }
  }
}
