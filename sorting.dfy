/**
 * `Array.prototype.sort` with a comparator, which JavaScript requires to be
 * stable: a total preorder `leq` stands for the comparator (`leq(a, b)` when
 * the comparator does not put `b` strictly before `a`), and the sort is an
 * insertion sort that places each element after every element not strictly
 * greater than it.
 */
module Sorting {

  ghost predicate TotalPreorder<T(!new)>(leq: (T, T) -> bool) {
    && (forall a, b :: leq(a, b) || leq(b, a))
    && (forall a, b, c :: leq(a, b) && leq(b, c) ==> leq(a, c))
  }

  predicate SortedBy<T>(xs: seq<T>, leq: (T, T) -> bool) {
    forall i, j :: 0 <= i < j < |xs| ==> leq(xs[i], xs[j])
  }

  /** Inserts `x` after the last element that is not strictly greater than it. */
  function Insert<T>(sorted: seq<T>, x: T, leq: (T, T) -> bool): (r: seq<T>)
    ensures multiset(r) == multiset(sorted) + multiset{x}
  {
    if sorted == [] || leq(sorted[|sorted| - 1], x) then sorted + [x]
    else
      var init := sorted[..|sorted| - 1];
      assert sorted == init + [sorted[|sorted| - 1]];
      Insert(init, x, leq) + [sorted[|sorted| - 1]]
  }

  /** `[...xs].sort(cmp)`: a permutation of `xs`. */
  function SortBy<T>(xs: seq<T>, leq: (T, T) -> bool): (r: seq<T>)
    ensures multiset(r) == multiset(xs)
  {
    if xs == [] then []
    else
      var init := xs[..|xs| - 1];
      assert xs == init + [xs[|xs| - 1]];
      Insert(SortBy(init, leq), xs[|xs| - 1], leq)
  }

  lemma {:induction false} InsertSorted<T(!new)>(sorted: seq<T>, x: T, leq: (T, T) -> bool)
    requires TotalPreorder(leq) && SortedBy(sorted, leq)
    ensures SortedBy(Insert(sorted, x, leq), leq)
    decreases |sorted|
  {
    var r := Insert(sorted, x, leq);
    if sorted == [] || leq(sorted[|sorted| - 1], x) {
      assert r == sorted + [x];
    } else {
      var init, last := sorted[..|sorted| - 1], sorted[|sorted| - 1];
      var mid := Insert(init, x, leq);
      InsertSorted(init, x, leq);
      assert leq(x, last);
      forall z | z in mid
        ensures leq(z, last)
      {
        assert z in multiset(mid);
        if z != x {
          assert z in multiset(init);
          var k :| 0 <= k < |init| && init[k] == z;
          assert sorted[k] == z;
        }
      }
      assert r == mid + [last];
      forall i, j | 0 <= i < j < |r|
        ensures leq(r[i], r[j])
      {
        if j == |mid| {
          assert r[i] in mid;
        } else {
          assert r[i] == mid[i] && r[j] == mid[j];
        }
      }
    }
  }

  /** The result of `SortBy` is ordered by `leq`. */
  lemma {:induction false} SortBySorted<T(!new)>(xs: seq<T>, leq: (T, T) -> bool)
    requires TotalPreorder(leq)
    ensures SortedBy(SortBy(xs, leq), leq)
  {
    if xs != [] {
      SortBySorted(xs[..|xs| - 1], leq);
      InsertSorted(SortBy(xs[..|xs| - 1], leq), xs[|xs| - 1], leq);
    }
  }

  predicate Equivalent<T>(leq: (T, T) -> bool, a: T, b: T) {
    leq(a, b) && leq(b, a)
  }

  /** The elements of `xs` that the comparator ties with `y`, in order. */
  function TiesWith<T>(xs: seq<T>, leq: (T, T) -> bool, y: T): (r: seq<T>)
    ensures |r| <= |xs|
  {
    if xs == [] then []
    else TiesWith(xs[..|xs| - 1], leq, y) + (if Equivalent(leq, xs[|xs| - 1], y) then [xs[|xs| - 1]] else [])
  }

  lemma {:induction false} InsertTies<T(!new)>(sorted: seq<T>, x: T, leq: (T, T) -> bool, y: T)
    requires TotalPreorder(leq)
    ensures TiesWith(Insert(sorted, x, leq), leq, y)
         == TiesWith(sorted, leq, y) + (if Equivalent(leq, x, y) then [x] else [])
    decreases |sorted|
  {
    if sorted == [] || leq(sorted[|sorted| - 1], x) {
      var r := sorted + [x];
      assert r[..|r| - 1] == sorted;
    } else {
      var init, last := sorted[..|sorted| - 1], sorted[|sorted| - 1];
      var mid := Insert(init, x, leq);
      var r := mid + [last];
      assert r[..|r| - 1] == mid;
      InsertTies(init, x, leq, y);
      // x and last cannot both tie with y, since last is strictly greater than x
      assert !(Equivalent(leq, x, y) && Equivalent(leq, last, y));
    }
  }

  /** Stability: the elements tied with any `y` come out in their input order. */
  lemma {:induction false} SortByStable<T(!new)>(xs: seq<T>, leq: (T, T) -> bool, y: T)
    requires TotalPreorder(leq)
    ensures TiesWith(SortBy(xs, leq), leq, y) == TiesWith(xs, leq, y)
  {
    if xs != [] {
      SortByStable(xs[..|xs| - 1], leq, y);
      InsertTies(SortBy(xs[..|xs| - 1], leq), xs[|xs| - 1], leq, y);
    }
  }

  /** With no element tied with `y`, there are no ties. */
  lemma {:induction false} NoTies<T>(xs: seq<T>, leq: (T, T) -> bool, y: T)
    requires forall j :: 0 <= j < |xs| ==> !Equivalent(leq, xs[j], y)
    ensures TiesWith(xs, leq, y) == []
  {
    if xs != [] {
      NoTies(xs[..|xs| - 1], leq, y);
    }
  }

  /** The ties of `y` start with the first element of `xs` tied with `y`. */
  lemma {:induction false} FirstTie<T>(xs: seq<T>, leq: (T, T) -> bool, y: T, k: int)
    requires 0 <= k < |xs| && Equivalent(leq, xs[k], y)
    requires forall j :: 0 <= j < k ==> !Equivalent(leq, xs[j], y)
    ensures TiesWith(xs, leq, y) != [] && TiesWith(xs, leq, y)[0] == xs[k]
  {
    var init := xs[..|xs| - 1];
    if k < |init| {
      FirstTie(init, leq, y, k);
    } else {
      NoTies(init, leq, y);
    }
  }

  /**
   * The first element of the sorted sequence is a least element of `xs`, and
   * the first of those in input order: `[...xs].sort(cmp)[0]`.
   */
  lemma FirstOfSorted<T(!new)>(xs: seq<T>, leq: (T, T) -> bool)
    requires TotalPreorder(leq) && xs != []
    ensures var m := SortBy(xs, leq)[0];
      && m in xs
      && (forall x :: x in xs ==> leq(m, x))
      && exists k :: 0 <= k < |xs| && xs[k] == m && forall j :: 0 <= j < k ==> !leq(xs[j], m)
  {
    var sorted := SortBy(xs, leq);
    SortBySorted(xs, leq);
    assert multiset(sorted) == multiset(xs);
    var m := sorted[0];
    assert m in multiset(xs);
    forall x | x in xs
      ensures leq(m, x)
    {
      assert x in multiset(sorted);
      var i :| 0 <= i < |sorted| && sorted[i] == x;
      if i > 0 {
        assert leq(sorted[0], sorted[i]);
      }
    }
    var k :| 0 <= k < |xs| && Equivalent(leq, xs[k], m) && forall j :: 0 <= j < k ==> !Equivalent(leq, xs[j], m) by {
      FirstIndexOf(xs, leq, m);
    }
    FirstTie(xs, leq, m, k);
    FirstTie(sorted, leq, m, 0);
    SortByStable(xs, leq, m);
    forall j | 0 <= j < k
      ensures !leq(xs[j], m)
    {
      assert leq(m, xs[j]);
    }
  }

  /** Some element is tied with `m` when `m` occurs; there is then a first one. */
  lemma FirstIndexOf<T>(xs: seq<T>, leq: (T, T) -> bool, m: T)
    requires m in xs && leq(m, m)
    ensures exists k :: 0 <= k < |xs| && Equivalent(leq, xs[k], m) && forall j :: 0 <= j < k ==> !Equivalent(leq, xs[j], m)
  {
    var i :| 0 <= i < |xs| && xs[i] == m;
    var k := 0;
    while !Equivalent(leq, xs[k], m)
      invariant 0 <= k <= i
      invariant forall j :: 0 <= j < k ==> !Equivalent(leq, xs[j], m)
      decreases i - k
    {
      k := k + 1;
    }
  }

  /** The ties of a joined sequence are the ties of each part, in sequence. */
  lemma {:induction false} TiesAppend<T>(a: seq<T>, b: seq<T>, leq: (T, T) -> bool, y: T)
    ensures TiesWith(a + b, leq, y) == TiesWith(a, leq, y) + TiesWith(b, leq, y)
  {
    if b == [] {
      assert a + b == a;
    } else {
      var init, last := b[..|b| - 1], b[|b| - 1];
      assert (a + b)[..|a + b| - 1] == a + init && (a + b)[|a + b| - 1] == last;
      TiesAppend(a, init, leq, y);
    }
  }

  /** The ties of `y` are elements of the sequence. */
  lemma {:induction false} TiesIn<T>(xs: seq<T>, leq: (T, T) -> bool, y: T)
    ensures forall z :: z in TiesWith(xs, leq, y) ==> z in xs
  {
    if xs != [] {
      TiesIn(xs[..|xs| - 1], leq, y);
      assert xs == xs[..|xs| - 1] + [xs[|xs| - 1]];
    }
  }

  /** The ties of `y` around an element that ties with it. */
  lemma TiesSplit<T>(p: seq<T>, x: T, q: seq<T>, leq: (T, T) -> bool, y: T)
    requires Equivalent(leq, x, y)
    ensures TiesWith(p + [x] + q, leq, y) == TiesWith(p, leq, y) + [x] + TiesWith(q, leq, y)
  {
    TiesAppend(p + [x], q, leq, y);
    TiesAppend(p, [x], leq, y);
    assert [x][..0] == [];
  }
}
