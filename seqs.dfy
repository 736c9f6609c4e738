/** Sequence helpers shared by the stores and the consolidation. */
module Seqs {
  import opened Wrappers

  predicate NoDuplicates<T(==)>(xs: seq<T>) {
    forall i, j :: 0 <= i < j < |xs| ==> xs[i] != xs[j]
  }

  /** `set.add(x)` on a JavaScript `Set`, which remembers insertion order. */
  function AddUnique<T(==,!new)>(xs: seq<T>, x: T): (r: seq<T>)
    ensures NoDuplicates(xs) ==> NoDuplicates(r)
    ensures forall y :: y in r <==> y in xs || y == x
    ensures |xs| <= |r| && r[..|xs|] == xs
  {
    if x in xs then xs else xs + [x]
  }

  /** `[...new Set(xs)]`: each distinct element once, in order of first appearance. */
  function Dedup<T(==,!new)>(xs: seq<T>): (r: seq<T>)
    ensures NoDuplicates(r)
    ensures forall y :: y in r <==> y in xs
    ensures |r| <= |xs|
  {
    if xs == [] then [] else AddUnique(Dedup(xs[..|xs| - 1]), xs[|xs| - 1])
  }

  /** The distinct elements of a sequence with one more element. */
  lemma DedupSnoc<T(!new)>(xs: seq<T>, x: T)
    ensures Dedup(xs + [x]) == AddUnique(Dedup(xs), x)
  {
    assert (xs + [x])[..|xs|] == xs;
  }

  /** A duplicate-free sequence has as many elements as the set of its elements. */
  lemma {:induction false} DistinctCardinality<T>(xs: seq<T>)
    requires NoDuplicates(xs)
    ensures |set y | y in xs| == |xs|
  {
    if xs != [] {
      var init := xs[..|xs| - 1];
      DistinctCardinality(init);
      assert (set y | y in xs) == (set y | y in init) + {xs[|xs| - 1]};
      assert xs[|xs| - 1] !in init;
    }
  }

  /** The number of occurrences of `x` in `xs`. */
  function Count<T(==)>(xs: seq<T>, x: T): (n: nat)
    ensures n <= |xs|
    ensures n == 0 <==> x !in xs
  {
    if xs == [] then 0 else Count(xs[..|xs| - 1], x) + (if xs[|xs| - 1] == x then 1 else 0)
  }

  lemma CountAppend<T>(xs: seq<T>, y: T, x: T)
    ensures Count(xs + [y], x) == Count(xs, x) + (if y == x then 1 else 0)
  {
    assert (xs + [y])[..|xs|] == xs;
  }

  /** `xs.forEach(x => set.add(x))` on a set that already holds `acc`. */
  function AddAll<T(==,!new)>(acc: seq<T>, xs: seq<T>): (r: seq<T>)
    ensures NoDuplicates(acc) ==> NoDuplicates(r)
  {
    if xs == [] then acc else AddUnique(AddAll(acc, xs[..|xs| - 1]), xs[|xs| - 1])
  }

  /** Adding to a set built from `a` the elements of `b` builds the set of `a + b`. */
  lemma {:induction false} AddAllDedup<T(!new)>(a: seq<T>, b: seq<T>)
    ensures AddAll(Dedup(a), b) == Dedup(a + b)
    decreases |b|
  {
    if b == [] {
      assert a + b == a;
    } else {
      var init, x := b[..|b| - 1], b[|b| - 1];
      AddAllDedup(a, init);
      assert (a + b)[..|a + b| - 1] == a + init && (a + b)[|a + b| - 1] == x;
      calc {
        AddAll(Dedup(a), b);
        AddUnique(AddAll(Dedup(a), init), x);
        AddUnique(Dedup(a + init), x);
        Dedup(a + b);
      }
    }
  }

  /** A duplicate-free sequence holds each element at most once. */
  lemma {:induction false} DistinctMultiplicity<T>(xs: seq<T>, x: T)
    requires NoDuplicates(xs)
    ensures multiset(xs)[x] <= 1
  {
    if xs != [] {
      var init := xs[..|xs| - 1];
      assert xs == init + [xs[|xs| - 1]];
      DistinctMultiplicity(init, x);
      if x == xs[|xs| - 1] {
        assert x !in init;
      }
    }
  }

  /** A rearrangement of a duplicate-free sequence is duplicate-free: `sort` on the contents of a `Set`. */
  lemma PermutationDistinct<T>(xs: seq<T>, ys: seq<T>)
    requires NoDuplicates(xs) && multiset(ys) == multiset(xs)
    ensures NoDuplicates(ys)
  {
    forall i, j | 0 <= i < j < |ys|
      ensures ys[i] != ys[j]
    {
      DistinctMultiplicity(xs, ys[i]);
      assert ys == ys[..j] + ys[j..];
      assert ys[i] in multiset(ys[..j]) && ys[j] in multiset(ys[j..]);
    }
  }

  /** `xs.filter(keep)`: the elements passing the test, in their order. */
  function Select<T(==,!new)>(xs: seq<T>, keep: T -> bool): (r: seq<T>)
    ensures |r| <= |xs|
    ensures forall x :: x in r <==> x in xs && keep(x)
  {
    if xs == [] then []
    else
      var init, last := xs[..|xs| - 1], xs[|xs| - 1];
      assert forall x :: x in xs <==> x in init || x == last;
      Select(init, keep) + (if keep(last) then [last] else [])
  }

  /** A filter keeps each passing element exactly as often as it occurs and drops the others. */
  lemma {:induction false} SelectCount<T(!new)>(xs: seq<T>, keep: T -> bool, x: T)
    ensures Count(Select(xs, keep), x) == if keep(x) then Count(xs, x) else 0
  {
    if xs != [] {
      var init, last := xs[..|xs| - 1], xs[|xs| - 1];
      SelectCount(init, keep, x);
      if keep(last) {
        CountAppend(Select(init, keep), last, x);
      } else {
        assert Select(xs, keep) == Select(init, keep);
      }
    }
  }

  /** A filter every element passes keeps the sequence as it is. */
  lemma {:induction false} SelectAll<T(!new)>(xs: seq<T>, keep: T -> bool)
    requires forall x :: x in xs ==> keep(x)
    ensures Select(xs, keep) == xs
  {
    if xs != [] {
      var init := xs[..|xs| - 1];
      SelectAll(init, keep);
      assert xs == init + [xs[|xs| - 1]];
    }
  }

  /** A filter keeps order: what passes of a joined sequence is what passes of each part, in sequence. */
  lemma {:induction false} SelectAppend<T(!new)>(a: seq<T>, b: seq<T>, keep: T -> bool)
    ensures Select(a + b, keep) == Select(a, keep) + Select(b, keep)
  {
    if b == [] {
      assert a + b == a;
    } else {
      var init, last := b[..|b| - 1], b[|b| - 1];
      assert (a + b)[..|a + b| - 1] == a + init && (a + b)[|a + b| - 1] == last;
      SelectAppend(a, init, keep);
      var tail := if keep(last) then [last] else [];
      assert Select(a + b, keep) == Select(a + init, keep) + tail;
      assert Select(a, keep) + Select(init, keep) + tail == Select(a, keep) + (Select(init, keep) + tail);
    }
  }

  /** Around an element that passes, a filter splits into what passes before it, it, and what passes after it. */
  lemma SelectAround<T(!new)>(a: seq<T>, v: T, c: seq<T>, keep: T -> bool)
    requires keep(v)
    ensures Select(a + [v] + c, keep) == Select(a, keep) + [v] + Select(c, keep)
  {
    SelectAppend(a + [v], c, keep);
    SelectAppend(a, [v], keep);
    assert Select([v], keep) == Select([], keep) + [v];
  }

  /** Filtering one more element appends it when it passes. */
  lemma SelectSnoc<T(!new)>(xs: seq<T>, x: T, keep: T -> bool)
    ensures Select(xs + [x], keep) == Select(xs, keep) + (if keep(x) then [x] else [])
  {
    assert (xs + [x])[..|xs|] == xs;
  }

  /** The element a `for ... break` loop over `xs` stops at: the first passing the test. */
  function FirstWhere<T>(xs: seq<T>, test: T -> bool): (r: Option<T>)
    ensures r.None? <==> forall j :: 0 <= j < |xs| ==> !test(xs[j])
    ensures r.Some? ==> exists k :: 0 <= k < |xs| && xs[k] == r.value && test(r.value)
                                 && forall j :: 0 <= j < k ==> !test(xs[j])
  {
    if xs == [] then None
    else if test(xs[0]) then Some(xs[0])
    else
      var r := FirstWhere(xs[1..], test);
      assert forall j :: 1 <= j < |xs| ==> xs[j] == xs[1..][j - 1];
      assert r.Some? ==> exists k :: 0 <= k < |xs[1..]| && xs[1..][k] == r.value && xs[k + 1] == r.value;
      r
  }

  /** The sequence around its first passing element `v`: only failing elements come before it. */
  lemma FirstWhereAround<T(!new)>(xs: seq<T>, v: T, test: T -> bool)
    returns (pre: seq<T>, post: seq<T>)
    requires FirstWhere(xs, test) == Some(v)
    ensures xs == pre + [v] + post
    ensures forall z :: z in pre ==> !test(z)
  {
    var k :| 0 <= k < |xs| && xs[k] == v && test(v) && forall j :: 0 <= j < k ==> !test(xs[j]);
    pre, post := xs[..k], xs[k + 1..];
    assert xs == pre + [v] + post;
    forall z | z in pre
      ensures !test(z)
    {
      var j :| 0 <= j < |pre| && pre[j] == z;
      assert xs[j] == z;
    }
  }

  /** After failing elements, the first passing element is found. */
  lemma {:induction false} FirstWhereAfterMisses<T(!new)>(p: seq<T>, v: T, q: seq<T>, test: T -> bool)
    requires forall z :: z in p ==> !test(z)
    requires test(v)
    ensures FirstWhere(p + [v] + q, test) == Some(v)
  {
    if p != [] {
      assert (p + [v] + q)[0] == p[0];
      assert (p + [v] + q)[1..] == p[1..] + [v] + q;
      FirstWhereAfterMisses(p[1..], v, q, test);
    } else {
      assert p + [v] + q == [v] + q;
    }
  }

  /** `xs.reduce((acc, cur) => acc + f(cur), 0)` */
  function Sum<T>(xs: seq<T>, f: T -> int): int {
    if xs == [] then 0 else f(xs[0]) + Sum(xs[1..], f)
  }

  lemma {:induction false} SumSnoc<T>(xs: seq<T>, x: T, f: T -> int)
    ensures Sum(xs + [x], f) == Sum(xs, f) + f(x)
  {
    if xs == [] {
      assert [] + [x] == [x];
    } else {
      assert (xs + [x])[1..] == xs[1..] + [x];
      SumSnoc(xs[1..], x, f);
    }
  }
}
