/** `Array.prototype.sort` with a comparator: a stable sort. A comparator `cmp`
    is represented by `le(a, b) == (cmp(a, b) <= 0)`. */
module Sorting {

  ghost predicate TotalPreorder<T(!new)>(le: (T, T) -> bool) {
    && (forall a, b :: le(a, b) || le(b, a))
    && (forall a, b, c :: le(a, b) && le(b, c) ==> le(a, c))
  }

  predicate Sorted<T>(xs: seq<T>, le: (T, T) -> bool) {
    forall i, j :: 0 <= i < j < |xs| ==> le(xs[i], xs[j])
  }

  /** Inserts `x` after the last element of `ys` that may precede it. */
  function Insert<T>(ys: seq<T>, x: T, le: (T, T) -> bool): (r: seq<T>)
    ensures multiset(r) == multiset(ys) + multiset{x}
    ensures |r| == |ys| + 1
  {
    if ys == [] then [x]
    else if le(ys[|ys| - 1], x) then ys + [x]
    else
      assert ys == ys[..|ys| - 1] + [ys[|ys| - 1]];
      Insert(ys[..|ys| - 1], x, le) + [ys[|ys| - 1]]
  }

  /** Insertion sort, taking the input's elements from left to right. */
  function SortBy<T>(xs: seq<T>, le: (T, T) -> bool): (r: seq<T>)
    ensures multiset(r) == multiset(xs)
    ensures |r| == |xs|
  {
    if xs == [] then []
    else
      assert xs == xs[..|xs| - 1] + [xs[|xs| - 1]];
      Insert(SortBy(xs[..|xs| - 1], le), xs[|xs| - 1], le)
  }

  lemma {:induction false} InsertSorted<T(!new)>(ys: seq<T>, x: T, le: (T, T) -> bool)
    requires TotalPreorder(le) && Sorted(ys, le)
    ensures Sorted(Insert(ys, x, le), le)
  {
    if ys != [] && !le(ys[|ys| - 1], x) {
      var init, last := ys[..|ys| - 1], ys[|ys| - 1];
      InsertSorted(init, x, le);
      var head := Insert(init, x, le);
      forall i | 0 <= i < |head| ensures le(head[i], last) {
        assert head[i] in multiset(head);
        if head[i] != x {
          assert head[i] in multiset(init);
          var k :| 0 <= k < |init| && init[k] == head[i];
          assert ys[k] == head[i];
        }
      }
    }
  }

  /** The sort returns a sorted permutation of its input. */
  lemma {:induction false} SortBySorted<T(!new)>(xs: seq<T>, le: (T, T) -> bool)
    requires TotalPreorder(le)
    ensures Sorted(SortBy(xs, le), le)
  {
    if xs != [] {
      SortBySorted(xs[..|xs| - 1], le);
      InsertSorted(SortBy(xs[..|xs| - 1], le), xs[|xs| - 1], le);
    }
  }

  predicate Equivalent<T>(a: T, b: T, le: (T, T) -> bool) {
    le(a, b) && le(b, a)
  }

  /** The elements of `xs` that the comparator ranks equal to `z`, in order. */
  function EquivalentTo<T>(xs: seq<T>, z: T, le: (T, T) -> bool): seq<T> {
    if xs == [] then []
    else EquivalentTo(xs[..|xs| - 1], z, le)
         + (if Equivalent(xs[|xs| - 1], z, le) then [xs[|xs| - 1]] else [])
  }

  lemma EquivalentToSnoc<T>(xs: seq<T>, y: T, z: T, le: (T, T) -> bool)
    ensures EquivalentTo(xs + [y], z, le)
            == EquivalentTo(xs, z, le) + (if Equivalent(y, z, le) then [y] else [])
  {
    assert (xs + [y])[..|xs|] == xs;
  }

  lemma {:induction false} InsertStable<T(!new)>(ys: seq<T>, x: T, z: T, le: (T, T) -> bool)
    requires TotalPreorder(le)
    ensures EquivalentTo(Insert(ys, x, le), z, le)
            == EquivalentTo(ys, z, le) + (if Equivalent(x, z, le) then [x] else [])
  {
    if ys == [] {
      EquivalentToSnoc([], x, z, le);
    } else if le(ys[|ys| - 1], x) {
      EquivalentToSnoc(ys, x, z, le);
    } else {
      var init, last := ys[..|ys| - 1], ys[|ys| - 1];
      assert ys == init + [last];
      InsertStable(init, x, z, le);
      var head := Insert(init, x, le);
      assert Insert(ys, x, le) == head + [last];
      EquivalentToSnoc(head, last, z, le);
      EquivalentToSnoc(init, last, z, le);
      NotBothEquivalent(x, last, z, le);
      SwapEmpty(EquivalentTo(init, z, le), if Equivalent(x, z, le) then [x] else [],
                if Equivalent(last, z, le) then [last] else []);
    }
  }

  /** An element that must follow `x` is not ranked equal to `z` when `x` is. */
  lemma NotBothEquivalent<T(!new)>(x: T, last: T, z: T, le: (T, T) -> bool)
    requires TotalPreorder(le) && !le(last, x)
    ensures !(Equivalent(x, z, le) && Equivalent(last, z, le))
  {
    if Equivalent(x, z, le) && Equivalent(last, z, le) {
      assert false;
    }
  }

  lemma SwapEmpty<T>(a: seq<T>, p: seq<T>, q: seq<T>)
    requires p == [] || q == []
    ensures a + p + q == a + q + p
  {
    if p == [] { assert a + p == a; assert a + q + p == a + q; } else { assert a + q == a; assert a + p + q == a + p; }
  }

  /** Stability: the elements ranked equal to any `z` keep their input order. */
  lemma {:induction false} SortByStable<T(!new)>(xs: seq<T>, z: T, le: (T, T) -> bool)
    requires TotalPreorder(le)
    ensures EquivalentTo(SortBy(xs, le), z, le) == EquivalentTo(xs, z, le)
  {
    if xs != [] {
      SortByStable(xs[..|xs| - 1], z, le);
      InsertStable(SortBy(xs[..|xs| - 1], le), xs[|xs| - 1], z, le);
    }
  }
}
