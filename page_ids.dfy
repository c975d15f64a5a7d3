/** Unique page ids across a merged documentation set (`ensureUniquePageId`
    in docs/doc-engine.js). The set of ids already handed out is the state. */
module PageIds {
  import opened Text

  /** The id a page asks for: its raw id trimmed, or `page-` followed by
      random hexadecimal digits when that is blank. The random digits are a
      parameter. */
  function BaseId(rawId: string, randomHex: string): (r: string)
    ensures r != ""
    ensures Trim(rawId) != "" ==> r == Trim(rawId)
  {
    var b := Trim(rawId);
    if b == "" then "page-" + randomHex else b
  }

  /** `candidate + "-" + i`. */
  function Suffixed(candidate: string, i: nat): string {
    candidate + "-" + NatToString(i)
  }

  /** Different counters give different suffixed ids. */
  lemma SuffixedInjective(c: string, a: nat, b: nat)
    requires Suffixed(c, a) == Suffixed(c, b)
    ensures a == b
  {
    assert Suffixed(c, a)[|c| + 1..] == NatToString(a);
    assert Suffixed(c, b)[|c| + 1..] == NatToString(b);
    NatToStringInjective(a, b);
  }

  /** The suffixed ids with counters in `[lo, hi)`. */
  ghost function SuffixRange(c: string, lo: nat, hi: nat): set<string>
    decreases hi
  {
    if hi <= lo then {} else SuffixRange(c, lo, hi - 1) + {Suffixed(c, hi - 1)}
  }

  lemma {:induction false} SuffixRangeSize(c: string, lo: nat, hi: nat)
    requires lo <= hi
    ensures |SuffixRange(c, lo, hi)| == hi - lo
    ensures forall j: nat :: j >= hi ==> Suffixed(c, j) !in SuffixRange(c, lo, hi)
    decreases hi
  {
    if hi > lo {
      SuffixRangeSize(c, lo, hi - 1);
      forall j: nat | j >= hi - 1 && Suffixed(c, j) == Suffixed(c, hi - 1) ensures j == hi - 1 {
        SuffixedInjective(c, j, hi - 1);
      }
    }
  }

  lemma {:induction false} SuffixRangeIn(c: string, lo: nat, hi: nat, used: set<string>)
    requires forall j :: lo <= j < hi ==> Suffixed(c, j) in used
    ensures SuffixRange(c, lo, hi) <= used
    decreases hi
  {
    if hi > lo {
      SuffixRangeIn(c, lo, hi - 1, used);
      assert Suffixed(c, hi - 1) in used;
      assert SuffixRange(c, lo, hi) == SuffixRange(c, lo, hi - 1) + {Suffixed(c, hi - 1)};
    }
  }

  /** A set of ids that holds every suffixed id with counter in `[lo, hi)`
      has at least `hi - lo` elements: the counter search ends. */
  lemma SuffixesCounted(c: string, lo: nat, hi: nat, used: set<string>)
    requires lo <= hi
    requires forall j :: lo <= j < hi ==> Suffixed(c, j) in used
    ensures hi - lo <= |used|
  {
    SuffixRangeSize(c, lo, hi);
    SuffixRangeIn(c, lo, hi, used);
    SubsetSize(SuffixRange(c, lo, hi), used);
  }

  lemma {:induction false} SubsetSize<T>(a: set<T>, b: set<T>)
    requires a <= b
    ensures |a| <= |b|
  {
    if a != {} {
      var x :| x in a;
      SubsetSize(a - {x}, b - {x});
    }
  }

  /** `id` is `c-k` for the smallest `k >= 2` whose id is free. */
  ghost predicate FirstFreeSuffix(used: set<string>, c: string, id: string) {
    exists k: nat :: k >= 2 && id == Suffixed(c, k) && id !in used
                     && forall j :: 2 <= j < k ==> Suffixed(c, j) in used
  }

  /** The search `while (used.has(c + "-" + i)) i++` from counter `i`, as a
      function: the first free suffixed id. */
  function FirstFreeFrom(used: set<string>, c: string, i: nat): (r: string)
    requires i >= 2 && forall j :: 2 <= j < i ==> Suffixed(c, j) in used
    ensures FirstFreeSuffix(used, c, r) && |r| > |c|
    decreases |used| - (i - 2)
  {
    SuffixesCounted(c, 2, i, used);
    if Suffixed(c, i) !in used then Suffixed(c, i)
    else
      SuffixesCounted(c, 2, i + 1, used);
      FirstFreeFrom(used, c, i + 1)
  }

  /** One turn of the counter search: the counter passed a taken id, and the
      search from the next counter finds the same id. */
  lemma SuffixSearchStep(used: set<string>, c: string, i: nat, i': nat)
    requires i >= 2 && (forall j :: 2 <= j < i ==> Suffixed(c, j) in used) && Suffixed(c, i) in used
    requires FirstFreeFrom(used, c, i) == FirstFreeFrom(used, c, 2)
    requires i' == i + 1
    ensures forall j :: 2 <= j < i' ==> Suffixed(c, j) in used
    ensures FirstFreeFrom(used, c, i') == FirstFreeFrom(used, c, 2)
    ensures i' - 2 <= |used|
  {
    SuffixesCounted(c, 2, i', used);
  }

  /** There is only one first free suffix. */
  lemma FirstFreeSuffixUnique(used: set<string>, c: string, id1: string, id2: string)
    requires FirstFreeSuffix(used, c, id1) && FirstFreeSuffix(used, c, id2)
    ensures id1 == id2
  {
    var k1: nat :| k1 >= 2 && id1 == Suffixed(c, k1) && id1 !in used
                   && forall j :: 2 <= j < k1 ==> Suffixed(c, j) in used;
    var k2: nat :| k2 >= 2 && id2 == Suffixed(c, k2) && id2 !in used
                   && forall j :: 2 <= j < k2 ==> Suffixed(c, j) in used;
  }

  /** The id `ensureUniquePageId` hands out when `used` is taken: the base
      id if free; else, with a namespace, `namespace:base` if free, else its
      first free suffix; without one, the base id's first free suffix.
      A namespace of `""` stands for the absent one. */
  ghost predicate IsAssignedId(used: set<string>, rawId: string, namespace: string, randomHex: string, id: string) {
    var base := BaseId(rawId, randomHex);
    if base !in used then id == base
    else if namespace != "" then
      var candidate := Trim(namespace) + ":" + base;
      if candidate !in used then id == candidate else FirstFreeSuffix(used, candidate, id)
    else FirstFreeSuffix(used, base, id)
  }

  /** The id `ensureUniquePageId` hands out, computed. */
  function AssignedId(used: set<string>, rawId: string, namespace: string, randomHex: string): (r: string)
    ensures IsAssignedId(used, rawId, namespace, randomHex, r)
    ensures r !in used && r != ""
  {
    var base := BaseId(rawId, randomHex);
    if base !in used then base
    else if namespace != "" then
      var candidate := Trim(namespace) + ":" + base;
      if candidate !in used then candidate else FirstFreeFrom(used, candidate, 2)
    else FirstFreeFrom(used, base, 2)
  }

  /** Assigned ids are determined by the ids already taken and the request. */
  lemma AssignedIdUnique(used: set<string>, rawId: string, namespace: string, randomHex: string, id1: string, id2: string)
    requires IsAssignedId(used, rawId, namespace, randomHex, id1)
    requires IsAssignedId(used, rawId, namespace, randomHex, id2)
    ensures id1 == id2
  {
    var base := BaseId(rawId, randomHex);
    if base in used {
      if namespace != "" {
        var candidate := Trim(namespace) + ":" + base;
        if candidate in used {
          FirstFreeSuffixUnique(used, candidate, id1, id2);
        }
      } else {
        FirstFreeSuffixUnique(used, base, id1, id2);
      }
    }
  }

  /** The ids handed out so far in one load (the engine's `usedIds` set). */
  class UsedIds {
    var ids: set<string>

    constructor ()
      ensures ids == {}
    {
      ids := {};
    }

    /** `while (used.has(c + "-" + i)) i++`, then takes the id found. */
    method TakeFirstFreeSuffix(c: string) returns (id: string)
      modifies this
      ensures id == FirstFreeFrom(old(ids), c, 2)
      ensures ids == old(ids) + {id}
    {
      var i: nat := 2;
      while Suffixed(c, i) in ids
        invariant ids == old(ids)
        invariant i >= 2
        invariant forall j :: 2 <= j < i ==> Suffixed(c, j) in ids
        invariant FirstFreeFrom(ids, c, i) == FirstFreeFrom(ids, c, 2)
        invariant i - 2 <= |ids|
        decreases |ids| - (i - 2)
      {
        ghost var i0 := i;
        i := i + 1;
        SuffixSearchStep(ids, c, i0, i);
      }
      id := Suffixed(c, i);
      ids := ids + {id};
    }

    /** `ensureUniquePageId(rawId, used, namespace)`: an id not handed out
        before, which is recorded as taken. */
    method EnsureUniquePageId(rawId: string, namespace: string, randomHex: string) returns (id: string)
      modifies this
      ensures id == AssignedId(old(ids), rawId, namespace, randomHex)
      ensures ids == old(ids) + {id}
    {
      var base := Trim(rawId);
      if base == "" {
        base := "page-" + randomHex;
      }
      if base !in ids {
        ids := ids + {base};
        return base;
      }
      if namespace != "" {
        var ns := Trim(namespace);
        var candidate := ns + ":" + base;
        if candidate !in ids {
          ids := ids + {candidate};
          return candidate;
        }
        id := TakeFirstFreeSuffix(candidate);
        return;
      }
      id := TakeFirstFreeSuffix(base);
      assert base == BaseId(rawId, randomHex);
    }
  }
}
