/** Circular denial chains: crates/adns-dnssec/src/denial.rs and the two lookups
    of `covering` in crates/adns-dnssec/src/zone.rs. */
module Denial {
  import opened Order
  import opened Seqs
  import opened Names

  /** A strict open interval on a circular order; a one-element chain spans everything else. */
  predicate Covers<T(==)>(less: (T, T) -> bool, owner: T, next: T, x: T) {
    if less(owner, next) then less(owner, x) && less(x, next)
    else if less(next, owner) then less(owner, x) || less(x, next)
    else x != owner
  }

  /** The number of leading elements of a sorted sequence that are below `x`. */
  function CountBelow<T>(less: (T, T) -> bool, s: seq<T>, x: T): (n: nat)
    ensures n <= |s|
  {
    if s == [] || !less(s[0], x) then 0 else 1 + CountBelow(less, s[1..], x)
  }

  lemma {:induction false} CountBelowSplits<T(!new)>(less: (T, T) -> bool, s: seq<T>, x: T, i: nat)
    requires StrictTotal(less) && Sorted(less, s) && i < |s|
    ensures less(s[i], x) <==> i < CountBelow(less, s, x)
  {
    if i > 0 {
      assert less(s[0], s[i]);
      if less(s[0], x) {
        CountBelowSplits(less, s[1..], x, i - 1);
      }
    }
  }

  /** `range(..x).next_back().or_else(last)`: the predecessor, wrapping to the end. */
  function PredecessorIndex<T>(less: (T, T) -> bool, s: seq<T>, x: T): (k: nat)
    requires s != []
    ensures k < |s|
  {
    var n := CountBelow(less, s, x);
    if n == 0 then |s| - 1 else n - 1
  }

  function NextInChain<T>(s: seq<T>, i: nat): T
    requires i < |s|
  {
    if i + 1 == |s| then s[0] else s[i + 1]
  }

  function NextAfter<T(==)>(chain: seq<T>, x: T): T
    requires x in chain
  {
    NextInChain(chain, IndexOf(chain, x))
  }

  lemma {:induction false} IndexOfSorted<T(!new)>(less: (T, T) -> bool, s: seq<T>, i: nat)
    requires StrictTotal(less) && Sorted(less, s) && i < |s|
    ensures IndexOf(s, s[i]) == i
  {
    assert forall j :: 0 <= j < |s| && j != i ==> less(s[i], s[j]) || less(s[j], s[i]);
  }

  /** The source's `ordered[(i + 1) % ordered.len()]`. */
  lemma NextIsModular<T(!new)>(less: (T, T) -> bool, s: seq<T>, i: nat)
    requires StrictTotal(less) && Sorted(less, s) && i < |s|
    ensures NextAfter(s, s[i]) == s[(i + 1) % |s|]
  {
    hide Sorted, StrictTotal, IndexOf;
    IndexOfSorted(less, s, i);
    SuccessorModulo(i, |s|);
  }

  /** Nothing of the chain lies between a member and the next one; the last is
      followed by the first. */
  lemma NextIs<T(!new)>(less: (T, T) -> bool, s: seq<T>, x: T)
    requires StrictTotal(less) && Sorted(less, s) && x in s
    ensures var next := NextAfter(s, x);
            && next in s
            && if less(x, next) then forall m :: m in s ==> !(less(x, m) && less(m, next))
               else forall m :: m in s ==> !less(x, m) && !less(m, next)
  {
    var i := IndexOf(s, x);
    var next := NextAfter(s, x);
    forall m | m in s
      ensures if less(x, next) then !(less(x, m) && less(m, next)) else !less(x, m) && !less(m, next)
    {
      var k :| 0 <= k < |s| && s[k] == m;
      assert k < i ==> less(m, x);
      assert k > i + 1 && i + 1 < |s| ==> less(next, m);
      assert i + 1 == |s| && k > 0 ==> less(next, m);
    }
  }

  lemma SuccessorModulo(i: nat, n: nat)
    requires i < n
    ensures (i + 1) % n == if i + 1 < n then i + 1 else 0
  {
  }

  /** The intervals of a chain partition everything outside it: link `i` covers
      `x` exactly when `x` is not in the chain and `i` is its wrapped predecessor. */
  lemma ChainPartition<T(!new)>(less: (T, T) -> bool, s: seq<T>, x: T, i: nat)
    requires StrictTotal(less) && Sorted(less, s) && i < |s|
    ensures Covers(less, s[i], NextInChain(s, i), x) <==> x !in s && i == PredecessorIndex(less, s, x)
  {
    forall j: nat | j < |s| ensures less(s[j], x) <==> j < CountBelow(less, s, x) {
      CountBelowSplits(less, s, x, j);
    }
    if x in s {
      var j :| 0 <= j < |s| && s[j] == x;
      assert j == i || less(s[i], s[j]) || less(s[j], s[i]);
      if i + 1 < |s| && j != i + 1 {
        assert less(s[i + 1], s[j]) || less(s[j], s[i + 1]);
      }
    } else {
      assert forall j: nat :: j < |s| ==> (less(x, s[j]) <==> CountBelow(less, s, x) <= j);
      if i + 1 == |s| && i > 0 {
        assert less(s[0], s[i]);
      }
    }
  }

  /** One interval whose ends lie outside a subtree covers all of the subtree or none of it. */
  lemma CoversWholeSubtree(owner: Name, next: Name, top: Name, x: Name, y: Name)
    requires top <= x && top <= y && !(top <= owner) && !(top <= next)
    ensures Covers(NameLess, owner, next, x) == Covers(NameLess, owner, next, y)
  {
    SubtreeContiguous(top, x, y, owner);
    SubtreeContiguous(top, x, y, next);
  }
}
