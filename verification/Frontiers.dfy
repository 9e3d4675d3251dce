/**
 Causal frontiers: one sequence number per stream slot, merged entry by entry.
 Slot 1024 belongs to the legacy default stream.
 */
module Frontiers {
  const DEFAULT_SLOT: nat := 1024
  const SLOTS: nat := 1025

  type Frontier = f: seq<nat> | |f| == SLOTS witness seq(1025, i => 0)

  function Zero(): (f: Frontier)
    ensures forall i :: 0 <= i < SLOTS ==> f[i] == 0
  {
    seq(SLOTS, i => 0)
  }

  /** Entry-wise maximum. */
  function Merge(a: Frontier, b: Frontier): (m: Frontier)
    ensures forall i :: 0 <= i < SLOTS ==> m[i] == if b[i] > a[i] then b[i] else a[i]
  {
    seq(SLOTS, i requires 0 <= i < SLOTS => if b[i] > a[i] then b[i] else a[i])
  }

  predicate Leq(a: Frontier, b: Frontier)
  {
    forall i :: 0 <= i < SLOTS ==> a[i] <= b[i]
  }

  /** The merge loop: an entry is overwritten only where the source is ahead. */
  method MergeLoop(dst: Frontier, src: Frontier) returns (m: Frontier)
    ensures m == Merge(dst, src)
  {
    m := dst;
    for i := 0 to SLOTS
      invariant forall j :: 0 <= j < i ==> m[j] == Merge(dst, src)[j]
      invariant forall j :: i <= j < SLOTS ==> m[j] == dst[j]
    {
      if src[i] > m[i] {
        m := m[i := src[i]];
      }
    }
  }

  /** Merging is the least upper bound. */
  lemma MergeLub(a: Frontier, b: Frontier, c: Frontier)
    ensures Leq(a, Merge(a, b)) && Leq(b, Merge(a, b))
    ensures Leq(a, c) && Leq(b, c) <==> Leq(Merge(a, b), c)
  {
    if Leq(Merge(a, b), c) {
      forall i | 0 <= i < SLOTS
        ensures a[i] <= c[i] && b[i] <= c[i]
      {
        assert Merge(a, b)[i] <= c[i];
      }
    }
  }
}
