/** Handing out simulated TLB windows, smallest adequate pool first. */
module SimulationTlbAllocator {
  import opened Wrappers
  import opened TlbPools

  ghost predicate SmallestFirst(layout: seq<SizeClass>) {
    forall p, q :: 0 <= p < q < |layout| ==> layout[p].size <= layout[q].size
  }

  class SimulationTlbAllocator {
    const layout: seq<SizeClass>
    const bar0: nat
    const bar4: nat
    var taken: seq<seq<bool>>

    ghost predicate Valid()
      reads this
    {
      && DisjointPools(layout) && |taken| == |layout|
      && forall p :: 0 <= p < |layout| ==> |taken[p]| == layout[p].count
    }

    /** An index that is handed out and not yet returned. */
    ghost predicate IsLive(idx: int)
      requires Valid()
      reads this
    {
      var p := PoolOf(layout, idx, 0);
      p < |layout| && taken[p][idx - layout[p].baseIndex]
    }

    predicate Full(p: nat)
      requires p < |taken|
      reads this
    {
      forall i :: 0 <= i < |taken[p]| ==> taken[p][i]
    }

    constructor (layout: seq<SizeClass>, bar0: nat, bar4: nat)
      requires DisjointPools(layout)
      ensures Valid() && this.layout == layout && this.bar0 == bar0 && this.bar4 == bar4
      ensures forall idx :: !IsLive(idx)
    {
      this.layout, this.bar0, this.bar4 := layout, bar0, bar4;
      taken := seq(|layout|, p requires 0 <= p < |layout| => seq(layout[p].count, i => false));
    }

    /** Marks one slot; no other index is affected. */
    method SetSlot(p: nat, i: nat, value: bool)
      requires Valid() && p < |layout| && i < layout[p].count
      modifies this
      ensures Valid() && PoolOf(layout, layout[p].baseIndex + i, 0) == p
      ensures forall idx :: IsLive(idx) <==> if idx == layout[p].baseIndex + i then value else old(IsLive(idx))
    {
      PoolIsOwner(layout, layout[p].baseIndex + i, p);
      taken := taken[p := taken[p][i := value]];
    }

    /** First free slot of a pool. */
    method FreeSlot(p: nat) returns (i: nat)
      requires Valid() && p < |layout|
      ensures i <= layout[p].count && (i < layout[p].count ==> !taken[p][i])
      ensures i == layout[p].count <==> Full(p)
    {
      i := 0;
      while i < layout[p].count && taken[p][i]
        invariant i <= layout[p].count && forall j :: 0 <= j < i ==> taken[p][j]
      {
        i := i + 1;
      }
    }

    /** -1 exactly when every adequate pool is full; otherwise a free index of the first adequate pool with room. */
    method AllocateTlbIndex(size: nat) returns (r: int)
      requires Valid()
      modifies this
      ensures Valid()
      ensures r == -1 <==> forall p :: 0 <= p < |layout| && size <= layout[p].size ==> old(Full(p))
      ensures r == -1 ==> forall idx :: IsLive(idx) <==> old(IsLive(idx))
      ensures r != -1 ==>
                && !old(IsLive(r)) && (forall idx :: IsLive(idx) <==> idx == r || old(IsLive(idx)))
                && var p := PoolOf(layout, r, 0);
                   && p < |layout| && size <= layout[p].size
                   && (forall q :: 0 <= q < p && size <= layout[q].size ==> old(Full(q)))
      ensures r != -1 && SmallestFirst(layout) ==>
                forall q :: 0 <= q < |layout| && size <= layout[q].size && !old(Full(q)) ==>
                  layout[PoolOf(layout, r, 0)].size <= layout[q].size
    {
      for p := 0 to |layout|
        invariant Valid() && taken == old(taken)
        invariant forall q :: 0 <= q < p && size <= layout[q].size ==> Full(q)
      {
        if size <= layout[p].size {
          var i := FreeSlot(p);
          if i < layout[p].count {
            SetSlot(p, i, true);
            return layout[p].baseIndex + i;
          }
        }
      }
      r := -1;
    }

    /** Frees the index if it belongs to a pool; any other index is ignored. */
    method DeallocateTlbIndex(idx: int)
      requires Valid()
      modifies this
      ensures Valid() && forall other :: IsLive(other) <==> other != idx && old(IsLive(other))
    {
      var p := FindPool(idx);
      if p < |layout| {
        SetSlot(p, idx - layout[p].baseIndex, false);
      }
    }

    method FindPool(idx: int) returns (p: nat)
      ensures p == PoolOf(layout, idx, 0)
    {
      if idx < 0 {
        return |layout|;
      }
      p := 0;
      while p < |layout| && !InPool(layout[p], idx)
        invariant p <= |layout| && PoolOf(layout, idx, 0) == PoolOf(layout, idx, p)
      {
        p := p + 1;
      }
    }

    method GetTlbSizeFromIndex(idx: int) returns (r: Option<nat>)
      ensures r.None? <==> forall p :: 0 <= p < |layout| ==> !InPool(layout[p], idx)
      ensures r.Some? ==> r.value == layout[PoolOf(layout, idx, 0)].size
    {
      var p := FindPool(idx);
      r := if p < |layout| then Some(layout[p].size) else None;
    }

    /** The sum over the earlier BAR0 pools gives the window's address. */
    method GetTlbAddressFromIndex(idx: int) returns (r: Option<nat>)
      ensures r.None? <==> forall p :: 0 <= p < |layout| ==> !InPool(layout[p], idx)
      ensures r.Some? ==>
                var p := PoolOf(layout, idx, 0);
                r.value == WindowAddress(layout, bar0, bar4, p, idx - layout[p].baseIndex)
    {
      var p := FindPool(idx);
      if p == |layout| {
        return None;
      }
      var slot := idx - layout[p].baseIndex;
      if layout[p].inBar4 {
        return Some(bar4 + SlotOffset(slot, layout[p].size));
      }
      var regionOffset := 0;
      for q := 0 to p
        invariant regionOffset == RegionOffset(layout, q)
      {
        if !layout[q].inBar4 {
          regionOffset := regionOffset + PoolBytes(layout[q]);
        }
      }
      r := Some(bar0 + regionOffset + SlotOffset(slot, layout[p].size));
    }
  }

  /** Distinct valid indices have windows that do not overlap. */
  lemma IndicesHaveOwnWindows(layout: seq<SizeClass>, bar0: nat, bar4: nat, a: int, b: int)
    requires DisjointPools(layout) && AllWindowsApart(layout, bar0, bar4) && a != b
    requires PoolOf(layout, a, 0) < |layout| && PoolOf(layout, b, 0) < |layout|
    ensures var p, q := PoolOf(layout, a, 0), PoolOf(layout, b, 0);
            WindowsApart(layout, bar0, bar4, p, a - layout[p].baseIndex, q, b - layout[q].baseIndex)
  {
  }
}
