/** The layout of simulated TLB windows: pools of indices, and the addresses of their windows. */
module TlbPools {
  import opened Modular

  datatype SizeClass = SizeClass(baseIndex: nat, count: nat, size: nat, inBar4: bool)

  predicate InPool(c: SizeClass, idx: int) {
    c.baseIndex <= idx < c.baseIndex + c.count
  }

  /** No index belongs to two pools. */
  ghost predicate DisjointPools(layout: seq<SizeClass>) {
    forall p, q, idx :: 0 <= p < |layout| && 0 <= q < |layout| && InPool(layout[p], idx) && InPool(layout[q], idx) ==>
      p == q
  }

  /** The first pool from p on that owns the index; the number of pools if none does. */
  function PoolOf(layout: seq<SizeClass>, idx: int, p: nat): (r: nat)
    requires p <= |layout|
    ensures p <= r <= |layout|
    ensures r < |layout| ==> InPool(layout[r], idx)
    ensures forall q :: p <= q < r ==> !InPool(layout[q], idx)
    decreases |layout| - p
  {
    if p == |layout| || InPool(layout[p], idx) then p else PoolOf(layout, idx, p + 1)
  }

  lemma PoolIsOwner(layout: seq<SizeClass>, idx: int, p: nat)
    requires DisjointPools(layout) && p < |layout|
    ensures InPool(layout[p], idx) <==> PoolOf(layout, idx, 0) == p
  {
  }

  function PoolBytes(c: SizeClass): nat {
    c.count * c.size
  }

  /** Bytes of the BAR0 pools before pool p. */
  function RegionOffset(layout: seq<SizeClass>, p: nat): nat
    requires p <= |layout|
  {
    if p == 0 then 0
    else RegionOffset(layout, p - 1) + if layout[p - 1].inBar4 then 0 else PoolBytes(layout[p - 1])
  }

  function SlotOffset(slot: nat, size: nat): nat {
    slot * size
  }

  /** Slots follow each other inside their pool. */
  lemma SlotsFollow(c: SizeClass, i: nat, j: nat)
    requires i < j <= c.count
    ensures SlotOffset(i, c.size) + c.size <= SlotOffset(j, c.size) <= PoolBytes(c)
  {
    assert SlotOffset(j, c.size) == SlotOffset(i, c.size) + (j - i) * c.size;
    MulAtLeast(j - i, c.size);
    if j < c.count {
      assert PoolBytes(c) == SlotOffset(j, c.size) + (c.count - j) * c.size;
    }
  }

  function WindowAddress(layout: seq<SizeClass>, bar0: nat, bar4: nat, p: nat, slot: nat): nat
    requires p < |layout|
  {
    if layout[p].inBar4 then bar4 + SlotOffset(slot, layout[p].size)
    else bar0 + RegionOffset(layout, p) + SlotOffset(slot, layout[p].size)
  }

  lemma {:induction false} RegionsFollow(layout: seq<SizeClass>, p: nat, q: nat)
    requires p < q <= |layout|
    ensures RegionOffset(layout, p) + (if layout[p].inBar4 then 0 else PoolBytes(layout[p])) <= RegionOffset(layout, q)
  {
    if p < q - 1 {
      RegionsFollow(layout, p, q - 1);
    }
  }

  /** The BAR0 windows and the windows of each BAR4 pool stay out of each other's region. */
  ghost predicate BarsApart(layout: seq<SizeClass>, bar0: nat, bar4: nat) {
    forall p :: 0 <= p < |layout| && layout[p].inBar4 ==>
      bar0 + RegionOffset(layout, |layout|) <= bar4 || bar4 + PoolBytes(layout[p]) <= bar0
  }

  ghost predicate Apart(a: nat, sizeA: nat, b: nat, sizeB: nat) {
    a + sizeA <= b || b + sizeB <= a
  }

  predicate IsWindow(layout: seq<SizeClass>, p: nat, slot: nat) {
    p < |layout| && slot < layout[p].count
  }

  ghost predicate WindowsApart(layout: seq<SizeClass>, bar0: nat, bar4: nat, p: nat, i: nat, q: nat, j: nat)
    requires IsWindow(layout, p, i) && IsWindow(layout, q, j)
  {
    Apart(WindowAddress(layout, bar0, bar4, p, i), layout[p].size,
          WindowAddress(layout, bar0, bar4, q, j), layout[q].size)
  }

  ghost predicate AllWindowsApart(layout: seq<SizeClass>, bar0: nat, bar4: nat) {
    forall p, i, q, j :: IsWindow(layout, p, i) && IsWindow(layout, q, j) && (p, i) != (q, j) ==>
      WindowsApart(layout, bar0, bar4, p, i, q, j)
  }

  /** Two windows that are not both in BAR4, or are in one pool. */
  lemma TwoWindowsApart(layout: seq<SizeClass>, bar0: nat, bar4: nat, p: nat, i: nat, q: nat, j: nat)
    requires IsWindow(layout, p, i) && IsWindow(layout, q, j) && (p < q || (p == q && i < j))
    requires BarsApart(layout, bar0, bar4) && (p == q || !layout[p].inBar4 || !layout[q].inBar4)
    ensures WindowsApart(layout, bar0, bar4, p, i, q, j)
  {
    SlotsFollow(layout[p], i, i + 1);
    SlotsFollow(layout[q], j, j + 1);
    if p == q {
      SlotsFollow(layout[p], i, j);
    } else {
      RegionsFollow(layout, p, q);
      RegionsFollow(layout, q, |layout|);
      RegionsFollow(layout, p, |layout|);
    }
  }

  /** With nonempty pools in disjoint BAR regions, windows never overlap exactly if at most one pool is in BAR4. */
  lemma WindowsApartIff(layout: seq<SizeClass>, bar0: nat, bar4: nat)
    requires BarsApart(layout, bar0, bar4)
    requires forall p :: 0 <= p < |layout| ==> layout[p].count > 0 && layout[p].size > 0
    ensures AllWindowsApart(layout, bar0, bar4) <==>
            forall p, q :: 0 <= p < q < |layout| ==> !layout[p].inBar4 || !layout[q].inBar4
  {
    if AllWindowsApart(layout, bar0, bar4) {
      forall p, q | 0 <= p < q < |layout|
        ensures !layout[p].inBar4 || !layout[q].inBar4
      {
        assert IsWindow(layout, p, 0) && IsWindow(layout, q, 0);
        assert WindowsApart(layout, bar0, bar4, p, 0, q, 0);
      }
    }
    if forall p, q :: 0 <= p < q < |layout| ==> !layout[p].inBar4 || !layout[q].inBar4 {
      forall p, i, q, j | IsWindow(layout, p, i) && IsWindow(layout, q, j) && (p, i) != (q, j)
        ensures WindowsApart(layout, bar0, bar4, p, i, q, j)
      {
        if p < q || (p == q && i < j) {
          TwoWindowsApart(layout, bar0, bar4, p, i, q, j);
        } else {
          TwoWindowsApart(layout, bar0, bar4, q, j, p, i);
        }
      }
    }
  }
}
