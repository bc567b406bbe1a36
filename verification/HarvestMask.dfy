/** Harvesting masks: bit i set means unit i is fused off. */
module HarvestMask {
  /** Bit i of the mask, as `mask & (1 << i)` tests it. */
  predicate Bit(mask: nat, i: nat) {
    if i == 0 then mask % 2 == 1 else Bit(mask / 2, i - 1)
  }

  /** No bit at or above n is set. */
  predicate Fits(mask: nat, n: nat) {
    if n == 0 then mask == 0 else Fits(mask / 2, n - 1)
  }

  /** How many of the first n units are harvested. */
  function Harvested(mask: nat, n: nat): (k: nat)
    ensures k <= n
  {
    if n == 0 then 0 else Harvested(mask, n - 1) + (if Bit(mask, n - 1) then 1 else 0)
  }

  /** How many of the first n units work; for a working unit, its rank among them. */
  function Working(mask: nat, n: nat): nat {
    n - Harvested(mask, n)
  }

  /** The set bits among the first n, in ascending order. */
  function Indices(mask: nat, n: nat): seq<nat> {
    if n == 0 then [] else Indices(mask, n - 1) + (if Bit(mask, n - 1) then [n - 1] else [])
  }

  /** The mask after s right shifts. */
  function Shifted(mask: nat, s: nat): nat {
    if s == 0 then mask else Shifted(mask, s - 1) / 2
  }

  lemma {:induction false} ShiftedFromBelow(mask: nat, s: nat)
    requires s > 0
    ensures Shifted(mask, s) == Shifted(mask / 2, s - 1)
  {
    if s > 1 {
      ShiftedFromBelow(mask, s - 1);
    }
  }

  lemma {:induction false} ShiftedBit(mask: nat, s: nat)
    ensures Bit(mask, s) == (Shifted(mask, s) % 2 == 1)
    ensures Fits(mask, s) <==> Shifted(mask, s) == 0
  {
    if s > 0 {
      ShiftedBit(mask / 2, s - 1);
      ShiftedFromBelow(mask, s);
    }
  }

  lemma {:induction false} ZeroHasNoBits(i: nat)
    ensures !Bit(0, i)
  {
    if i > 0 {
      ZeroHasNoBits(i - 1);
    }
  }

  lemma {:induction false} ZeroHarvestsNothing(n: nat)
    ensures Harvested(0, n) == 0 && Working(0, n) == n
  {
    if n > 0 {
      ZeroHarvestsNothing(n - 1);
      ZeroHasNoBits(n - 1);
    }
  }

  lemma {:induction false} FitsMeansNoHighBits(mask: nat, n: nat, i: nat)
    requires Fits(mask, n) && n <= i
    ensures !Bit(mask, i)
  {
    if n == 0 {
      ZeroHasNoBits(i);
    } else {
      FitsMeansNoHighBits(mask / 2, n - 1, i - 1);
    }
  }

  /** Beyond the mask's own width the counts stop changing. */
  lemma {:induction false} HarvestedBeyond(mask: nat, n: nat, m: nat)
    requires Fits(mask, n) && n <= m
    ensures Harvested(mask, m) == Harvested(mask, n)
    ensures Indices(mask, m) == Indices(mask, n)
  {
    if n < m {
      HarvestedBeyond(mask, n, m - 1);
      FitsMeansNoHighBits(mask, n, m - 1);
    }
  }

  lemma {:induction false} HarvestedMonotone(mask: nat, i: nat, j: nat)
    requires i <= j
    ensures Harvested(mask, i) <= Harvested(mask, j) <= Harvested(mask, i) + (j - i)
    ensures Working(mask, i) <= Working(mask, j)
  {
    if i < j {
      HarvestedMonotone(mask, i, j - 1);
    }
  }

  /** Working units keep their order and their ranks are distinct. */
  lemma WorkingRankOrder(mask: nat, i: nat, j: nat)
    requires i < j && !Bit(mask, i)
    ensures Working(mask, i) < Working(mask, j)
  {
    HarvestedMonotone(mask, i + 1, j);
    assert Harvested(mask, i + 1) == Harvested(mask, i);
  }

  lemma HarvestedRankOrder(mask: nat, i: nat, j: nat)
    requires i < j && Bit(mask, i)
    ensures Harvested(mask, i) < Harvested(mask, j)
  {
    HarvestedMonotone(mask, i + 1, j);
    assert Harvested(mask, i + 1) == Harvested(mask, i) + 1;
  }

  /** Every rank below the number of working units is some working unit's. */
  lemma {:induction false} UnitOfRank(mask: nat, n: nat, r: nat) returns (i: nat)
    requires r < Working(mask, n)
    ensures i < n && !Bit(mask, i) && Working(mask, i) == r
  {
    if !Bit(mask, n - 1) && Working(mask, n - 1) == r {
      i := n - 1;
    } else {
      i := UnitOfRank(mask, n - 1, r);
    }
  }

  lemma {:induction false} IndicesAreTheSetBits(mask: nat, n: nat)
    ensures |Indices(mask, n)| == Harvested(mask, n)
    ensures forall i :: i in Indices(mask, n) <==> 0 <= i < n && Bit(mask, i)
    ensures forall a, b :: 0 <= a < b < |Indices(mask, n)| ==> Indices(mask, n)[a] < Indices(mask, n)[b]
  {
    if n > 0 {
      IndicesAreTheSetBits(mask, n - 1);
      var before := Indices(mask, n - 1);
      assert forall a :: 0 <= a < |before| ==> before[a] in before;
    }
  }

  /** Any two widths the mask fits see the same bits. */
  lemma SameAtAnyFit(mask: nat, n: nat, m: nat)
    requires Fits(mask, n) && Fits(mask, m)
    ensures Harvested(mask, n) == Harvested(mask, m) && Indices(mask, n) == Indices(mask, m)
  {
    if n <= m {
      HarvestedBeyond(mask, n, m);
    } else {
      HarvestedBeyond(mask, m, n);
    }
  }

  lemma {:induction false} FitsAbove(mask: nat, n: nat)
    requires mask <= n
    ensures Fits(mask, n)
  {
    if n > 0 {
      FitsAbove(mask / 2, n - 1);
    }
  }

  /** How many units a mask harvests, wherever they are. */
  function CountBits(mask: nat): nat {
    Harvested(mask, mask)
  }

  lemma {:induction false} MaskFitsItself(mask: nat)
    ensures Fits(mask, mask)
    ensures forall n :: Fits(mask, n) ==> CountBits(mask) == Harvested(mask, n)
  {
    FitsAbove(mask, mask);
    forall n: nat | Fits(mask, n)
      ensures CountBits(mask) == Harvested(mask, n)
    {
      SameAtAnyFit(mask, n, mask);
    }
  }

  /** Counts the one bits: on a mask that fits n units, the harvested ones among them. */
  method GetNumHarvested(harvestingMask: nat) returns (num: nat)
    ensures forall n :: Fits(harvestingMask, n) ==> num == Harvested(harvestingMask, n)
  {
    num := 0;
    var mask := harvestingMask;
    ghost var shift: nat := 0;
    while mask > 0
      invariant mask == Shifted(harvestingMask, shift)
      invariant num == Harvested(harvestingMask, shift)
    {
      ShiftedBit(harvestingMask, shift);
      num := num + mask % 2;
      mask := mask / 2;
      shift := shift + 1;
    }
    ShiftedBit(harvestingMask, shift);
    forall n: nat | Fits(harvestingMask, n)
      ensures num == Harvested(harvestingMask, n)
    {
      SameAtAnyFit(harvestingMask, n, shift);
    }
  }

  /** Lists the one bits from the lowest up. */
  method GetHarvestedIndices(harvestingMask: nat) returns (indices: seq<nat>)
    ensures forall n :: Fits(harvestingMask, n) ==> indices == Indices(harvestingMask, n)
  {
    indices := [];
    var mask := harvestingMask;
    var index := 0;
    while mask > 0
      invariant mask == Shifted(harvestingMask, index)
      invariant indices == Indices(harvestingMask, index)
    {
      ShiftedBit(harvestingMask, index);
      if mask % 2 == 1 {
        indices := indices + [index];
      }
      mask := mask / 2;
      index := index + 1;
    }
    ShiftedBit(harvestingMask, index);
    forall n: nat | Fits(harvestingMask, n)
      ensures indices == Indices(harvestingMask, n)
    {
      SameAtAnyFit(harvestingMask, n, index);
    }
  }
}
