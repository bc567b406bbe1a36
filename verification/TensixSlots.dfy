/**
 Which translated slot each Tensix row (Wormhole) or column (Blackhole) takes: working ones
 first and in order, harvested ones in the slots that remain at the end.
 */
module TensixSlots {
  import opened HarvestMask

  /** Die order of columns, ties broken by position. */
  predicate Before(keys: seq<nat>, a: nat, b: nat)
    requires a < |keys| && b < |keys|
  {
    keys[a] < keys[b] || (keys[a] == keys[b] && a < b)
  }

  predicate InRange(keys: seq<nat>, cols: seq<nat>) {
    forall i :: 0 <= i < |cols| ==> cols[i] < |keys|
  }

  function Insert(keys: seq<nat>, cols: seq<nat>, x: nat): (r: seq<nat>)
    requires InRange(keys, cols) && x < |keys|
    ensures InRange(keys, r)
  {
    if cols == [] then [x]
    else if Before(keys, x, cols[0]) then [x] + cols
    else [cols[0]] + Insert(keys, cols[1..], x)
  }

  /** The columns in die order. */
  function Sort(keys: seq<nat>, cols: seq<nat>): (r: seq<nat>)
    requires InRange(keys, cols)
    ensures InRange(keys, r)
  {
    if cols == [] then [] else Insert(keys, Sort(keys, cols[1..]), cols[0])
  }

  ghost predicate Ascending(keys: seq<nat>, cols: seq<nat>)
    requires InRange(keys, cols)
  {
    forall i, j :: 0 <= i < j < |cols| ==> Before(keys, cols[i], cols[j])
  }

  lemma {:induction false} InsertSorts(keys: seq<nat>, cols: seq<nat>, x: nat)
    requires InRange(keys, cols) && x < |keys| && Ascending(keys, cols) && x !in cols
    ensures Ascending(keys, Insert(keys, cols, x))
    ensures |Insert(keys, cols, x)| == |cols| + 1
    ensures forall c :: c in Insert(keys, cols, x) <==> c == x || c in cols
  {
    if cols != [] {
      assert cols == [cols[0]] + cols[1..];
      if !Before(keys, x, cols[0]) {
        InsertSorts(keys, cols[1..], x);
        var r := Insert(keys, cols[1..], x);
        forall j | 0 <= j < |r|
          ensures Before(keys, cols[0], r[j])
        {
          assert r[j] in r;
        }
      }
    }
  }

  lemma {:induction false} SortSorts(keys: seq<nat>, cols: seq<nat>)
    requires InRange(keys, cols) && forall i, j :: 0 <= i < j < |cols| ==> cols[i] != cols[j]
    ensures Ascending(keys, Sort(keys, cols))
    ensures |Sort(keys, cols)| == |cols|
    ensures forall c :: c in Sort(keys, cols) <==> c in cols
  {
    if cols != [] {
      assert cols == [cols[0]] + cols[1..];
      SortSorts(keys, cols[1..]);
      InsertSorts(keys, Sort(keys, cols[1..]), cols[0]);
    }
  }

  function Position(s: seq<nat>, x: nat): (i: nat)
    requires x in s
    ensures i < |s| && s[i] == x
  {
    if s[0] == x then 0 else 1 + Position(s[1..], x)
  }

  lemma {:induction false} PositionOf(s: seq<nat>, i: nat)
    requires i < |s| && forall a, b :: 0 <= a < b < |s| ==> s[a] != s[b]
    ensures Position(s, s[i]) == i
  {
    if i > 0 {
      PositionOf(s[1..], i - 1);
    }
  }

  lemma AscendingPosition(keys: seq<nat>, cols: seq<nat>, i: nat)
    requires InRange(keys, cols) && Ascending(keys, cols) && i < |cols|
    ensures Position(cols, cols[i]) == i
  {
    forall a, b | 0 <= a < b < |cols|
      ensures cols[a] != cols[b]
    {
      assert Before(keys, cols[a], cols[b]);
    }
    PositionOf(cols, i);
  }

  /** Harvested columns in die order; `keys[x]` is column x's index on the die. */
  function DieOrder(mask: nat, keys: seq<nat>): (r: seq<nat>)
    ensures InRange(keys, r)
  {
    IndicesAreTheSetBits(mask, |keys|);
    assert forall i :: 0 <= i < |Indices(mask, |keys|)| ==> Indices(mask, |keys|)[i] in Indices(mask, |keys|);
    Sort(keys, Indices(mask, |keys|))
  }

  lemma DieOrderIsSortedHarvest(mask: nat, keys: seq<nat>)
    ensures Ascending(keys, DieOrder(mask, keys))
    ensures |DieOrder(mask, keys)| == Harvested(mask, |keys|)
    ensures forall x :: x in DieOrder(mask, keys) <==> 0 <= x < |keys| && Bit(mask, x)
  {
    IndicesAreTheSetBits(mask, |keys|);
    assert forall i :: 0 <= i < |Indices(mask, |keys|)| ==> Indices(mask, |keys|)[i] in Indices(mask, |keys|);
    SortSorts(keys, Indices(mask, |keys|));
  }

  lemma WorkingBelow(mask: nat, x: nat, n: nat)
    requires x < n
    ensures Working(mask, x) <= x
    ensures !Bit(mask, x) ==> Working(mask, x) < Working(mask, n)
    ensures Bit(mask, x) ==> Harvested(mask, x) < Harvested(mask, n)
  {
    if Bit(mask, x) {
      HarvestedRankOrder(mask, x, n);
    } else {
      WorkingRankOrder(mask, x, n);
    }
  }

  /** Blackhole: working columns by rank, harvested ones from the right edge in die order. */
  function ColumnSlot(mask: nat, keys: seq<nat>, x: nat): (s: nat)
    requires x < |keys|
    ensures s < |keys|
  {
    DieOrderIsSortedHarvest(mask, keys);
    WorkingBelow(mask, x, |keys|);
    if !Bit(mask, x) then Working(mask, x) else |keys| - 1 - Position(DieOrder(mask, keys), x)
  }

  /**
   The slots are a permutation of the columns: rank r takes slot r, and the i-th harvested
   column in die order takes the i-th slot from the right edge.
   */
  lemma ColumnSlotsPermute(mask: nat, keys: seq<nat>, x: nat, y: nat)
    requires x < |keys| && y < |keys|
    ensures ColumnSlot(mask, keys, x) == ColumnSlot(mask, keys, y) ==> x == y
    ensures !Bit(mask, x) <==> ColumnSlot(mask, keys, x) < Working(mask, |keys|)
    ensures !Bit(mask, x) ==> ColumnSlot(mask, keys, x) == Working(mask, x)
    ensures Bit(mask, x) && Bit(mask, y) && Before(keys, x, y) ==> ColumnSlot(mask, keys, x) > ColumnSlot(mask, keys, y)
  {
    DieOrderIsSortedHarvest(mask, keys);
    WorkingBelow(mask, x, |keys|);
    WorkingBelow(mask, y, |keys|);
    if !Bit(mask, x) && !Bit(mask, y) {
      if x < y {
        WorkingRankOrder(mask, x, y);
      } else if y < x {
        WorkingRankOrder(mask, y, x);
      }
    }
  }

  ghost function Members(cols: seq<nat>): set<nat> {
    set c | c in cols
  }

  lemma {:induction false} DistinctCount(cols: seq<nat>)
    requires forall i, j :: 0 <= i < j < |cols| ==> cols[i] != cols[j]
    ensures |Members(cols)| == |cols|
  {
    if cols == [] {
      assert Members(cols) == {};
    } else {
      var last, rest := cols[|cols| - 1], cols[..|cols| - 1];
      DistinctCount(rest);
      assert Members(cols) == Members(rest) + {last};
      assert last !in Members(rest);
    }
  }

  /** The harvested columns that come before x in die order. */
  ghost function HarvestedBefore(mask: nat, keys: seq<nat>, x: nat): set<nat>
    requires x < |keys|
  {
    set c: nat | c < |keys| && Bit(mask, c) && Before(keys, c, x)
  }

  lemma PositionCounts(mask: nat, keys: seq<nat>, cols: seq<nat>, x: nat)
    requires InRange(keys, cols) && Ascending(keys, cols) && x in cols
    requires forall c: nat :: c in cols <==> c < |keys| && Bit(mask, c)
    ensures Position(cols, x) == |HarvestedBefore(mask, keys, x)|
  {
    var p := Position(cols, x);
    forall i, j | 0 <= i < j < p
      ensures cols[..p][i] != cols[..p][j]
    {
      assert Before(keys, cols[i], cols[j]);
    }
    DistinctCount(cols[..p]);
    forall c: nat
      ensures c in cols[..p] <==> c in HarvestedBefore(mask, keys, x)
    {
      if c in cols {
        var i :| 0 <= i < |cols| && cols[i] == c;
        assert if i < p then c == cols[..p][i] && Before(keys, cols[i], cols[p])
               else i == p || Before(keys, cols[p], cols[i]);
      }
    }
    assert Members(cols[..p]) == HarvestedBefore(mask, keys, x);
  }

  /** A harvested column's slot, from the right edge: one for each harvested column before it in die order. */
  lemma HarvestedSlotCounts(mask: nat, keys: seq<nat>, x: nat)
    requires x < |keys| && Bit(mask, x)
    ensures ColumnSlot(mask, keys, x) == |keys| - 1 - |HarvestedBefore(mask, keys, x)|
  {
    DieOrderIsSortedHarvest(mask, keys);
    PositionCounts(mask, keys, DieOrder(mask, keys), x);
  }

  lemma ColumnSlotsCover(mask: nat, keys: seq<nat>, s: nat) returns (x: nat)
    requires s < |keys|
    ensures x < |keys| && ColumnSlot(mask, keys, x) == s
  {
    DieOrderIsSortedHarvest(mask, keys);
    if s < Working(mask, |keys|) {
      x := UnitOfRank(mask, |keys|, s);
    } else {
      var order := DieOrder(mask, keys);
      x := order[|keys| - 1 - s];
      assert x in order;
      AscendingPosition(keys, order, |keys| - 1 - s);
    }
  }

  /** Wormhole: working rows by rank, then the harvested rows in row order. */
  function RowSlot(mask: nat, n: nat, y: nat): (s: nat)
    requires y < n
    ensures s < n
  {
    WorkingBelow(mask, y, n);
    if !Bit(mask, y) then Working(mask, y) else Working(mask, n) + Harvested(mask, y)
  }

  lemma RowSlotsPermute(mask: nat, n: nat, x: nat, y: nat)
    requires x < n && y < n
    ensures RowSlot(mask, n, x) == RowSlot(mask, n, y) ==> x == y
    ensures !Bit(mask, x) <==> RowSlot(mask, n, x) < Working(mask, n)
    ensures !Bit(mask, x) ==> RowSlot(mask, n, x) == Working(mask, x)
    ensures Bit(mask, x) && Bit(mask, y) && x < y ==> RowSlot(mask, n, x) < RowSlot(mask, n, y)
  {
    WorkingBelow(mask, x, n);
    WorkingBelow(mask, y, n);
    if x < y {
      WorkingBelow(mask, x, y);
    } else if y < x {
      WorkingBelow(mask, y, x);
    }
  }

  lemma {:induction false} HarvestedUnitOfRank(mask: nat, n: nat, r: nat) returns (i: nat)
    requires r < Harvested(mask, n)
    ensures i < n && Bit(mask, i) && Harvested(mask, i) == r
  {
    if Bit(mask, n - 1) && Harvested(mask, n - 1) == r {
      i := n - 1;
    } else {
      i := HarvestedUnitOfRank(mask, n - 1, r);
    }
  }

  lemma RowSlotsCover(mask: nat, n: nat, s: nat) returns (y: nat)
    requires s < n
    ensures y < n && RowSlot(mask, n, y) == s
  {
    if s < Working(mask, n) {
      y := UnitOfRank(mask, n, s);
    } else {
      y := HarvestedUnitOfRank(mask, n, s - Working(mask, n));
    }
  }
}
