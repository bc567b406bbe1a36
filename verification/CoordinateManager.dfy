/**
 Coordinate managers of Wormhole and Blackhole: the loops that enter every core's names.
 Each loop enters names of the closed form in `CoordNames`, so the finished maps are
 exactly those names.
 */
module CoordinateManager {
  import opened Wrappers
  import opened Modular
  import opened HarvestMask
  import opened TensixSlots
  import opened CoordNames
  import opened CoordinateMaps
  import opened CoordinateFacts

  /**
   `maps` are the maps of the source.  `clean` are the entries made for cores under their
   own names; the two differ only once a lookup with `[]` has inserted a missing name.
   */
  class CoordinateManager {
    const cfg: Config
    var maps: Maps
    ghost var clean: Maps
    ghost var spoilt: bool

    ghost predicate Ready()
      reads this
    {
      && Valid(cfg) && Sound(cfg, clean) && TypesOk(clean)
      && if spoilt then Poisoned(cfg, maps, clean) else maps == clean
    }

    constructor (cfg: Config)
      requires Valid(cfg)
      ensures this.cfg == cfg && maps == clean == EMPTY && !spoilt && Ready()
    {
      this.cfg, maps, clean, spoilt := cfg, EMPTY, EMPTY, false;
    }

    method AddCoreTranslation(c: CoreCoord, noc0: XY)
      modifies this`maps
      ensures maps == Add(old(maps), c, noc0)
    {
      maps := Add(maps, c, noc0);
    }

    /** Enters a name that the closed form gives to core k. */
    method Enter(c: CoreCoord, noc0: XY, ghost k: Core)
      requires Ready() && IsCore(cfg, k) && Name(cfg, k, c.system) == Some(c) && At(cfg, k) == noc0
      modifies this`maps, this`clean
      ensures Ready() && clean.toNoc0.Keys == old(clean.toNoc0.Keys) + {c}
    {
      AddKeepsSound(cfg, clean, k, c.system);
      AddKeepsTypes(clean, c, noc0);
      if spoilt {
        AddKeepsPoison(cfg, maps, clean, c, noc0);
      }
      AddCoreTranslation(c, noc0);
      clean := Add(clean, c, noc0);
    }

    /** `to_noc0_map[c]` for a name that is there. */
    method Lookup(c: CoreCoord) returns (noc0: XY)
      requires Ready() && c in clean.toNoc0 && (c.coreType.Dram? ==> !spoilt)
      ensures noc0 == clean.toNoc0[c]
    {
      assert spoilt ==> SameEntry(maps, clean, c);
      noc0 := maps.toNoc0[c];
    }

    /** `to_noc0_map[c]` for any name: a missing one is inserted with location (0, 0). */
    method LookupOrInsert(c: CoreCoord) returns (noc0: XY)
      modifies this`maps
      ensures c in old(maps.toNoc0) ==> maps == old(maps) && noc0 == maps.toNoc0[c]
      ensures c !in old(maps.toNoc0) ==>
              maps == old(maps).(toNoc0 := old(maps.toNoc0)[c := XY(0, 0)]) && noc0 == XY(0, 0)
    {
      if c !in maps.toNoc0 {
        maps := maps.(toNoc0 := maps.toNoc0[c := XY(0, 0)]);
      }
      noc0 := maps.toNoc0[c];
    }

    /** Loops that enter NOC0 locations unchanged. */
    method MapIdentity(t: CoreType, sys: CoordSystem)
      requires Ready()
      requires forall i :: 0 <= i < |ListOf(cfg, t)| ==> NameXY(cfg, Core(t, i), sys) == Some(ListOf(cfg, t)[i])
      modifies this`maps, this`clean
      ensures Ready() && Grown(old(clean), clean) && KnowsAll(cfg, clean, t, sys)
    {
      var list := ListOf(cfg, t);
      for i := 0 to |list|
        invariant Ready() && Grown(old(clean), clean)
        invariant forall j :: 0 <= j < i ==> CoreCoord(list[j].x, list[j].y, t, sys) in clean.toNoc0
      {
        assert IsCore(cfg, Core(t, i));
        Enter(CoreCoord(list[i].x, list[i].y, t, sys), list[i], Core(t, i));
      }
    }

    method MapNoc1(t: CoreType)
      requires Ready() && HasNoc1(cfg)
      modifies this`maps, this`clean
      ensures Ready() && Grown(old(clean), clean) && KnowsAll(cfg, clean, t, Noc1)
    {
      var list := ListOf(cfg, t);
      for i := 0 to |list|
        invariant Ready() && Grown(old(clean), clean)
        invariant forall j :: 0 <= j < i ==> Knows(cfg, clean, Core(t, j), Noc1)
      {
        ghost var before := clean;
        assert IsCore(cfg, Core(t, i)) && At(cfg, Core(t, i)) == list[i];
        var c := CoreCoord(cfg.noc1X[list[i].x], cfg.noc1Y[list[i].y], t, Noc1);
        Enter(c, list[i], Core(t, i));
        forall j | 0 <= j <= i
          ensures Knows(cfg, clean, Core(t, j), Noc1)
        {
          assert j < i ==> Knows(cfg, before, Core(t, j), Noc1);
        }
      }
    }

    /** Blackhole: working columns, left to right. */
    method TranslateTensixColumns()
      requires Ready() && cfg.arch.Blackhole?
      modifies this`maps, this`clean
      ensures Ready() && Grown(old(clean), clean) && KnowsAll(cfg, clean, Tensix, Logical)
    {
      var mask, gx, gy := cfg.masks.tensix, cfg.tensixGrid.x, cfg.tensixGrid.y;
      var logicalX := 0;
      for x := 0 to gx
        invariant Ready() && Grown(old(clean), clean) && logicalX == Working(mask, x)
        invariant forall x', y :: 0 <= x' < x && !Bit(mask, x') && 0 <= y < gy ==>
                    CoreCoord(Working(mask, x'), y, Tensix, Logical) in clean.toNoc0
      {
        if !Bit(mask, x) {
          for y := 0 to gy
            invariant Ready() && Grown(old(clean), clean)
            invariant forall x', y' :: 0 <= x' < x && !Bit(mask, x') && 0 <= y' < gy ==>
                        CoreCoord(Working(mask, x'), y', Tensix, Logical) in clean.toNoc0
            invariant forall y' :: 0 <= y' < y ==> CoreCoord(logicalX, y', Tensix, Logical) in clean.toNoc0
          {
            var k := TensixIndex(cfg, x, y);
            Enter(CoreCoord(logicalX, y, Tensix, Logical), cfg.lists.tensix[k], Core(Tensix, k));
          }
          logicalX := logicalX + 1;
        }
      }
      forall i | 0 <= i < |cfg.lists.tensix|
        ensures Knows(cfg, clean, Core(Tensix, i), Logical)
      {
        TensixCell(cfg, i);
      }
    }

    /** Wormhole: working rows, top to bottom. */
    method TranslateTensixRows()
      requires Ready() && cfg.arch.Wormhole?
      modifies this`maps, this`clean
      ensures Ready() && Grown(old(clean), clean) && KnowsAll(cfg, clean, Tensix, Logical)
    {
      var mask, gx, gy := cfg.masks.tensix, cfg.tensixGrid.x, cfg.tensixGrid.y;
      var logicalY := 0;
      for y := 0 to gy
        invariant Ready() && Grown(old(clean), clean) && logicalY == Working(mask, y)
        invariant forall x, y' :: 0 <= y' < y && !Bit(mask, y') && 0 <= x < gx ==>
                    CoreCoord(x, Working(mask, y'), Tensix, Logical) in clean.toNoc0
      {
        if !Bit(mask, y) {
          for x := 0 to gx
            invariant Ready() && Grown(old(clean), clean)
            invariant forall x', y' :: 0 <= y' < y && !Bit(mask, y') && 0 <= x' < gx ==>
                        CoreCoord(x', Working(mask, y'), Tensix, Logical) in clean.toNoc0
            invariant forall x' :: 0 <= x' < x ==> CoreCoord(x', logicalY, Tensix, Logical) in clean.toNoc0
          {
            var k := TensixIndex(cfg, x, y);
            Enter(CoreCoord(x, logicalY, Tensix, Logical), cfg.lists.tensix[k], Core(Tensix, k));
          }
          logicalY := logicalY + 1;
        }
      }
      forall i | 0 <= i < |cfg.lists.tensix|
        ensures Knows(cfg, clean, Core(Tensix, i), Logical)
      {
        TensixCell(cfg, i);
      }
    }

    /** Enters a whole column at the translated column `slot`. */
    method EnterColumn(x: nat, slot: nat)
      requires Ready() && cfg.arch.Blackhole? && cfg.translation
      requires x < cfg.tensixGrid.x <= |cfg.lists.tensix| && slot == SlotOfColumn(cfg, x)
      modifies this`maps, this`clean
      ensures Ready() && Grown(old(clean), clean) && ColumnDone(cfg, clean, x)
    {
      for y := 0 to cfg.tensixGrid.y
        invariant Ready() && Grown(old(clean), clean)
        invariant forall y' :: 0 <= y' < y ==> Knows(cfg, clean, Core(Tensix, TensixIndex(cfg, x, y')), Translated)
      {
        ghost var before := clean;
        var k := TensixIndex(cfg, x, y);
        var translated := cfg.lists.tensix[TensixIndex(cfg, slot, y)];
        assert Name(cfg, Core(Tensix, k), Translated) ==
               Some(CoreCoord(translated.x, translated.y, Tensix, Translated));
        Enter(CoreCoord(translated.x, translated.y, Tensix, Translated), cfg.lists.tensix[k], Core(Tensix, k));
        forall y' | 0 <= y' <= y
          ensures Knows(cfg, clean, Core(Tensix, TensixIndex(cfg, x, y')), Translated)
        {
          assert y' < y ==> Knows(cfg, before, Core(Tensix, TensixIndex(cfg, x, y')), Translated);
        }
      }
    }

    /** Blackhole: working columns close up to the left, harvested ones fill in from the right edge. */
    method FillTensixColumns()
      requires Ready() && cfg.arch.Blackhole? && cfg.translation
      modifies this`maps, this`clean
      ensures Ready() && Grown(old(clean), clean) && KnowsAll(cfg, clean, Tensix, Translated)
    {
      var mask, gx := cfg.masks.tensix, cfg.tensixGrid.x;
      if gx == 0 {
        return;
      }
      FlatIndexBelow(gx - 1, 0, gx, cfg.tensixGrid.y);
      var keys := DieKeys(cfg);
      var logicalX, harvested := 0, [];
      for x := 0 to gx
        invariant Ready() && Grown(old(clean), clean)
        invariant logicalX == Working(mask, x) && harvested == Indices(mask, x)
        invariant forall x' :: 0 <= x' < x && !Bit(mask, x') ==> ColumnDone(cfg, clean, x')
      {
        ghost var before := clean;
        if Bit(mask, x) {
          harvested := harvested + [x];
        } else {
          EnterColumn(x, logicalX);
          logicalX := logicalX + 1;
        }
        forall x' | 0 <= x' <= x && !Bit(mask, x')
          ensures ColumnDone(cfg, clean, x')
        {
          if x' < x {
            ColumnDoneGrows(cfg, before, clean, x');
          }
        }
      }
      FillHarvestedColumns(keys, harvested);
      ColumnsCoverTensix(cfg, clean);
    }

    /** Enters the i-th harvested column in die order, at the i-th slot from the right edge. */
    method EnterHarvestedColumn(ghost keys: seq<nat>, order: seq<nat>, i: nat, xIndex: int)
      requires Ready() && cfg.arch.Blackhole? && cfg.translation
      requires 0 < cfg.tensixGrid.x <= |cfg.lists.tensix| && keys == DieKeys(cfg)
      requires order == DieOrder(cfg.masks.tensix, keys) && i < |order| && xIndex + i + 1 == cfg.tensixGrid.x
      requires ColumnsDone(cfg, clean, order[..i])
      modifies this`maps, this`clean
      ensures Ready() && Grown(old(clean), clean) && ColumnsDone(cfg, clean, order[..i + 1])
    {
      ghost var before := clean;
      HarvestedColumnSlot(cfg.masks.tensix, keys, i);
      EnterColumn(order[i], xIndex);
      assert order[..i + 1] == order[..i] + [order[i]];
      OneMoreColumnDone(cfg, before, clean, order[..i], order[i]);
    }

    method FillHarvestedColumns(keys: seq<nat>, harvested: seq<nat>)
      requires Ready() && cfg.arch.Blackhole? && cfg.translation
      requires 0 < cfg.tensixGrid.x <= |cfg.lists.tensix| && keys == DieKeys(cfg)
      requires harvested == Indices(cfg.masks.tensix, cfg.tensixGrid.x)
      requires forall x :: 0 <= x < cfg.tensixGrid.x && !Bit(cfg.masks.tensix, x) ==> ColumnDone(cfg, clean, x)
      modifies this`maps, this`clean
      ensures Ready() && Grown(old(clean), clean)
      ensures forall x :: 0 <= x < cfg.tensixGrid.x ==> ColumnDone(cfg, clean, x)
    {
      var mask, gx := cfg.masks.tensix, cfg.tensixGrid.x;
      SortedIndicesAreDieOrder(mask, keys);
      var order := Sort(keys, harvested);
      var xIndex: int := gx - 1;
      for i := 0 to |order|
        invariant Ready() && Grown(old(clean), clean) && xIndex == gx - 1 - i
        invariant ColumnsDone(cfg, clean, order[..i])
      {
        EnterHarvestedColumn(keys, order, i, xIndex);
        xIndex := xIndex - 1;
      }
      assert order[..|order|] == order;
      DieOrderIsSortedHarvest(mask, keys);
    }

    /** Enters one core of a row at translated row `translatedY`. */
    method EnterInRow(x: nat, ghost y: nat, translatedY: nat, noc0: XY)
      requires Ready() && cfg.arch.Wormhole? && cfg.translation && x < cfg.tensixGrid.x && y < cfg.tensixGrid.y
      requires translatedY == WH_TENSIX_START.y + RowSlot(cfg.masks.tensix, cfg.tensixGrid.y, y)
      requires noc0 == cfg.lists.tensix[TensixIndex(cfg, x, y)]
      modifies this`maps, this`clean
      ensures Ready() && Grown(old(clean), clean)
      ensures Knows(cfg, clean, Core(Tensix, TensixIndex(cfg, x, y)), Translated)
    {
      ghost var k := TensixIndex(cfg, x, y);
      assert Name(cfg, Core(Tensix, k), Translated) ==
             Some(CoreCoord(x + WH_TENSIX_START.x, translatedY, Tensix, Translated));
      Enter(CoreCoord(x + WH_TENSIX_START.x, translatedY, Tensix, Translated), noc0, Core(Tensix, k));
    }

    method EnterHarvestedRow(y: nat, translatedY: nat)
      requires Ready() && cfg.arch.Wormhole? && cfg.translation && y < cfg.tensixGrid.y
      requires translatedY == WH_TENSIX_START.y + RowSlot(cfg.masks.tensix, cfg.tensixGrid.y, y)
      modifies this`maps, this`clean
      ensures Ready() && Grown(old(clean), clean) && RowDone(cfg, clean, y)
    {
      for x := 0 to cfg.tensixGrid.x
        invariant Ready() && Grown(old(clean), clean)
        invariant forall x' :: 0 <= x' < x ==> Knows(cfg, clean, Core(Tensix, TensixIndex(cfg, x', y)), Translated)
      {
        ghost var before := clean;
        EnterInRow(x, y, translatedY, cfg.lists.tensix[TensixIndex(cfg, x, y)]);
        forall x' | 0 <= x' <= x
          ensures Knows(cfg, clean, Core(Tensix, TensixIndex(cfg, x', y)), Translated)
        {
          assert x' < x ==> Knows(cfg, before, Core(Tensix, TensixIndex(cfg, x', y)), Translated);
        }
      }
    }

    /** Finds the row's cores through their logical names. */
    method EnterWorkingRow(logicalY: nat, ghost row: nat)
      requires Ready() && cfg.arch.Wormhole? && cfg.translation && KnowsAll(cfg, clean, Tensix, Logical)
      requires row < cfg.tensixGrid.y && !Bit(cfg.masks.tensix, row) && Working(cfg.masks.tensix, row) == logicalY
      modifies this`maps, this`clean
      ensures Ready() && Grown(old(clean), clean) && RowDone(cfg, clean, row)
    {
      for x := 0 to cfg.tensixGrid.x
        invariant Ready() && Grown(old(clean), clean)
        invariant forall x' :: 0 <= x' < x ==> Knows(cfg, clean, Core(Tensix, TensixIndex(cfg, x', row)), Translated)
      {
        ghost var before := clean;
        ghost var k := Core(Tensix, TensixIndex(cfg, x, row));
        KnowsAllGrows(cfg, old(clean), clean, Tensix, Logical);
        assert Knows(cfg, clean, k, Logical);
        assert Name(cfg, k, Logical) == Some(CoreCoord(x, logicalY, Tensix, Logical));
        KnownLocation(cfg, clean, k, Logical);
        var noc0 := Lookup(CoreCoord(x, logicalY, Tensix, Logical));
        EnterInRow(x, row, logicalY + WH_TENSIX_START.y, noc0);
        forall x' | 0 <= x' <= x
          ensures Knows(cfg, clean, Core(Tensix, TensixIndex(cfg, x', row)), Translated)
        {
          assert x' < x ==> Knows(cfg, before, Core(Tensix, TensixIndex(cfg, x', row)), Translated);
        }
      }
    }

    /** Wormhole: working rows in logical order, then the harvested rows. */
    method FillTensixRows()
      requires Ready() && cfg.arch.Wormhole? && cfg.translation && KnowsAll(cfg, clean, Tensix, Logical)
      modifies this`maps, this`clean
      ensures Ready() && Grown(old(clean), clean) && KnowsAll(cfg, clean, Tensix, Translated)
    {
      var mask, gy := cfg.masks.tensix, cfg.tensixGrid.y;
      var numHarvested := GetNumHarvested(mask);
      assert numHarvested == Harvested(mask, gy);
      for y := 0 to gy - numHarvested
        invariant Ready() && Grown(old(clean), clean)
        invariant forall row :: 0 <= row < gy && !Bit(mask, row) && Working(mask, row) < y ==> RowDone(cfg, clean, row)
      {
        ghost var before := clean;
        ghost var row := UnitOfRank(mask, gy, y);
        KnowsAllGrows(cfg, old(clean), clean, Tensix, Logical);
        EnterWorkingRow(y, row);
        forall r | 0 <= r < gy && !Bit(mask, r) && Working(mask, r) < y + 1
          ensures RowDone(cfg, clean, r)
        {
          if Working(mask, r) < y {
            RowDoneGrows(cfg, before, clean, r);
          } else {
            WorkingInjective(mask, r, row);
          }
        }
      }
      forall r | 0 <= r < gy && !Bit(mask, r)
        ensures RowDone(cfg, clean, r)
      {
        WorkingBelow(mask, r, gy);
      }
      FillHarvestedRows(numHarvested);
      RowsCoverTensix(cfg, clean);
    }

    method FillHarvestedRows(numHarvested: nat)
      requires Ready() && cfg.arch.Wormhole? && cfg.translation
      requires numHarvested == Harvested(cfg.masks.tensix, cfg.tensixGrid.y)
      requires forall y :: 0 <= y < cfg.tensixGrid.y && !Bit(cfg.masks.tensix, y) ==> RowDone(cfg, clean, y)
      modifies this`maps, this`clean
      ensures Ready() && Grown(old(clean), clean)
      ensures forall y :: 0 <= y < cfg.tensixGrid.y ==> RowDone(cfg, clean, y)
    {
      var mask, gy := cfg.masks.tensix, cfg.tensixGrid.y;
      var translatedY := WH_TENSIX_START.y + gy - numHarvested;
      for y := 0 to gy
        invariant Ready() && Grown(old(clean), clean)
        invariant translatedY == WH_TENSIX_START.y + gy - numHarvested + Harvested(mask, y)
        invariant forall r :: 0 <= r < gy && (!Bit(mask, r) || r < y) ==> RowDone(cfg, clean, r)
      {
        if Bit(mask, y) {
          ghost var before := clean;
          EnterHarvestedRow(y, translatedY);
          translatedY := translatedY + 1;
          forall r | 0 <= r < gy && (!Bit(mask, r) || r < y + 1)
            ensures RowDone(cfg, clean, r)
          {
            if r != y {
              RowDoneGrows(cfg, before, clean, r);
            }
          }
        }
      }
    }

    /** Enters every port of a working bank under its logical bank number. */
    method EnterLogicalBank(t: CoreType, grid: XY, mask: nat, x: nat, logicalX: nat)
      requires Ready() && IsBanked(cfg, t, grid, mask) && x < grid.x && !Bit(mask, x) && logicalX == Working(mask, x)
      modifies this`maps, this`clean
      ensures Ready() && Grown(old(clean), clean) && LogicalBankDone(clean, t, grid, logicalX)
    {
      for y := 0 to grid.y
        invariant Ready() && Grown(old(clean), clean)
        invariant forall y' :: 0 <= y' < y ==> CoreCoord(logicalX, y', t, Logical) in clean.toNoc0
      {
        EnterLogicalPort(t, grid, mask, x, y, logicalX);
      }
    }

    method EnterLogicalPort(t: CoreType, grid: XY, ghost mask: nat, x: nat, y: nat, logicalX: nat)
      requires Ready() && IsBanked(cfg, t, grid, mask) && x < grid.x && y < grid.y
      requires !Bit(mask, x) && logicalX == Working(mask, x)
      modifies this`maps, this`clean
      ensures Ready() && clean.toNoc0.Keys == old(clean.toNoc0.Keys) + {CoreCoord(logicalX, y, t, Logical)}
    {
      LogicalBankName(cfg, t, grid, mask, x, y);
      var k := BankIndex(grid, x, y);
      Enter(CoreCoord(logicalX, y, t, Logical), ListOf(cfg, t)[k], Core(t, k));
    }

    /** Grids stored bank by bank: DRAM, ARC and PCIE. */
    method TranslateBanks(t: CoreType, grid: XY, mask: nat)
      requires Ready() && IsBanked(cfg, t, grid, mask)
      modifies this`maps, this`clean
      ensures Ready() && Grown(old(clean), clean) && KnowsAll(cfg, clean, t, Logical)
    {
      var logicalX := 0;
      for x := 0 to grid.x
        invariant Ready() && Grown(old(clean), clean) && logicalX == Working(mask, x)
        invariant forall l :: 0 <= l < logicalX ==> LogicalBankDone(clean, t, grid, l)
      {
        if !Bit(mask, x) {
          ghost var before := clean;
          EnterLogicalBank(t, grid, mask, x, logicalX);
          forall l | 0 <= l < logicalX
            ensures LogicalBankDone(clean, t, grid, l)
          {
            LogicalBankDoneGrows(before, clean, t, grid, l);
          }
          logicalX := logicalX + 1;
        }
      }
      LogicalBanksCover(cfg, clean, t, grid, mask);
    }
  }
}
