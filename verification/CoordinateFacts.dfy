/** What a partly filled pair of translation maps already knows. */
module CoordinateFacts {
  import opened Wrappers
  import opened Modular
  import opened HarvestMask
  import opened TensixSlots
  import opened CoordNames
  import opened CoordinateMaps

  /** Every core of a type that has a name in a system is entered under it. */
  ghost predicate KnowsAll(cfg: Config, m: Maps, t: CoreType, sys: CoordSystem)
    requires Valid(cfg)
  {
    forall i :: 0 <= i < |ListOf(cfg, t)| ==> Knows(cfg, m, Core(t, i), sys)
  }

  ghost predicate Grown(m: Maps, m': Maps) {
    m.toNoc0.Keys <= m'.toNoc0.Keys
  }

  lemma KnowsAllGrows(cfg: Config, m: Maps, m': Maps, t: CoreType, sys: CoordSystem)
    requires Valid(cfg) && KnowsAll(cfg, m, t, sys) && Grown(m, m')
    ensures KnowsAll(cfg, m', t, sys)
  {
    forall i | 0 <= i < |ListOf(cfg, t)|
      ensures Knows(cfg, m', Core(t, i), sys)
    {
      assert Knows(cfg, m, Core(t, i), sys);
    }
  }

  /** All cores of a Tensix column (or row) are entered under their translated names. */
  ghost predicate ColumnDone(cfg: Config, m: Maps, x: nat)
    requires Valid(cfg)
  {
    forall y :: x < cfg.tensixGrid.x && 0 <= y < cfg.tensixGrid.y ==>
      Knows(cfg, m, Core(Tensix, TensixIndex(cfg, x, y)), Translated)
  }

  ghost predicate RowDone(cfg: Config, m: Maps, y: nat)
    requires Valid(cfg)
  {
    forall x :: y < cfg.tensixGrid.y && 0 <= x < cfg.tensixGrid.x ==>
      Knows(cfg, m, Core(Tensix, TensixIndex(cfg, x, y)), Translated)
  }

  lemma ColumnDoneGrows(cfg: Config, m: Maps, m': Maps, x: nat)
    requires Valid(cfg) && ColumnDone(cfg, m, x) && Grown(m, m')
    ensures ColumnDone(cfg, m', x)
  {
    forall y | x < cfg.tensixGrid.x && 0 <= y < cfg.tensixGrid.y
      ensures Knows(cfg, m', Core(Tensix, TensixIndex(cfg, x, y)), Translated)
    {
      assert Knows(cfg, m, Core(Tensix, TensixIndex(cfg, x, y)), Translated);
    }
  }

  /** The working columns and those listed are entered. */
  ghost predicate ColumnsDone(cfg: Config, m: Maps, listed: seq<nat>)
    requires Valid(cfg)
  {
    forall x :: 0 <= x < cfg.tensixGrid.x && (!Bit(cfg.masks.tensix, x) || x in listed) ==> ColumnDone(cfg, m, x)
  }

  lemma OneMoreColumnDone(cfg: Config, m: Maps, m': Maps, listed: seq<nat>, x: nat)
    requires Valid(cfg) && ColumnsDone(cfg, m, listed) && Grown(m, m') && ColumnDone(cfg, m', x)
    ensures ColumnsDone(cfg, m', listed + [x])
  {
    forall y | 0 <= y < cfg.tensixGrid.x && (!Bit(cfg.masks.tensix, y) || y in listed + [x])
      ensures ColumnDone(cfg, m', y)
    {
      if y != x {
        ColumnDoneGrows(cfg, m, m', y);
      }
    }
  }

  lemma RowDoneGrows(cfg: Config, m: Maps, m': Maps, y: nat)
    requires Valid(cfg) && RowDone(cfg, m, y) && Grown(m, m')
    ensures RowDone(cfg, m', y)
  {
    forall x | y < cfg.tensixGrid.y && 0 <= x < cfg.tensixGrid.x
      ensures Knows(cfg, m', Core(Tensix, TensixIndex(cfg, x, y)), Translated)
    {
      assert Knows(cfg, m, Core(Tensix, TensixIndex(cfg, x, y)), Translated);
    }
  }

  lemma ColumnsCoverTensix(cfg: Config, m: Maps)
    requires Valid(cfg) && forall x :: 0 <= x < cfg.tensixGrid.x ==> ColumnDone(cfg, m, x)
    ensures KnowsAll(cfg, m, Tensix, Translated)
  {
    forall i | 0 <= i < |cfg.lists.tensix|
      ensures Knows(cfg, m, Core(Tensix, i), Translated)
    {
      TensixCell(cfg, i);
      assert ColumnDone(cfg, m, TensixX(cfg, i));
    }
  }

  lemma RowsCoverTensix(cfg: Config, m: Maps)
    requires Valid(cfg) && forall y :: 0 <= y < cfg.tensixGrid.y ==> RowDone(cfg, m, y)
    ensures KnowsAll(cfg, m, Tensix, Translated)
  {
    forall i | 0 <= i < |cfg.lists.tensix|
      ensures Knows(cfg, m, Core(Tensix, i), Translated)
    {
      TensixCell(cfg, i);
      assert RowDone(cfg, m, TensixY(cfg, i));
    }
  }

  ghost predicate LogicalBankDone(m: Maps, t: CoreType, grid: XY, logicalX: nat) {
    forall y :: 0 <= y < grid.y ==> CoreCoord(logicalX, y, t, Logical) in m.toNoc0
  }

  /** The core's NOC0 location is entered as its translated name. */
  ghost predicate IdentityDone(cfg: Config, m: Maps, t: CoreType, i: nat) {
    i < |ListOf(cfg, t)| && CoreCoord(ListOf(cfg, t)[i].x, ListOf(cfg, t)[i].y, t, Translated) in m.toNoc0
  }

  ghost predicate DefaultBankDone(cfg: Config, m: Maps, t: CoreType, grid: XY, x: nat) {
    forall y :: x < grid.x && 0 <= y < grid.y ==> IdentityDone(cfg, m, t, BankIndex(grid, x, y))
  }

  lemma LogicalBankDoneGrows(m: Maps, m': Maps, t: CoreType, grid: XY, logicalX: nat)
    requires LogicalBankDone(m, t, grid, logicalX) && Grown(m, m')
    ensures LogicalBankDone(m', t, grid, logicalX)
  {
  }

  lemma DefaultBankDoneGrows(cfg: Config, m: Maps, m': Maps, t: CoreType, grid: XY, x: nat)
    requires DefaultBankDone(cfg, m, t, grid, x) && Grown(m, m')
    ensures DefaultBankDone(cfg, m', t, grid, x)
  {
    forall y | x < grid.x && 0 <= y < grid.y
      ensures IdentityDone(cfg, m', t, BankIndex(grid, x, y))
    {
      assert IdentityDone(cfg, m, t, BankIndex(grid, x, y));
    }
  }

  /** The core at flat index i is called by its bank's rank and its port, unless harvested. */
  ghost predicate BankedCore(cfg: Config, t: CoreType, grid: XY, mask: nat, i: nat)
    requires Valid(cfg) && i < |ListOf(cfg, t)|
  {
    && grid.y > 0
    && Name(cfg, Core(t, i), Logical) ==
       if Bit(mask, i / grid.y) then None else Some(CoreCoord(Working(mask, i / grid.y), i % grid.y, t, Logical))
  }

  /** A grid stored bank by bank whose logical names skip the banks of `mask`. */
  ghost predicate IsBanked(cfg: Config, t: CoreType, grid: XY, mask: nat)
    requires Valid(cfg)
  {
    && |ListOf(cfg, t)| == grid.y * grid.x
    && forall i {:trigger BankedCore(cfg, t, grid, mask, i)} :: 0 <= i < |ListOf(cfg, t)| ==>
         BankedCore(cfg, t, grid, mask, i)
  }

  lemma LogicalBankKnown(cfg: Config, m: Maps, t: CoreType, grid: XY, mask: nat, i: nat)
    requires Valid(cfg) && IsBanked(cfg, t, grid, mask) && i < |ListOf(cfg, t)| && grid.y > 0
    requires LogicalBankDone(m, t, grid, Working(mask, i / grid.y))
    ensures Knows(cfg, m, Core(t, i), Logical)
  {
    assert BankedCore(cfg, t, grid, mask, i);
  }

  lemma LogicalCoreKnown(cfg: Config, m: Maps, t: CoreType, grid: XY, mask: nat, i: nat, bank: nat)
    requires Valid(cfg) && IsBanked(cfg, t, grid, mask) && i < |ListOf(cfg, t)| && grid.y > 0
             && bank == i / grid.y < grid.x
    requires forall l :: 0 <= l < Working(mask, grid.x) ==> LogicalBankDone(m, t, grid, l)
    ensures Knows(cfg, m, Core(t, i), Logical)
  {
    if Bit(mask, bank) {
      assert BankedCore(cfg, t, grid, mask, i);
    } else {
      WorkingBelow(mask, bank, grid.x);
      LogicalBankKnown(cfg, m, t, grid, mask, i);
    }
  }

  lemma LogicalBanksCover(cfg: Config, m: Maps, t: CoreType, grid: XY, mask: nat)
    requires Valid(cfg) && IsBanked(cfg, t, grid, mask)
    requires forall l :: 0 <= l < Working(mask, grid.x) ==> LogicalBankDone(m, t, grid, l)
    ensures KnowsAll(cfg, m, t, Logical)
  {
    forall i | 0 <= i < |ListOf(cfg, t)|
      ensures Knows(cfg, m, Core(t, i), Logical)
    {
      GridCell(i, grid.y, grid.x);
      LogicalCoreKnown(cfg, m, t, grid, mask, i, i / grid.y);
    }
  }

  lemma DefaultBankKnown(cfg: Config, m: Maps, t: CoreType, i: nat)
    requires Valid(cfg) && IdentityDone(cfg, m, t, i) && TranslatedXY(cfg, Core(t, i)) == ListOf(cfg, t)[i]
    ensures Knows(cfg, m, Core(t, i), Translated)
  {
  }

  lemma LogicalBankName(cfg: Config, t: CoreType, grid: XY, mask: nat, x: nat, y: nat)
    requires Valid(cfg) && IsBanked(cfg, t, grid, mask) && x < grid.x && y < grid.y && !Bit(mask, x)
    ensures BankIndex(grid, x, y) < |ListOf(cfg, t)|
    ensures Name(cfg, Core(t, BankIndex(grid, x, y)), Logical) == Some(CoreCoord(Working(mask, x), y, t, Logical))
  {
    assert BankedCore(cfg, t, grid, mask, BankIndex(grid, x, y));
  }

  lemma DramIsBanked(cfg: Config)
    requires Valid(cfg)
    ensures IsBanked(cfg, Dram, cfg.dramGrid, cfg.masks.dram)
  {
    forall i | 0 <= i < |cfg.lists.dram|
      ensures BankedCore(cfg, Dram, cfg.dramGrid, cfg.masks.dram, i)
    {
      BankCell(cfg.dramGrid, i);
    }
  }

  lemma ArcIsBanked(cfg: Config)
    requires Valid(cfg)
    ensures IsBanked(cfg, Arc, cfg.arcGrid, 0)
  {
    forall i | 0 <= i < |cfg.lists.arc|
      ensures BankedCore(cfg, Arc, cfg.arcGrid, 0, i)
    {
      BankCell(cfg.arcGrid, i);
      ZeroHasNoBits(i / cfg.arcGrid.y);
      ZeroHarvestsNothing(i / cfg.arcGrid.y);
    }
  }

  lemma PcieIsBanked(cfg: Config)
    requires Valid(cfg)
    ensures IsBanked(cfg, Pcie, cfg.pcieGrid, PcieMask(cfg))
  {
    forall i | 0 <= i < |cfg.lists.pcie|
      ensures BankedCore(cfg, Pcie, cfg.pcieGrid, PcieMask(cfg), i)
    {
      BankCell(cfg.pcieGrid, i);
    }
  }

  /** The i-th harvested column in die order takes the i-th slot from the right. */
  lemma HarvestedColumnSlot(mask: nat, keys: seq<nat>, i: nat)
    requires i < |DieOrder(mask, keys)|
    ensures DieOrder(mask, keys)[i] < |keys|
    ensures ColumnSlot(mask, keys, DieOrder(mask, keys)[i]) == |keys| - 1 - i
  {
    DieOrderIsSortedHarvest(mask, keys);
    var order := DieOrder(mask, keys);
    var x := order[i];
    assert x in order;
    AscendingPosition(keys, order, i);
  }

  lemma SortedIndicesAreDieOrder(mask: nat, keys: seq<nat>)
    ensures InRange(keys, Indices(mask, |keys|))
    ensures Sort(keys, Indices(mask, |keys|)) == DieOrder(mask, keys)
  {
    IndicesAreTheSetBits(mask, |keys|);
    assert forall i :: 0 <= i < |Indices(mask, |keys|)| ==> Indices(mask, |keys|)[i] in Indices(mask, |keys|);
  }

  /** A logical name that a harvested bank leaves without a core. */
  function MissingName(cfg: Config): CoreCoord {
    CoreCoord(Working(cfg.masks.dram, cfg.dramGrid.x), 0, Dram, Logical)
  }

  ghost predicate SameEntry(m: Maps, clean: Maps, c: CoreCoord) {
    (c in m.toNoc0 <==> c in clean.toNoc0) && (c in clean.toNoc0 ==> m.toNoc0[c] == clean.toNoc0[c])
  }

  /** No core has this name. */
  ghost predicate Stranger(cfg: Config, w: CoreCoord)
    requires Valid(cfg)
  {
    forall k :: IsCore(cfg, k) ==> Name(cfg, k, w.system) != Some(w)
  }

  /**
   Default insertions have spoilt DRAM entries: a name that no core has leads to a location
   that does not lead back.
   */
  ghost predicate Poisoned(cfg: Config, m: Maps, clean: Maps)
    requires Valid(cfg)
  {
    && OneWay(m, MissingName(cfg)) && Stranger(cfg, MissingName(cfg))
    && forall c: CoreCoord {:trigger SameEntry(m, clean, c)} :: !c.coreType.Dram? ==> SameEntry(m, clean, c)
  }

  lemma AddKeepsPoison(cfg: Config, m: Maps, clean: Maps, c: CoreCoord, p: XY)
    requires Valid(cfg) && Poisoned(cfg, m, clean) && c != MissingName(cfg)
    ensures Poisoned(cfg, Add(m, c, p), Add(clean, c, p))
    ensures c.coreType.Dram? ==> Poisoned(cfg, Add(m, c, p), clean)
  {
    OneWayStays(m, MissingName(cfg), [(c, p)]);
    forall d: CoreCoord | !d.coreType.Dram?
      ensures SameEntry(Add(m, c, p), Add(clean, c, p), d)
      ensures c.coreType.Dram? ==> SameEntry(Add(m, c, p), clean, d)
    {
      assert SameEntry(m, clean, d);
    }
  }
}
