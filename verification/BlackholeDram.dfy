/** Blackhole's DRAM translation: banks are entered range by range in logical order. */
module BlackholeDram {
  import opened Wrappers
  import opened HarvestMask
  import opened DramSlots
  import opened CoordNames
  import opened CoordinateMaps
  import opened CoordinateFacts
  import opened CoordinateManager

  /** A full die of 2k banks with at most one harvested, translation on. */
  ghost predicate FullDie(cfg: Config) {
    Valid(cfg) && cfg.arch.Blackhole? && cfg.translation && cfg.dramGrid.x == 2 * cfg.halfBanks
  }

  ghost predicate BankDone(cfg: Config, m: Maps, b: nat)
    requires Valid(cfg)
  {
    forall q :: b < cfg.dramGrid.x && 0 <= q < cfg.dramGrid.y ==>
      Knows(cfg, m, Core(Dram, BankIndex(cfg.dramGrid, b, q)), Translated)
  }

  lemma BankDoneGrows(cfg: Config, m: Maps, m': Maps, b: nat)
    requires Valid(cfg) && BankDone(cfg, m, b) && Grown(m, m')
    ensures BankDone(cfg, m', b)
  {
    forall q | b < cfg.dramGrid.x && 0 <= q < cfg.dramGrid.y
      ensures Knows(cfg, m', Core(Dram, BankIndex(cfg.dramGrid, b, q)), Translated)
    {
      assert Knows(cfg, m, Core(Dram, BankIndex(cfg.dramGrid, b, q)), Translated);
    }
  }

  lemma BanksCoverDram(cfg: Config, m: Maps)
    requires Valid(cfg) && forall b :: 0 <= b < cfg.dramGrid.x ==> BankDone(cfg, m, b)
    ensures KnowsAll(cfg, m, Dram, Translated)
  {
    forall i | 0 <= i < |cfg.lists.dram|
      ensures Knows(cfg, m, Core(Dram, i), Translated)
    {
      BankCell(cfg.dramGrid, i);
      assert BankDone(cfg, m, i / cfg.dramGrid.y);
    }
  }

  /** First translated row of the idx-th bank of a column, p rows each. */
  function RowOf(p: nat, idx: nat): nat {
    if idx == 0 then BH_DRAM_START.y else RowOf(p, idx - 1) + p
  }

  lemma {:induction false} RowOfIsProduct(p: nat, idx: nat)
    ensures RowOf(p, idx) == BH_DRAM_START.y + idx * p
  {
    if idx > 0 {
      RowOfIsProduct(p, idx - 1);
      assert idx * p == (idx - 1) * p + p;
    }
  }

  /** The row as the source computes it. */
  function RowAt(p: nat, idx: nat): (y: nat)
    ensures y == RowOf(p, idx)
  {
    RowOfIsProduct(p, idx);
    BH_DRAM_START.y + idx * p
  }

  lemma PortPlace(cfg: Config, b: nat, q: nat)
    requires GridsOk(cfg) && BlackholeDramOk(cfg) && cfg.dramGrid.x == 2 * cfg.halfBanks
    requires b < cfg.dramGrid.x && q < cfg.dramGrid.y && HarvestFits(cfg.halfBanks, DramHarvest(cfg))
    ensures var slot := BankSlot(cfg.halfBanks, DramHarvest(cfg), b);
            TranslatedDram(cfg, BankIndex(cfg.dramGrid, b, q)) ==
            XY(BH_DRAM_START.x + slot.col, RowOf(cfg.portsPerBank, slot.idx) + q)
  {
    RowOfIsProduct(cfg.portsPerBank, BankSlot(cfg.halfBanks, DramHarvest(cfg), b).idx);
  }

  /** The translated name of a bank's port, from the bank's slot. */
  lemma PortName(cfg: Config, b: nat, q: nat)
    requires FullDie(cfg) && b < cfg.dramGrid.x && q < cfg.dramGrid.y
    ensures HarvestFits(cfg.halfBanks, DramHarvest(cfg))
    ensures var slot := BankSlot(cfg.halfBanks, DramHarvest(cfg), b);
            Name(cfg, Core(Dram, BankIndex(cfg.dramGrid, b, q)), Translated) ==
            Some(CoreCoord(BH_DRAM_START.x + slot.col, RowOf(cfg.portsPerBank, slot.idx) + q, Dram, Translated))
  {
    LogicalBank(cfg.masks.dram, cfg.dramGrid.x, b);
    PortPlace(cfg, b, q);
  }

  /** Logical bank l is physical bank `PhysicalBank(h, l)`. */
  lemma LogicalPortName(cfg: Config, m: Maps, l: nat, q: nat)
    requires FullDie(cfg) && Sound(cfg, m) && KnowsAll(cfg, m, Dram, Logical)
    requires PhysicalBank(DramHarvest(cfg), l) < cfg.dramGrid.x && q < cfg.dramGrid.y
    ensures var k := BankIndex(cfg.dramGrid, PhysicalBank(DramHarvest(cfg), l), q);
            && CoreCoord(l, q, Dram, Logical) in m.toNoc0
            && m.toNoc0[CoreCoord(l, q, Dram, Logical)] == cfg.lists.dram[k]
  {
    var b := PhysicalBank(DramHarvest(cfg), l);
    var k := BankIndex(cfg.dramGrid, b, q);
    LogicalBank(cfg.masks.dram, cfg.dramGrid.x, b);
    DramIsBanked(cfg);
    assert BankedCore(cfg, Dram, cfg.dramGrid, cfg.masks.dram, k);
    assert Knows(cfg, m, Core(Dram, k), Logical);
    KnownLocation(cfg, m, Core(Dram, k), Logical);
  }

  /** Enters the ports of one logical bank from row `y` down. */
  method MapBank(mgr: CoordinateManager, bank: nat, x: nat, y: nat, ghost idx: nat)
    requires mgr.Ready() && !mgr.spoilt && FullDie(mgr.cfg) && KnowsAll(mgr.cfg, mgr.clean, Dram, Logical)
    requires HarvestFits(mgr.cfg.halfBanks, DramHarvest(mgr.cfg))
    requires PhysicalBank(DramHarvest(mgr.cfg), bank) < mgr.cfg.dramGrid.x
    requires y == RowOf(mgr.cfg.portsPerBank, idx)
    requires var s := BankSlot(mgr.cfg.halfBanks, DramHarvest(mgr.cfg), PhysicalBank(DramHarvest(mgr.cfg), bank));
             s.idx == idx && x == BH_DRAM_START.x + s.col
    modifies mgr`maps, mgr`clean
    ensures mgr.Ready() && Grown(old(mgr.clean), mgr.clean)
    ensures BankDone(mgr.cfg, mgr.clean, PhysicalBank(DramHarvest(mgr.cfg), bank))
  {
    ghost var cfg := mgr.cfg;
    ghost var b := PhysicalBank(DramHarvest(cfg), bank);
    for port := 0 to mgr.cfg.portsPerBank
      invariant mgr.Ready() && Grown(old(mgr.clean), mgr.clean)
      invariant forall q :: 0 <= q < port ==>
                  Knows(cfg, mgr.clean, Core(Dram, BankIndex(cfg.dramGrid, b, q)), Translated)
    {
      ghost var before := mgr.clean;
      KnowsAllGrows(cfg, old(mgr.clean), mgr.clean, Dram, Logical);
      LogicalPortName(cfg, mgr.clean, bank, port);
      PortName(cfg, b, port);
      var noc0 := mgr.Lookup(CoreCoord(bank, port, Dram, Logical));
      mgr.Enter(CoreCoord(x, y + port, Dram, Translated), noc0, Core(Dram, BankIndex(cfg.dramGrid, b, port)));
      forall q | 0 <= q <= port
        ensures Knows(cfg, mgr.clean, Core(Dram, BankIndex(cfg.dramGrid, b, q)), Translated)
      {
        assert q < port ==> Knows(cfg, before, Core(Dram, BankIndex(cfg.dramGrid, b, q)), Translated);
      }
    }
  }

  /** Logical bank l >= lo takes the slot l - lo after `idx`. */
  ghost predicate SlotFrom(k: nat, h: Harvest, l: nat, col: nat, lo: nat, idx: nat)
    requires HarvestFits(k, h) && lo <= l
  {
    PhysicalBank(h, l) < 2 * k && BankSlot(k, h, PhysicalBank(h, l)) == Slot(col, idx + (l - lo))
  }

  /** Logical banks lo..hi-1 take consecutive slots of a column from `idx` on. */
  ghost predicate Consecutive(k: nat, h: Harvest, lo: nat, hi: nat, col: nat, idx: nat)
    requires HarvestFits(k, h)
  {
    forall l :: lo <= l < hi ==> SlotFrom(k, h, l, col, lo, idx)
  }

  /** Logical banks lo..hi-1 are entered. */
  ghost predicate RangeDone(cfg: Config, m: Maps, lo: nat, hi: nat)
    requires Valid(cfg)
  {
    forall l :: lo <= l < hi ==> BankDone(cfg, m, PhysicalBank(DramHarvest(cfg), l))
  }

  lemma RangeDoneGrows(cfg: Config, m: Maps, m': Maps, lo: nat, hi: nat)
    requires Valid(cfg) && RangeDone(cfg, m, lo, hi) && Grown(m, m')
    ensures RangeDone(cfg, m', lo, hi)
  {
    forall l | lo <= l < hi
      ensures BankDone(cfg, m', PhysicalBank(DramHarvest(cfg), l))
    {
      BankDoneGrows(cfg, m, m', PhysicalBank(DramHarvest(cfg), l));
    }
  }

  lemma RangesGrow(cfg: Config, m: Maps, m': Maps)
    requires Valid(cfg) && Grown(m, m')
    ensures forall lo, hi :: RangeDone(cfg, m, lo, hi) ==> RangeDone(cfg, m', lo, hi)
  {
    forall lo, hi | RangeDone(cfg, m, lo, hi)
      ensures RangeDone(cfg, m', lo, hi)
    {
      RangeDoneGrows(cfg, m, m', lo, hi);
    }
  }

  method MapDramBanks(mgr: CoordinateManager, startBank: nat, endBank: nat, x: nat, yCoord: nat, ghost idx: nat)
    requires mgr.Ready() && !mgr.spoilt && FullDie(mgr.cfg) && KnowsAll(mgr.cfg, mgr.clean, Dram, Logical)
    requires HarvestFits(mgr.cfg.halfBanks, DramHarvest(mgr.cfg))
    requires startBank <= endBank && x >= BH_DRAM_START.x
    requires Consecutive(mgr.cfg.halfBanks, DramHarvest(mgr.cfg), startBank, endBank, x - BH_DRAM_START.x, idx)
    requires yCoord == RowOf(mgr.cfg.portsPerBank, idx)
    modifies mgr`maps, mgr`clean
    ensures mgr.Ready() && Grown(old(mgr.clean), mgr.clean)
    ensures KnowsAll(mgr.cfg, mgr.clean, Dram, Logical)
    ensures RangeDone(mgr.cfg, mgr.clean, startBank, endBank)
    ensures forall lo, hi :: RangeDone(mgr.cfg, old(mgr.clean), lo, hi) ==> RangeDone(mgr.cfg, mgr.clean, lo, hi)
  {
    ghost var cfg := mgr.cfg;
    var y := yCoord;
    for bank := startBank to endBank
      invariant mgr.Ready() && Grown(old(mgr.clean), mgr.clean)
      invariant y == RowOf(cfg.portsPerBank, idx + (bank - startBank))
      invariant forall l :: startBank <= l < bank ==> BankDone(cfg, mgr.clean, PhysicalBank(DramHarvest(cfg), l))
    {
      ghost var before := mgr.clean;
      KnowsAllGrows(cfg, old(mgr.clean), mgr.clean, Dram, Logical);
      assert SlotFrom(cfg.halfBanks, DramHarvest(cfg), bank, x - BH_DRAM_START.x, startBank, idx);
      MapBank(mgr, bank, x, y, idx + (bank - startBank));
      y := y + mgr.cfg.portsPerBank;
      forall l | startBank <= l <= bank
        ensures BankDone(cfg, mgr.clean, PhysicalBank(DramHarvest(cfg), l))
      {
        if l < bank {
          BankDoneGrows(cfg, before, mgr.clean, PhysicalBank(DramHarvest(cfg), l));
        }
      }
    }
    KnowsAllGrows(cfg, old(mgr.clean), mgr.clean, Dram, Logical);
    RangesGrow(cfg, old(mgr.clean), mgr.clean);
  }

  /** No bank harvested: west banks in the first column, east banks in the second. */
  method FillUnharvested(mgr: CoordinateManager)
    requires mgr.Ready() && !mgr.spoilt && FullDie(mgr.cfg) && KnowsAll(mgr.cfg, mgr.clean, Dram, Logical)
    requires DramHarvest(mgr.cfg) == NoBank
    modifies mgr`maps, mgr`clean
    ensures mgr.Ready() && Grown(old(mgr.clean), mgr.clean)
    ensures RangeDone(mgr.cfg, mgr.clean, 0, 2 * mgr.cfg.halfBanks)
  {
    var k := mgr.cfg.halfBanks;
    MapDramBanks(mgr, 0, k, BH_DRAM_START.x, BH_DRAM_START.y, 0);
    MapDramBanks(mgr, k, 2 * k, BH_DRAM_START.x + 1, BH_DRAM_START.y, 0);
  }

  /** Slot of a logical bank when a west bank is harvested: the west half moves to the second column. */
  function WestSlotOf(k: nat, hb: nat, l: nat): Slot
    requires hb < k && l < 2 * k - 1
  {
    if l < k - 1 then Slot(1, l)
    else if l - (k - 1) < hb then Slot(0, l - (k - 1))
    else if l - (k - 1) == hb then Slot(0, k - 1)
    else Slot(0, l - k)
  }

  lemma WestSlot(k: nat, hb: nat, l: nat)
    requires hb < k && l < 2 * k - 1
    ensures PhysicalBank(Bank(hb), l) < 2 * k
    ensures BankSlot(k, Bank(hb), PhysicalBank(Bank(hb), l)) == WestSlotOf(k, hb, l)
  {
  }

  lemma WestRange(k: nat, hb: nat, lo: nat, hi: nat, col: nat, idx: nat)
    requires hb < k && hi <= 2 * k - 1
    requires forall l :: lo <= l < hi ==> WestSlotOf(k, hb, l) == Slot(col, idx + (l - lo))
    ensures Consecutive(k, Bank(hb), lo, hi, col, idx)
  {
    forall l | lo <= l < hi
      ensures SlotFrom(k, Bank(hb), l, col, lo, idx)
    {
      WestSlot(k, hb, l);
    }
  }

  /** Slots of the ranges when a west bank is harvested: the west half moves to the second column. */
  lemma WestRanges(k: nat, hb: nat)
    requires hb < k
    ensures var m := hb + k - 1;
            && Consecutive(k, Bank(hb), 0, k - 1, 1, 0)
            && Consecutive(k, Bank(hb), k - 1, m, 0, 0)
            && Consecutive(k, Bank(hb), m + 1, 2 * k - 1, 0, m - (k - 1))
            && Consecutive(k, Bank(hb), m, m + 1, 0, k - 1)
  {
    var m := hb + k - 1;
    WestRange(k, hb, 0, k - 1, 1, 0);
    WestRange(k, hb, k - 1, m, 0, 0);
    WestRange(k, hb, m + 1, 2 * k - 1, 0, m - (k - 1));
    WestRange(k, hb, m, m + 1, 0, k - 1);
  }

  /** Slot of a logical bank when an east bank is harvested. */
  function EastSlotOf(k: nat, hb: nat, l: nat): Slot
    requires k <= hb < 2 * k && l < 2 * k - 1
  {
    if l >= k then Slot(1, l - k)
    else if l < hb - k then Slot(0, l)
    else if l == hb - k then Slot(0, k - 1)
    else Slot(0, l - 1)
  }

  lemma EastSlot(k: nat, hb: nat, l: nat)
    requires k <= hb < 2 * k && l < 2 * k - 1
    ensures PhysicalBank(Bank(hb), l) < 2 * k
    ensures BankSlot(k, Bank(hb), PhysicalBank(Bank(hb), l)) == EastSlotOf(k, hb, l)
  {
  }

  lemma EastRange(k: nat, hb: nat, lo: nat, hi: nat, col: nat, idx: nat)
    requires k <= hb < 2 * k && hi <= 2 * k - 1
    requires forall l :: lo <= l < hi ==> EastSlotOf(k, hb, l) == Slot(col, idx + (l - lo))
    ensures Consecutive(k, Bank(hb), lo, hi, col, idx)
  {
    forall l | lo <= l < hi
      ensures SlotFrom(k, Bank(hb), l, col, lo, idx)
    {
      EastSlot(k, hb, l);
    }
  }

  /** Slots of the ranges when an east bank is harvested. */
  lemma EastRanges(k: nat, hb: nat)
    requires k <= hb < 2 * k
    ensures var m := hb - k;
            && Consecutive(k, Bank(hb), 0, m, 0, 0)
            && Consecutive(k, Bank(hb), m + 1, k, 0, m)
            && Consecutive(k, Bank(hb), m, m + 1, 0, k - 1)
            && Consecutive(k, Bank(hb), k, 2 * k - 1, 1, 0)
  {
    var m := hb - k;
    EastRange(k, hb, 0, m, 0, 0);
    EastRange(k, hb, m + 1, k, 0, m);
    EastRange(k, hb, m, m + 1, 0, k - 1);
    EastRange(k, hb, k, 2 * k - 1, 1, 0);
  }

  method FillWestHarvested(mgr: CoordinateManager, harvestedBank: nat)
    requires mgr.Ready() && !mgr.spoilt && FullDie(mgr.cfg) && KnowsAll(mgr.cfg, mgr.clean, Dram, Logical)
    requires DramHarvest(mgr.cfg) == Bank(harvestedBank) && harvestedBank < mgr.cfg.halfBanks
    modifies mgr`maps, mgr`clean
    ensures mgr.Ready() && Grown(old(mgr.clean), mgr.clean)
    ensures RangeDone(mgr.cfg, mgr.clean, 0, 2 * mgr.cfg.halfBanks - 1)
  {
    ghost var cfg := mgr.cfg;
    var k, p := mgr.cfg.halfBanks, mgr.cfg.portsPerBank;
    var mirrorEast := harvestedBank + k - 1;
    var afterMirror, last := RowAt(p, mirrorEast - (k - 1)), RowAt(p, k - 1);
    WestRanges(k, harvestedBank);
    MapDramBanks(mgr, 0, k - 1, BH_DRAM_START.x + 1, BH_DRAM_START.y, 0);
    MapDramBanks(mgr, k - 1, mirrorEast, BH_DRAM_START.x, BH_DRAM_START.y, 0);
    MapDramBanks(mgr, mirrorEast + 1, 2 * k - 1, BH_DRAM_START.x, afterMirror, mirrorEast - (k - 1));
    MapDramBanks(mgr, mirrorEast, mirrorEast + 1, BH_DRAM_START.x, last, k - 1);
  }

  method FillEastHarvested(mgr: CoordinateManager, harvestedBank: nat)
    requires mgr.Ready() && !mgr.spoilt && FullDie(mgr.cfg) && KnowsAll(mgr.cfg, mgr.clean, Dram, Logical)
    requires DramHarvest(mgr.cfg) == Bank(harvestedBank) && mgr.cfg.halfBanks <= harvestedBank < 2 * mgr.cfg.halfBanks
    modifies mgr`maps, mgr`clean
    ensures mgr.Ready() && Grown(old(mgr.clean), mgr.clean)
    ensures RangeDone(mgr.cfg, mgr.clean, 0, 2 * mgr.cfg.halfBanks - 1)
  {
    ghost var cfg := mgr.cfg;
    var k, p := mgr.cfg.halfBanks, mgr.cfg.portsPerBank;
    var mirrorWest := harvestedBank - k;
    var afterMirror, last := RowAt(p, mirrorWest), RowAt(p, k - 1);
    EastRanges(k, harvestedBank);
    MapDramBanks(mgr, 0, mirrorWest, BH_DRAM_START.x, BH_DRAM_START.y, 0);
    MapDramBanks(mgr, mirrorWest + 1, k, BH_DRAM_START.x, afterMirror, mirrorWest);
    MapDramBanks(mgr, mirrorWest, mirrorWest + 1, BH_DRAM_START.x, last, k - 1);
    MapDramBanks(mgr, k, 2 * k - 1, BH_DRAM_START.x + 1, BH_DRAM_START.y, 0);
  }

  /** The harvested bank has no logical number; it takes the last slot of the second column. */
  method FillHarvestedBank(mgr: CoordinateManager, harvestedBank: nat)
    requires mgr.Ready() && !mgr.spoilt && FullDie(mgr.cfg)
    requires DramHarvest(mgr.cfg) == Bank(harvestedBank) && harvestedBank < 2 * mgr.cfg.halfBanks
    modifies mgr`maps, mgr`clean
    ensures mgr.Ready() && Grown(old(mgr.clean), mgr.clean) && BankDone(mgr.cfg, mgr.clean, harvestedBank)
  {
    ghost var cfg := mgr.cfg;
    var grid := mgr.cfg.dramGrid;
    var x := BH_DRAM_START.x + 1;
    var y := BH_DRAM_START.y + (grid.x / 2 - 1) * grid.y;
    RowOfIsProduct(grid.y, grid.x / 2 - 1);
    HarvestedBankIsLast(cfg.halfBanks, harvestedBank);
    for port := 0 to grid.y
      invariant mgr.Ready() && Grown(old(mgr.clean), mgr.clean)
      invariant forall q :: 0 <= q < port ==>
                  Knows(cfg, mgr.clean, Core(Dram, BankIndex(cfg.dramGrid, harvestedBank, q)), Translated)
    {
      ghost var before := mgr.clean;
      var k := BankIndex(grid, harvestedBank, port);
      PortName(cfg, harvestedBank, port);
      mgr.Enter(CoreCoord(x, y + port, Dram, Translated), mgr.cfg.lists.dram[k], Core(Dram, k));
      forall q | 0 <= q <= port
        ensures Knows(cfg, mgr.clean, Core(Dram, BankIndex(cfg.dramGrid, harvestedBank, q)), Translated)
      {
        assert q < port ==> Knows(cfg, before, Core(Dram, BankIndex(cfg.dramGrid, harvestedBank, q)), Translated);
      }
    }
  }

  /** Every physical bank is the harvested one or has a logical number. */
  lemma RangesCoverBanks(cfg: Config, m: Maps)
    requires FullDie(cfg)
    requires match DramHarvest(cfg)
             case NoBank => RangeDone(cfg, m, 0, 2 * cfg.halfBanks)
             case Bank(hb) => RangeDone(cfg, m, 0, 2 * cfg.halfBanks - 1) && BankDone(cfg, m, hb)
    ensures forall b :: 0 <= b < cfg.dramGrid.x ==> BankDone(cfg, m, b)
  {
    var h := DramHarvest(cfg);
    forall b | 0 <= b < cfg.dramGrid.x
      ensures BankDone(cfg, m, b)
    {
      var l := if h.Bank? && h.bank < b then b - 1 else b;
      if h.Bank? && b == h.bank {
      } else {
        LogicalBank(cfg.masks.dram, cfg.dramGrid.x, b);
        assert PhysicalBank(h, l) == b;
        assert BankDone(cfg, m, PhysicalBank(h, l));
      }
    }
  }

  method FillFullDie(mgr: CoordinateManager)
    requires mgr.Ready() && !mgr.spoilt && FullDie(mgr.cfg) && KnowsAll(mgr.cfg, mgr.clean, Dram, Logical)
    modifies mgr`maps, mgr`clean
    ensures mgr.Ready() && Grown(old(mgr.clean), mgr.clean) && KnowsAll(mgr.cfg, mgr.clean, Dram, Translated)
  {
    ghost var cfg := mgr.cfg;
    var harvestedBanks := GetHarvestedIndices(mgr.cfg.masks.dram);
    assert harvestedBanks == Indices(cfg.masks.dram, cfg.dramGrid.x);
    IndicesAreTheSetBits(cfg.masks.dram, cfg.dramGrid.x);
    if harvestedBanks == [] {
      FillUnharvested(mgr);
    } else {
      var harvestedBank := harvestedBanks[0];
      assert harvestedBank in harvestedBanks && DramHarvest(cfg) == Bank(harvestedBank);
      if harvestedBank < mgr.cfg.halfBanks {
        FillWestHarvested(mgr, harvestedBank);
      } else {
        FillEastHarvested(mgr, harvestedBank);
      }
      ghost var before := mgr.clean;
      FillHarvestedBank(mgr, harvestedBank);
      RangeDoneGrows(cfg, before, mgr.clean, 0, 2 * cfg.halfBanks - 1);
    }
    RangesCoverBanks(cfg, mgr.clean);
    BanksCoverDram(cfg, mgr.clean);
  }
}
