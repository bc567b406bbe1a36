/** The remaining core types, and `initialize`, which enters everything. */
module CoordinateInit {
  import opened Wrappers
  import opened HarvestMask
  import opened TensixSlots
  import opened CoordNames
  import opened CoordinateMaps
  import opened CoordinateFacts
  import opened CoordinateManager
  import opened DefaultFill
  import BlackholeDram

  /** A name in a single row: the rank of a working unit. */
  lemma LogicalRowName(cfg: Config, t: CoreType, mask: nat, i: nat)
    requires Valid(cfg) && i < |ListOf(cfg, t)|
    requires (t.Eth? && mask == cfg.masks.eth) || (t.L2cpu? && cfg.arch.Blackhole? && mask == cfg.masks.l2cpu)
    ensures Name(cfg, Core(t, i), Logical) ==
            if Bit(mask, i) then None else Some(CoreCoord(0, Working(mask, i), t, Logical))
  {
  }

  method TranslateEth(mgr: CoordinateManager)
    requires mgr.Ready()
    modifies mgr`maps, mgr`clean
    ensures mgr.Ready() && Grown(old(mgr.clean), mgr.clean) && KnowsAll(mgr.cfg, mgr.clean, Eth, Logical)
  {
    var list, mask := mgr.cfg.lists.eth, mgr.cfg.masks.eth;
    var logical := 0;
    for channel := 0 to |list|
      invariant mgr.Ready() && Grown(old(mgr.clean), mgr.clean) && logical == Working(mask, channel)
      invariant forall l :: 0 <= l < logical ==> CoreCoord(0, l, Eth, Logical) in mgr.clean.toNoc0
    {
      if !Bit(mask, channel) {
        LogicalRowName(mgr.cfg, Eth, mask, channel);
        mgr.Enter(CoreCoord(0, logical, Eth, Logical), list[channel], Core(Eth, channel));
        logical := logical + 1;
      }
    }
    forall i | 0 <= i < |list|
      ensures Knows(mgr.cfg, mgr.clean, Core(Eth, i), Logical)
    {
      LogicalRowName(mgr.cfg, Eth, mask, i);
      WorkingBelow(mask, i, |list|);
    }
  }

  /** The working unit behind a logical row name. */
  lemma LogicalRowLocation(cfg: Config, m: Maps, i: nat)
    requires Valid(cfg) && Sound(cfg, m) && KnowsAll(cfg, m, Eth, Logical)
    requires i < |cfg.lists.eth| && !Bit(cfg.masks.eth, i)
    ensures CoreCoord(0, Working(cfg.masks.eth, i), Eth, Logical) in m.toNoc0
    ensures m.toNoc0[CoreCoord(0, Working(cfg.masks.eth, i), Eth, Logical)] == cfg.lists.eth[i]
  {
    LogicalRowName(cfg, Eth, cfg.masks.eth, i);
    assert Knows(cfg, m, Core(Eth, i), Logical);
    KnownLocation(cfg, m, Core(Eth, i), Logical);
  }

  lemma EthPlace(cfg: Config, i: nat)
    requires GridsOk(cfg) && BlackholeDramOk(cfg) && cfg.arch.Blackhole? && cfg.translation && i < |cfg.lists.eth|
    ensures TranslatedXY(cfg, Core(Eth, i)) ==
            if Bit(cfg.masks.eth, i) then cfg.lists.eth[i]
            else XY(BH_ETH_START.x + Working(cfg.masks.eth, i), BH_ETH_START.y)
  {
  }

  lemma EthNames(cfg: Config, i: nat)
    requires Valid(cfg) && cfg.arch.Blackhole? && cfg.translation && i < |cfg.lists.eth|
    ensures Name(cfg, Core(Eth, i), Translated) ==
            Some(if Bit(cfg.masks.eth, i) then CoreCoord(cfg.lists.eth[i].x, cfg.lists.eth[i].y, Eth, Translated)
                 else CoreCoord(BH_ETH_START.x + Working(cfg.masks.eth, i), BH_ETH_START.y, Eth, Translated))
  {
    EthPlace(cfg, i);
  }

  /** One working channel, found through its logical name. */
  method EnterEthChannel(mgr: CoordinateManager, channel: nat, ghost unit: nat)
    requires mgr.Ready() && mgr.cfg.arch.Blackhole? && mgr.cfg.translation && KnowsAll(mgr.cfg, mgr.clean, Eth, Logical)
    requires unit < |mgr.cfg.lists.eth| && !Bit(mgr.cfg.masks.eth, unit) && Working(mgr.cfg.masks.eth, unit) == channel
    modifies mgr`maps, mgr`clean
    ensures mgr.Ready() && Grown(old(mgr.clean), mgr.clean) && Knows(mgr.cfg, mgr.clean, Core(Eth, unit), Translated)
  {
    LogicalRowLocation(mgr.cfg, mgr.clean, unit);
    EthNames(mgr.cfg, unit);
    var noc0 := mgr.Lookup(CoreCoord(0, channel, Eth, Logical));
    mgr.Enter(CoreCoord(BH_ETH_START.x + channel, BH_ETH_START.y, Eth, Translated), noc0, Core(Eth, unit));
  }

  method FillEthHarvested(mgr: CoordinateManager)
    requires mgr.Ready() && mgr.cfg.arch.Blackhole? && mgr.cfg.translation
    requires forall i :: 0 <= i < |mgr.cfg.lists.eth| && !Bit(mgr.cfg.masks.eth, i) ==>
               Knows(mgr.cfg, mgr.clean, Core(Eth, i), Translated)
    modifies mgr`maps, mgr`clean
    ensures mgr.Ready() && Grown(old(mgr.clean), mgr.clean) && KnowsAll(mgr.cfg, mgr.clean, Eth, Translated)
  {
    ghost var cfg := mgr.cfg;
    var list, mask := mgr.cfg.lists.eth, mgr.cfg.masks.eth;
    for channel := 0 to |list|
      invariant mgr.Ready() && Grown(old(mgr.clean), mgr.clean)
      invariant forall i :: 0 <= i < |list| && (!Bit(mask, i) || i < channel) ==>
                Knows(cfg, mgr.clean, Core(Eth, i), Translated)
    {
      if Bit(mask, channel) {
        ghost var before := mgr.clean;
        EthNames(cfg, channel);
        mgr.Enter(CoreCoord(list[channel].x, list[channel].y, Eth, Translated), list[channel], Core(Eth, channel));
        forall i | 0 <= i < |list| && (!Bit(mask, i) || i < channel + 1)
          ensures Knows(cfg, mgr.clean, Core(Eth, i), Translated)
        {
          if i != channel {
            assert Knows(cfg, before, Core(Eth, i), Translated);
          }
        }
      }
    }
  }

  /** Blackhole: working channels in logical order, harvested ones where they are. */
  method FillEthBlackhole(mgr: CoordinateManager)
    requires mgr.Ready() && mgr.cfg.arch.Blackhole? && mgr.cfg.translation
    requires KnowsAll(mgr.cfg, mgr.clean, Eth, Logical)
    modifies mgr`maps, mgr`clean
    ensures mgr.Ready() && Grown(old(mgr.clean), mgr.clean) && KnowsAll(mgr.cfg, mgr.clean, Eth, Translated)
  {
    ghost var cfg := mgr.cfg;
    var count, mask := |mgr.cfg.lists.eth|, mgr.cfg.masks.eth;
    var numHarvested := GetNumHarvested(mask);
    assert numHarvested == Harvested(mask, count);
    for channel := 0 to count - numHarvested
      invariant mgr.Ready() && Grown(old(mgr.clean), mgr.clean)
      invariant forall i :: 0 <= i < count && !Bit(mask, i) && Working(mask, i) < channel ==>
                  Knows(cfg, mgr.clean, Core(Eth, i), Translated)
    {
      ghost var before := mgr.clean;
      ghost var unit := UnitOfRank(mask, count, channel);
      KnowsAllGrows(cfg, old(mgr.clean), mgr.clean, Eth, Logical);
      EnterEthChannel(mgr, channel, unit);
      forall i | 0 <= i < count && !Bit(mask, i) && Working(mask, i) < channel + 1
        ensures Knows(cfg, mgr.clean, Core(Eth, i), Translated)
      {
        if Working(mask, i) < channel {
          assert Knows(cfg, before, Core(Eth, i), Translated);
        } else {
          WorkingInjective(mask, i, unit);
        }
      }
    }
    forall i | 0 <= i < count && !Bit(mask, i)
      ensures Knows(cfg, mgr.clean, Core(Eth, i), Translated)
    {
      WorkingBelow(mask, i, count);
    }
    FillEthHarvested(mgr);
  }

  /** Wormhole: rows and columns are shifted to be consecutive. */
  method FillEthWormhole(mgr: CoordinateManager)
    requires mgr.Ready() && mgr.cfg.arch.Wormhole? && mgr.cfg.translation
    modifies mgr`maps, mgr`clean
    ensures mgr.Ready() && Grown(old(mgr.clean), mgr.clean) && KnowsAll(mgr.cfg, mgr.clean, Eth, Translated)
  {
    ghost var cfg := mgr.cfg;
    var list := mgr.cfg.lists.eth;
    for i := 0 to |list|
      invariant mgr.Ready() && Grown(old(mgr.clean), mgr.clean)
      invariant forall j :: 0 <= j < i ==>
                  CoreCoord(WormholeEth(list[j]).x, WormholeEth(list[j]).y, Eth, Translated) in mgr.clean.toNoc0
    {
      var x: int, y := list[i].x, list[i].y;
      if x > 5 {
        x := x - 1;
      }
      x := x - 1;
      x := x + WH_ETH_START.x;
      if y == 6 {
        y := 1;
      }
      y := y + WH_ETH_START.y;
      mgr.Enter(CoreCoord(x, y, Eth, Translated), list[i], Core(Eth, i));
    }
  }

  lemma OneRow(i: nat, y: nat)
    requires y == 1
    ensures i / y == i && i % y == 0
  {
  }

  lemma SingleRowPcie(cfg: Config, i: nat)
    requires GridsOk(cfg) && cfg.arch.Blackhole? && cfg.pcieGrid.y == 1 && i < |cfg.lists.pcie|
    ensures LogicalXY(cfg, Core(Pcie, i)) ==
            if Bit(cfg.masks.pcie, i) then None else Some(XY(Working(cfg.masks.pcie, i), 0))
  {
    OneRow(i, cfg.pcieGrid.y);
  }

  lemma PcieLogicalName(cfg: Config, i: nat)
    requires Valid(cfg) && cfg.arch.Blackhole? && i < |cfg.lists.pcie|
    ensures Name(cfg, Core(Pcie, i), Logical) ==
            if Bit(cfg.masks.pcie, i) then None else Some(CoreCoord(Working(cfg.masks.pcie, i), 0, Pcie, Logical))
  {
    SingleRowPcie(cfg, i);
  }

  lemma PcieTranslatedName(cfg: Config, i: nat)
    requires Valid(cfg) && cfg.arch.Blackhole? && cfg.translation && i < |cfg.lists.pcie|
    ensures Name(cfg, Core(Pcie, i), Translated) ==
            Some(if !Bit(cfg.masks.pcie, i) && Working(cfg.masks.pcie, i) == 0
                 then CoreCoord(BH_PCIE_START.x, BH_PCIE_START.y, Pcie, Translated)
                 else CoreCoord(cfg.lists.pcie[i].x, cfg.lists.pcie[i].y, Pcie, Translated))
  {
  }

  lemma PcieNames(cfg: Config, i: nat)
    requires Valid(cfg) && cfg.arch.Blackhole? && cfg.translation && i < |cfg.lists.pcie|
    ensures |cfg.lists.pcie| == cfg.pcieGrid.x
    ensures Name(cfg, Core(Pcie, i), Translated) ==
            Some(if !Bit(cfg.masks.pcie, i) && Working(cfg.masks.pcie, i) == 0
                 then CoreCoord(BH_PCIE_START.x, BH_PCIE_START.y, Pcie, Translated)
                 else CoreCoord(cfg.lists.pcie[i].x, cfg.lists.pcie[i].y, Pcie, Translated))
    ensures Name(cfg, Core(Pcie, i), Logical) ==
            if Bit(cfg.masks.pcie, i) then None else Some(CoreCoord(Working(cfg.masks.pcie, i), 0, Pcie, Logical))
  {
    PcieTranslatedName(cfg, i);
    PcieLogicalName(cfg, i);
  }

  method FillPcieHarvested(mgr: CoordinateManager)
    requires mgr.Ready() && mgr.cfg.arch.Blackhole? && mgr.cfg.translation
    requires |mgr.cfg.lists.pcie| == mgr.cfg.pcieGrid.x
    requires forall i :: 0 <= i < mgr.cfg.pcieGrid.x && !Bit(mgr.cfg.masks.pcie, i) ==>
               Knows(mgr.cfg, mgr.clean, Core(Pcie, i), Translated)
    modifies mgr`maps, mgr`clean
    ensures mgr.Ready() && Grown(old(mgr.clean), mgr.clean) && KnowsAll(mgr.cfg, mgr.clean, Pcie, Translated)
  {
    ghost var cfg := mgr.cfg;
    var list, mask := mgr.cfg.lists.pcie, mgr.cfg.masks.pcie;
    for x := 0 to |list|
      invariant mgr.Ready() && Grown(old(mgr.clean), mgr.clean)
      invariant forall i :: 0 <= i < |list| && (!Bit(mask, i) || i < x) ==>
                Knows(cfg, mgr.clean, Core(Pcie, i), Translated)
    {
      if Bit(mask, x) {
        ghost var before := mgr.clean;
        PcieNames(cfg, x);
        mgr.Enter(CoreCoord(list[x].x, list[x].y, Pcie, Translated), list[x], Core(Pcie, x));
        forall i | 0 <= i < |list| && (!Bit(mask, i) || i < x + 1)
          ensures Knows(cfg, mgr.clean, Core(Pcie, i), Translated)
        {
          if i != x {
            assert Knows(cfg, before, Core(Pcie, i), Translated);
          }
        }
      }
    }
  }

  /** Blackhole: the first working PCIE core moves, the others stay. */
  method FillPcieBlackhole(mgr: CoordinateManager)
    requires mgr.Ready() && mgr.cfg.arch.Blackhole? && mgr.cfg.translation
    requires KnowsAll(mgr.cfg, mgr.clean, Pcie, Logical)
    modifies mgr`maps, mgr`clean
    ensures mgr.Ready() && Grown(old(mgr.clean), mgr.clean) && KnowsAll(mgr.cfg, mgr.clean, Pcie, Translated)
  {
    ghost var cfg := mgr.cfg;
    var list, mask, gx := mgr.cfg.lists.pcie, mgr.cfg.masks.pcie, mgr.cfg.pcieGrid.x;
    var numHarvested := GetNumHarvested(mask);
    assert numHarvested == Harvested(mask, gx) && |list| == gx;
    for x := 0 to gx - numHarvested
      invariant mgr.Ready() && Grown(old(mgr.clean), mgr.clean)
      invariant forall i :: 0 <= i < gx && !Bit(mask, i) && Working(mask, i) < x ==>
                Knows(cfg, mgr.clean, Core(Pcie, i), Translated)
    {
      ghost var before := mgr.clean;
      ghost var unit := UnitOfRank(mask, gx, x);
      PcieNames(cfg, unit);
      KnowsAllGrows(cfg, old(mgr.clean), mgr.clean, Pcie, Logical);
      assert Knows(cfg, mgr.clean, Core(Pcie, unit), Logical);
      KnownLocation(cfg, mgr.clean, Core(Pcie, unit), Logical);
      var noc0 := mgr.Lookup(CoreCoord(x, 0, Pcie, Logical));
      var translated := if x == 0 then BH_PCIE_START else noc0;
      mgr.Enter(CoreCoord(translated.x, translated.y, Pcie, Translated), noc0, Core(Pcie, unit));
      forall i | 0 <= i < gx && !Bit(mask, i) && Working(mask, i) < x + 1
        ensures Knows(cfg, mgr.clean, Core(Pcie, i), Translated)
      {
        if Working(mask, i) < x {
          assert Knows(cfg, before, Core(Pcie, i), Translated);
        } else {
          WorkingInjective(mask, i, unit);
        }
      }
    }
    forall i | 0 <= i < gx && !Bit(mask, i)
      ensures Knows(cfg, mgr.clean, Core(Pcie, i), Translated)
    {
      WorkingBelow(mask, i, gx);
    }
    FillPcieHarvested(mgr);
  }

  /** Blackhole: L2CPU cores stay where they are and working ones also get a logical name. */
  method TranslateL2cpu(mgr: CoordinateManager)
    requires mgr.Ready() && mgr.cfg.arch.Blackhole?
    modifies mgr`maps, mgr`clean
    ensures mgr.Ready() && Grown(old(mgr.clean), mgr.clean)
    ensures KnowsAll(mgr.cfg, mgr.clean, L2cpu, Logical) && KnowsAll(mgr.cfg, mgr.clean, L2cpu, Translated)
  {
    ghost var cfg := mgr.cfg;
    var list, mask := mgr.cfg.lists.l2cpu, mgr.cfg.masks.l2cpu;
    var logical := 0;
    for i := 0 to |list|
      invariant mgr.Ready() && Grown(old(mgr.clean), mgr.clean) && logical == Working(mask, i)
      invariant forall l :: 0 <= l < logical ==> CoreCoord(0, l, L2cpu, Logical) in mgr.clean.toNoc0
      invariant forall j :: 0 <= j < i ==> CoreCoord(list[j].x, list[j].y, L2cpu, Translated) in mgr.clean.toNoc0
    {
      mgr.Enter(CoreCoord(list[i].x, list[i].y, L2cpu, Translated), list[i], Core(L2cpu, i));
      if Bit(mask, i) {
        continue;
      }
      logical := logical + 1;
      LogicalRowName(cfg, L2cpu, mask, i);
      mgr.Enter(CoreCoord(0, logical - 1, L2cpu, Logical), list[i], Core(L2cpu, i));
    }
    forall i | 0 <= i < |list|
      ensures Knows(cfg, mgr.clean, Core(L2cpu, i), Logical)
    {
      LogicalRowName(cfg, L2cpu, mask, i);
      WorkingBelow(mask, i, |list|);
    }
  }

  /** Every core of a type is entered under its logical and its translated name. */
  ghost predicate KnowsBoth(cfg: Config, m: Maps, t: CoreType)
    requires Valid(cfg)
  {
    KnowsAll(cfg, m, t, Logical) && KnowsAll(cfg, m, t, Translated)
  }

  method TranslateTensixCoords(mgr: CoordinateManager)
    requires mgr.Ready()
    modifies mgr`maps, mgr`clean
    ensures mgr.Ready() && Grown(old(mgr.clean), mgr.clean) && KnowsBoth(mgr.cfg, mgr.clean, Tensix)
  {
    if mgr.cfg.arch.Blackhole? {
      mgr.TranslateTensixColumns();
    } else {
      mgr.TranslateTensixRows();
    }
    ghost var logical := mgr.clean;
    if !mgr.cfg.translation {
      mgr.MapIdentity(Tensix, Translated);
    } else if mgr.cfg.arch.Blackhole? {
      mgr.FillTensixColumns();
    } else {
      mgr.FillTensixRows();
    }
    KnowsAllGrows(mgr.cfg, logical, mgr.clean, Tensix, Logical);
  }

  /** DRAM positions are all looked up, those of a harvested bank without finding them. */
  predicate Spoilt(cfg: Config) {
    && cfg.arch.Blackhole? && (!cfg.translation || cfg.dramGrid.x < 2 * cfg.halfBanks)
    && Harvested(cfg.masks.dram, cfg.dramGrid.x) > 0 && cfg.dramGrid.y > 0
  }

  /** A reduced die, a die without translation and Wormhole use the default filling. */
  method TranslateDramCoords(mgr: CoordinateManager)
    requires mgr.Ready() && !mgr.spoilt
    modifies mgr`maps, mgr`clean, mgr`spoilt
    ensures mgr.Ready() && Grown(old(mgr.clean), mgr.clean) && (mgr.spoilt <==> Spoilt(mgr.cfg))
    ensures !mgr.spoilt ==> KnowsBoth(mgr.cfg, mgr.clean, Dram)
  {
    ZeroHarvestsNothing(mgr.cfg.dramGrid.x);
    DramIsBanked(mgr.cfg);
    mgr.TranslateBanks(Dram, mgr.cfg.dramGrid, mgr.cfg.masks.dram);
    ghost var logical := mgr.clean;
    if mgr.cfg.arch.Blackhole? && mgr.cfg.translation && mgr.cfg.dramGrid.x >= 2 * mgr.cfg.halfBanks {
      BlackholeDram.FillFullDie(mgr);
    } else {
      FillBanksDefault(mgr, Dram, mgr.cfg.dramGrid, mgr.cfg.masks.dram);
    }
    KnowsAllGrows(mgr.cfg, logical, mgr.clean, Dram, Logical);
  }

  method TranslateEthCoords(mgr: CoordinateManager)
    requires mgr.Ready()
    modifies mgr`maps, mgr`clean
    ensures mgr.Ready() && Grown(old(mgr.clean), mgr.clean) && KnowsBoth(mgr.cfg, mgr.clean, Eth)
  {
    TranslateEth(mgr);
    ghost var logical := mgr.clean;
    if !mgr.cfg.translation {
      mgr.MapIdentity(Eth, Translated);
    } else if mgr.cfg.arch.Blackhole? {
      FillEthBlackhole(mgr);
    } else {
      FillEthWormhole(mgr);
    }
    KnowsAllGrows(mgr.cfg, logical, mgr.clean, Eth, Logical);
  }

  lemma ArcIsFillable(cfg: Config)
    requires Valid(cfg)
    ensures Fillable(cfg, Arc, cfg.arcGrid, 0) && Harvested(0, cfg.arcGrid.x) == 0
  {
    ArcIsBanked(cfg);
    ZeroHarvestsNothing(cfg.arcGrid.x);
  }

  method TranslateArcCoords(mgr: CoordinateManager)
    requires mgr.Ready()
    modifies mgr`maps, mgr`clean, mgr`spoilt
    ensures mgr.spoilt == old(mgr.spoilt)
    ensures mgr.Ready() && Grown(old(mgr.clean), mgr.clean) && KnowsBoth(mgr.cfg, mgr.clean, Arc)
  {
    ArcIsFillable(mgr.cfg);
    mgr.TranslateBanks(Arc, mgr.cfg.arcGrid, 0);
    ghost var logical := mgr.clean;
    FillBanksDefault(mgr, Arc, mgr.cfg.arcGrid, 0);
    KnowsAllGrows(mgr.cfg, logical, mgr.clean, Arc, Logical);
  }

  method TranslatePcieCoords(mgr: CoordinateManager)
    requires mgr.Ready()
    modifies mgr`maps, mgr`clean
    ensures mgr.Ready() && Grown(old(mgr.clean), mgr.clean) && KnowsBoth(mgr.cfg, mgr.clean, Pcie)
  {
    PcieIsBanked(mgr.cfg);
    mgr.TranslateBanks(Pcie, mgr.cfg.pcieGrid, PcieMask(mgr.cfg));
    ghost var logical := mgr.clean;
    if mgr.cfg.translation && mgr.cfg.arch.Blackhole? {
      FillPcieBlackhole(mgr);
    } else {
      mgr.MapIdentity(Pcie, Translated);
    }
    KnowsAllGrows(mgr.cfg, logical, mgr.clean, Pcie, Logical);
  }

  method TranslateL2cpuCoords(mgr: CoordinateManager)
    requires mgr.Ready()
    modifies mgr`maps, mgr`clean
    ensures mgr.Ready() && Grown(old(mgr.clean), mgr.clean) && KnowsBoth(mgr.cfg, mgr.clean, L2cpu)
  {
    if mgr.cfg.arch.Blackhole? {
      TranslateL2cpu(mgr);
    } else {
      mgr.MapIdentity(L2cpu, Translated);
    }
  }

  /** Routers, security and dispatch cores have only a translated name. */
  method TranslateInPlace(mgr: CoordinateManager, t: CoreType)
    requires mgr.Ready() && (t.RouterOnly? || t.Security? || t.Dispatch?)
    modifies mgr`maps, mgr`clean
    ensures mgr.Ready() && Grown(old(mgr.clean), mgr.clean) && KnowsBoth(mgr.cfg, mgr.clean, t)
  {
    mgr.MapIdentity(t, Translated);
  }

  const CORE_TYPES := [Tensix, Dram, Eth, Arc, Pcie, RouterOnly, Security, L2cpu, Dispatch]

  lemma EveryTypeListed(t: CoreType)
    ensures exists i :: 0 <= i < |CORE_TYPES| && CORE_TYPES[i] == t
  {
    assert CORE_TYPES[0].Tensix? && CORE_TYPES[1].Dram? && CORE_TYPES[2].Eth? && CORE_TYPES[3].Arc?;
    assert CORE_TYPES[4].Pcie? && CORE_TYPES[5].RouterOnly? && CORE_TYPES[6].Security?;
    assert CORE_TYPES[7].L2cpu? && CORE_TYPES[8].Dispatch?;
  }

  /** Every core of the first n types is entered under its name in a system. */
  ghost predicate KnowsTypes(cfg: Config, m: Maps, ts: seq<CoreType>, n: nat, sys: CoordSystem)
    requires Valid(cfg) && n <= |ts|
  {
    forall i :: 0 <= i < n ==> KnowsAll(cfg, m, ts[i], sys)
  }

  lemma KnowsTypesGrows(cfg: Config, m: Maps, m': Maps, ts: seq<CoreType>, n: nat, sys: CoordSystem)
    requires Valid(cfg) && n <= |ts| && KnowsTypes(cfg, m, ts, n, sys) && Grown(m, m')
    ensures KnowsTypes(cfg, m', ts, n, sys)
  {
    forall i | 0 <= i < n
      ensures KnowsAll(cfg, m', ts[i], sys)
    {
      KnowsAllGrows(cfg, m, m', ts[i], sys);
    }
  }

  method IdentityMapNoc0Cores(mgr: CoordinateManager, ts: seq<CoreType>)
    requires mgr.Ready()
    modifies mgr`maps, mgr`clean
    ensures mgr.Ready() && Grown(old(mgr.clean), mgr.clean) && KnowsTypes(mgr.cfg, mgr.clean, ts, |ts|, Noc0)
  {
    for n := 0 to |ts|
      invariant mgr.Ready() && Grown(old(mgr.clean), mgr.clean) && KnowsTypes(mgr.cfg, mgr.clean, ts, n, Noc0)
    {
      ghost var before := mgr.clean;
      mgr.MapIdentity(ts[n], Noc0);
      KnowsTypesGrows(mgr.cfg, before, mgr.clean, ts, n, Noc0);
    }
  }

  method AddNoc1Mapping(mgr: CoordinateManager, ts: seq<CoreType>)
    requires mgr.Ready()
    modifies mgr`maps, mgr`clean
    ensures mgr.Ready() && Grown(old(mgr.clean), mgr.clean) && KnowsTypes(mgr.cfg, mgr.clean, ts, |ts|, Noc1)
  {
    if !HasNoc1(mgr.cfg) {
      return;
    }
    for n := 0 to |ts|
      invariant mgr.Ready() && Grown(old(mgr.clean), mgr.clean) && KnowsTypes(mgr.cfg, mgr.clean, ts, n, Noc1)
    {
      ghost var before := mgr.clean;
      mgr.MapNoc1(ts[n]);
      KnowsTypesGrows(mgr.cfg, before, mgr.clean, ts, n, Noc1);
    }
  }

  /** Every core is entered under every name it has. */
  ghost predicate Complete(cfg: Config, m: Maps)
    requires Valid(cfg)
  {
    forall t, sys :: KnowsAll(cfg, m, t, sys)
  }

  lemma BothGrows(cfg: Config, m: Maps, m': Maps, t: CoreType)
    requires Valid(cfg) && KnowsBoth(cfg, m, t) && Grown(m, m')
    ensures KnowsBoth(cfg, m', t)
  {
    KnowsAllGrows(cfg, m, m', t, Logical);
    KnowsAllGrows(cfg, m, m', t, Translated);
  }

  method TranslateGrids(mgr: CoordinateManager)
    requires mgr.Ready() && !mgr.spoilt
    modifies mgr`maps, mgr`clean, mgr`spoilt
    ensures mgr.Ready() && Grown(old(mgr.clean), mgr.clean) && (mgr.spoilt <==> Spoilt(mgr.cfg))
    ensures !mgr.spoilt ==> forall t :: t in {Tensix, Dram, Eth, Arc, Pcie} ==> KnowsBoth(mgr.cfg, mgr.clean, t)
  {
    TranslateTensixCoords(mgr);
    ghost var m1 := mgr.clean;
    TranslateDramCoords(mgr);
    ghost var m2 := mgr.clean;
    TranslateEthCoords(mgr);
    ghost var m3 := mgr.clean;
    TranslateArcCoords(mgr);
    ghost var m4 := mgr.clean;
    TranslatePcieCoords(mgr);
    BothGrows(mgr.cfg, m1, mgr.clean, Tensix);
    if !mgr.spoilt {
      BothGrows(mgr.cfg, m2, mgr.clean, Dram);
    }
    BothGrows(mgr.cfg, m3, mgr.clean, Eth);
    BothGrows(mgr.cfg, m4, mgr.clean, Arc);
  }

  method TranslateOthers(mgr: CoordinateManager)
    requires mgr.Ready()
    modifies mgr`maps, mgr`clean
    ensures mgr.Ready() && Grown(old(mgr.clean), mgr.clean)
    ensures forall t :: t in {RouterOnly, Security, L2cpu, Dispatch} ==> KnowsBoth(mgr.cfg, mgr.clean, t)
  {
    TranslateInPlace(mgr, RouterOnly);
    ghost var m1 := mgr.clean;
    TranslateInPlace(mgr, Security);
    ghost var m2 := mgr.clean;
    TranslateL2cpuCoords(mgr);
    ghost var m3 := mgr.clean;
    TranslateInPlace(mgr, Dispatch);
    BothGrows(mgr.cfg, m1, mgr.clean, RouterOnly);
    BothGrows(mgr.cfg, m2, mgr.clean, Security);
    BothGrows(mgr.cfg, m3, mgr.clean, L2cpu);
  }

  lemma PhasesComplete(cfg: Config, noc0: Maps, grids: Maps, others: Maps, m: Maps)
    requires Valid(cfg) && Grown(noc0, m) && Grown(grids, m) && Grown(others, m)
    requires KnowsTypes(cfg, noc0, CORE_TYPES, 9, Noc0) && KnowsTypes(cfg, m, CORE_TYPES, 9, Noc1)
    requires forall t :: t in {Tensix, Dram, Eth, Arc, Pcie} ==> KnowsBoth(cfg, grids, t)
    requires forall t :: t in {RouterOnly, Security, L2cpu, Dispatch} ==> KnowsBoth(cfg, others, t)
    ensures Complete(cfg, m)
  {
    forall t: CoreType, sys: CoordSystem
      ensures KnowsAll(cfg, m, t, sys)
    {
      EveryTypeListed(t);
      var i :| 0 <= i < |CORE_TYPES| && CORE_TYPES[i] == t;
      match sys
      case Noc0 =>
        assert KnowsAll(cfg, noc0, CORE_TYPES[i], Noc0);
        KnowsAllGrows(cfg, noc0, m, t, Noc0);
      case Noc1 =>
        assert KnowsAll(cfg, m, CORE_TYPES[i], Noc1);
      case Literal =>
      case _ =>
        var early := if t in {Tensix, Dram, Eth, Arc, Pcie} then grids else others;
        assert KnowsBoth(cfg, early, t);
        BothGrows(cfg, early, m, t);
    }
  }

  /** Afterwards every core is known by every name it has, unless a harvested DRAM bank met the default filling. */
  method Initialize(mgr: CoordinateManager)
    requires mgr.Ready() && !mgr.spoilt
    modifies mgr`maps, mgr`clean, mgr`spoilt
    ensures mgr.Ready() && (mgr.spoilt <==> Spoilt(mgr.cfg))
    ensures !mgr.spoilt ==> Complete(mgr.cfg, mgr.maps)
  {
    IdentityMapNoc0Cores(mgr, CORE_TYPES);
    ghost var noc0 := mgr.clean;
    TranslateGrids(mgr);
    ghost var grids := mgr.clean;
    TranslateOthers(mgr);
    ghost var others := mgr.clean;
    AddNoc1Mapping(mgr, CORE_TYPES);
    if !mgr.spoilt {
      PhasesComplete(mgr.cfg, noc0, grids, others, mgr.clean);
    }
  }

  const BH_ETH_CHANNELS := 14

  /** The constructor's checks on the harvesting masks. */
  predicate Accepted(cfg: Config) {
    match cfg.arch
    case Wormhole => cfg.masks.dram == 0 && cfg.masks.eth == 0
    case Blackhole =>
      CountBits(cfg.masks.dram) <= 1
      && (|cfg.lists.eth| == BH_ETH_CHANNELS ==> CountBits(cfg.masks.eth) in {2, BH_ETH_CHANNELS})
  }

  /** Any masks reach these checks, whether they fit their grids or not. */
  method AssertConstructor(cfg: Config) returns (ok: bool)
    ensures ok <==> Accepted(cfg)
    ensures ok && WellFormed(cfg) ==> Valid(cfg)
  {
    if cfg.arch.Wormhole? {
      return cfg.masks.dram == 0 && cfg.masks.eth == 0;
    }
    var banks := GetNumHarvested(cfg.masks.dram);
    MaskFitsItself(cfg.masks.dram);
    MaskFitsItself(cfg.masks.eth);
    if banks > 1 {
      return false;
    }
    var channels := GetNumHarvested(cfg.masks.eth);
    return !(|cfg.lists.eth| == BH_ETH_CHANNELS && channels != 2 && channels != BH_ETH_CHANNELS);
  }

  /** The maps hold every name of every core and nothing else. */
  ghost predicate Exact(cfg: Config, m: Maps)
    requires Valid(cfg)
  {
    forall c, p :: (c in m.toNoc0 && m.toNoc0[c] == p) <==> Stands(cfg, c, p)
  }

  lemma CompleteIsExact(cfg: Config, m: Maps)
    requires Valid(cfg) && Sound(cfg, m) && Complete(cfg, m)
    ensures Exact(cfg, m)
  {
    forall c, p
      ensures (c in m.toNoc0 && m.toNoc0[c] == p) <==> Stands(cfg, c, p)
    {
      if Stands(cfg, c, p) {
        var k :| IsCore(cfg, k) && Name(cfg, k, c.system) == Some(c) && At(cfg, k) == p;
        assert KnowsAll(cfg, m, k.t, c.system);
        assert Knows(cfg, m, Core(k.t, k.i), c.system);
        KnownLocation(cfg, m, k, c.system);
      }
      if c in m.toNoc0 {
        assert NameOk(cfg, m, c);
      }
    }
  }

  /**
   Construction fails exactly on rejected masks.  The finished maps are inverse to each
   other exactly if no harvested DRAM bank meets the default filling; then they hold every
   name of every core and nothing else.
   */
  method CreateCoordinateManager(cfg: Config) returns (r: Option<CoordinateManager>)
    requires WellFormed(cfg)
    ensures r.Some? <==> Accepted(cfg)
    ensures r.Some? ==> fresh(r.value) && r.value.cfg == cfg && r.value.Ready()
    ensures r.Some? ==> (Inverse(r.value.maps) <==> !Spoilt(cfg))
    ensures r.Some? && !Spoilt(cfg) ==>
              && Sound(cfg, r.value.maps) && TypesOk(r.value.maps)
              && Complete(cfg, r.value.maps) && Exact(cfg, r.value.maps)
  {
    var ok := AssertConstructor(cfg);
    if !ok {
      return None;
    }
    var mgr := new CoordinateManager(cfg);
    Initialize(mgr);
    ReadyIsInverse(mgr);
    if !Spoilt(cfg) {
      CompleteIsExact(cfg, mgr.maps);
    }
    r := Some(mgr);
  }
}
