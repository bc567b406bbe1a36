/**
 The default filling of translated names: every grid position is looked up as a logical
 name with `[]`.  Where a bank is harvested, the last positions are not there.
 */
module DefaultFill {
  import opened Wrappers
  import opened HarvestMask
  import opened TensixSlots
  import opened CoordNames
  import opened CoordinateMaps
  import opened CoordinateFacts
  import opened CoordinateManager

  /** All translated names of the type are its NOC0 locations. */
  ghost predicate StaysInPlace(cfg: Config, t: CoreType)
    requires Valid(cfg)
  {
    forall i :: 0 <= i < |ListOf(cfg, t)| ==> TranslatedXY(cfg, Core(t, i)) == ListOf(cfg, t)[i]
  }

  /** Only the DRAM grid can have harvested banks here. */
  ghost predicate Fillable(cfg: Config, t: CoreType, grid: XY, mask: nat)
    requires Valid(cfg)
  {
    && IsBanked(cfg, t, grid, mask) && StaysInPlace(cfg, t)
    && ((t.Dram? && grid == cfg.dramGrid && mask == cfg.masks.dram) || mask == 0)
  }

  /** The fill has come to a position without a core. */
  predicate Past(grid: XY, mask: nat, x: nat, y: nat) {
    var w := Working(mask, grid.x);
    x > w || (x == w && y > 0)
  }

  /** The position x, y of an unharvested grid part is the logical name of bank b's port. */
  lemma LogicalPort(cfg: Config, m: Maps, t: CoreType, grid: XY, mask: nat, b: nat, y: nat)
    requires Valid(cfg) && Sound(cfg, m) && IsBanked(cfg, t, grid, mask) && KnowsAll(cfg, m, t, Logical)
    requires b < grid.x && y < grid.y && !Bit(mask, b)
    ensures var k, c := BankIndex(grid, b, y), CoreCoord(Working(mask, b), y, t, Logical);
            && k < |ListOf(cfg, t)| && c in m.toNoc0 && m.toNoc0[c] == ListOf(cfg, t)[k]
  {
    LogicalBankName(cfg, t, grid, mask, b, y);
    var k := BankIndex(grid, b, y);
    assert Knows(cfg, m, Core(t, k), Logical);
    KnownLocation(cfg, m, Core(t, k), Logical);
  }

  /** The name of the first position past the working banks belongs to no core. */
  lemma MissingIsStranger(cfg: Config)
    requires Valid(cfg) && Harvested(cfg.masks.dram, cfg.dramGrid.x) > 0
    ensures Stranger(cfg, MissingName(cfg))
  {
    forall k | IsCore(cfg, k)
      ensures Name(cfg, k, Logical) != Some(MissingName(cfg))
    {
      if k.t.Dram? {
        DramIsBanked(cfg);
        BankCell(cfg.dramGrid, k.i);
        assert BankedCore(cfg, Dram, cfg.dramGrid, cfg.masks.dram, k.i);
        WorkingBelow(cfg.masks.dram, k.i / cfg.dramGrid.y, cfg.dramGrid.x);
      }
    }
  }

  /** A stranger is in no sound maps, and inserting it spoils them. */
  lemma InsertionPoisons(cfg: Config, m: Maps)
    requires Valid(cfg) && Sound(cfg, m) && Stranger(cfg, MissingName(cfg))
    ensures MissingName(cfg) !in m.toNoc0
    ensures Poisoned(cfg, m.(toNoc0 := m.toNoc0[MissingName(cfg) := XY(0, 0)]), m)
  {
    var w := MissingName(cfg);
    assert w in m.toNoc0 ==> NameOk(cfg, m, w);
    var s := (XY(0, 0), Logical);
    assert s in m.fromNoc0 ==> SpotOk(cfg, m, s);
  }

  /** Inserting another DRAM name leaves them spoilt. */
  lemma InsertionKeepsPoison(cfg: Config, m: Maps, clean: Maps, c: CoreCoord)
    requires Valid(cfg) && Poisoned(cfg, m, clean) && c.coreType.Dram? && c !in m.toNoc0
    ensures Poisoned(cfg, m.(toNoc0 := m.toNoc0[c := XY(0, 0)]), clean)
  {
    assert forall d: CoreCoord :: !d.coreType.Dram? ==> SameEntry(m, clean, d);
  }

  /** The maps are inverse to each other exactly as long as nothing has been inserted by a lookup. */
  lemma ReadyIsInverse(mgr: CoordinateManager)
    requires mgr.Ready()
    ensures Inverse(mgr.maps) <==> !mgr.spoilt
  {
    if !mgr.spoilt {
      SoundIsInverse(mgr.cfg, mgr.maps);
    } else {
      assert OneWay(mgr.maps, MissingName(mgr.cfg));
    }
  }

  /** Looking up a position past the working banks leaves spoilt maps. */
  lemma PositionIsMissing(cfg: Config, m: Maps, clean: Maps, spoilt: bool, x: nat, y: nat)
    requires Valid(cfg) && Sound(cfg, clean) && Harvested(cfg.masks.dram, cfg.dramGrid.x) > 0
    requires if spoilt then Poisoned(cfg, m, clean)
             else m == clean && CoreCoord(x, y, Dram, Logical) == MissingName(cfg)
    ensures var c := CoreCoord(x, y, Dram, Logical);
            Poisoned(cfg, if c in m.toNoc0 then m else m.(toNoc0 := m.toNoc0[c := XY(0, 0)]), clean)
  {
    var c := CoreCoord(x, y, Dram, Logical);
    MissingIsStranger(cfg);
    if !spoilt {
      InsertionPoisons(cfg, m);
    } else if c !in m.toNoc0 {
      InsertionKeepsPoison(cfg, m, clean, c);
    }
  }

  /** One turn of the filling, on a position with a core or without. */
  method FillPort(mgr: CoordinateManager, t: CoreType, grid: XY, x: nat, y: nat, ghost mask: nat, ghost b: nat,
      ghost before: bool)
    requires mgr.Ready() && Fillable(mgr.cfg, t, grid, mask) && KnowsAll(mgr.cfg, mgr.clean, t, Logical)
    requires x < grid.x && y < grid.y && (t.Dram? ==> !before) && (mgr.spoilt <==> before || Past(grid, mask, x, y))
    requires x < Working(mask, grid.x) ==> b < grid.x && !Bit(mask, b) && Working(mask, b) == x
    modifies mgr`maps, mgr`clean, mgr`spoilt
    ensures mgr.Ready() && Grown(old(mgr.clean), mgr.clean) && (mgr.spoilt <==> before || x >= Working(mask, grid.x))
    ensures x < Working(mask, grid.x) ==> IdentityDone(mgr.cfg, mgr.clean, t, BankIndex(grid, b, y))
  {
    ghost var cfg, m, w := mgr.cfg, mgr.maps, Working(mask, grid.x);
    var c := CoreCoord(x, y, t, Logical);
    ZeroHarvestsNothing(grid.x);
    if x < w {
      LogicalPort(cfg, mgr.clean, t, grid, mask, b, y);
      assert mgr.spoilt ==> SameEntry(mgr.maps, mgr.clean, c);
    } else {
      PositionIsMissing(cfg, mgr.maps, mgr.clean, mgr.spoilt, x, y);
    }
    var noc0 := mgr.LookupOrInsert(c);
    var translated := CoreCoord(noc0.x, noc0.y, t, Translated);
    if x < w {
      ghost var k := Core(t, BankIndex(grid, b, y));
      assert Name(cfg, k, Translated) == Some(translated) && At(cfg, k) == noc0;
      AddKeepsSound(cfg, mgr.clean, k, Translated);
      AddKeepsTypes(mgr.clean, translated, noc0);
      if mgr.spoilt {
        AddKeepsPoison(cfg, mgr.maps, mgr.clean, translated, noc0);
      }
      mgr.clean := Add(mgr.clean, translated, noc0);
    } else {
      AddKeepsPoison(cfg, mgr.maps, mgr.clean, translated, noc0);
      mgr.spoilt := true;
    }
    mgr.AddCoreTranslation(translated, noc0);
  }

  /** The first n ports of a bank are entered. */
  ghost predicate PortsDone(cfg: Config, m: Maps, t: CoreType, grid: XY, b: nat, n: nat)
    requires b < grid.x && n <= grid.y
  {
    forall q :: 0 <= q < n ==> IdentityDone(cfg, m, t, BankIndex(grid, b, q))
  }

  lemma OneMorePort(cfg: Config, m: Maps, m': Maps, t: CoreType, grid: XY, b: nat, n: nat)
    requires b < grid.x && n < grid.y && PortsDone(cfg, m, t, grid, b, n) && Grown(m, m')
    requires IdentityDone(cfg, m', t, BankIndex(grid, b, n))
    ensures PortsDone(cfg, m', t, grid, b, n + 1)
  {
    forall q | 0 <= q < n + 1
      ensures IdentityDone(cfg, m', t, BankIndex(grid, b, q))
    {
      assert q < n ==> IdentityDone(cfg, m, t, BankIndex(grid, b, q));
    }
  }

  method FillBank(mgr: CoordinateManager, t: CoreType, grid: XY, x: nat, ghost mask: nat, ghost b: nat,
      ghost before: bool)
    requires mgr.Ready() && Fillable(mgr.cfg, t, grid, mask) && KnowsAll(mgr.cfg, mgr.clean, t, Logical)
    requires x < grid.x && (t.Dram? ==> !before)
             && (mgr.spoilt <==> before || (x > Working(mask, grid.x) && grid.y > 0))
    requires x < Working(mask, grid.x) ==> b < grid.x && !Bit(mask, b) && Working(mask, b) == x
    modifies mgr`maps, mgr`clean, mgr`spoilt
    ensures mgr.Ready() && Grown(old(mgr.clean), mgr.clean)
    ensures mgr.spoilt <==> before || (x >= Working(mask, grid.x) && grid.y > 0)
    ensures x < Working(mask, grid.x) ==> DefaultBankDone(mgr.cfg, mgr.clean, t, grid, b)
  {
    ghost var working := x < Working(mask, grid.x);
    for y := 0 to grid.y
      invariant mgr.Ready() && Grown(old(mgr.clean), mgr.clean)
      invariant mgr.spoilt <==> before || (grid.y > 0 && Past(grid, mask, x, y))
      invariant working ==> PortsDone(mgr.cfg, mgr.clean, t, grid, b, y)
    {
      ghost var m := mgr.clean;
      KnowsAllGrows(mgr.cfg, old(mgr.clean), mgr.clean, t, Logical);
      FillPort(mgr, t, grid, x, y, mask, b, before);
      if working {
        OneMorePort(mgr.cfg, m, mgr.clean, t, grid, b, y);
      }
    }
  }

  lemma BanksGrow(cfg: Config, m: Maps, m': Maps, t: CoreType, grid: XY, mask: nat, x: nat, unit: nat)
    requires Grown(m, m') && x < grid.x
    requires forall b :: 0 <= b < grid.x && !Bit(mask, b) && Working(mask, b) < x ==>
             DefaultBankDone(cfg, m, t, grid, b)
    requires x < Working(mask, grid.x) ==>
             !Bit(mask, unit) && Working(mask, unit) == x && DefaultBankDone(cfg, m', t, grid, unit)
    ensures forall b :: 0 <= b < grid.x && !Bit(mask, b) && Working(mask, b) < x + 1 ==>
            DefaultBankDone(cfg, m', t, grid, b)
  {
    forall b | 0 <= b < grid.x && !Bit(mask, b) && Working(mask, b) < x + 1
      ensures DefaultBankDone(cfg, m', t, grid, b)
    {
      if Working(mask, b) < x {
        DefaultBankDoneGrows(cfg, m, m', t, grid, b);
      } else {
        WorkingBelow(mask, b, grid.x);
        WorkingInjective(mask, b, unit);
      }
    }
  }

  lemma BanksCover(cfg: Config, m: Maps, t: CoreType, grid: XY)
    requires Valid(cfg) && StaysInPlace(cfg, t) && |ListOf(cfg, t)| == grid.y * grid.x
    requires forall b :: 0 <= b < grid.x && grid.y > 0 ==> DefaultBankDone(cfg, m, t, grid, b)
    ensures KnowsAll(cfg, m, t, Translated)
  {
    forall i | 0 <= i < |ListOf(cfg, t)|
      ensures Knows(cfg, m, Core(t, i), Translated)
    {
      BankCell(grid, i);
      assert DefaultBankDone(cfg, m, t, grid, i / grid.y);
      DefaultBankKnown(cfg, m, t, i);
    }
  }

  lemma AllBanksDone(cfg: Config, m: Maps, t: CoreType, grid: XY, mask: nat)
    requires Valid(cfg) && Fillable(cfg, t, grid, mask) && (Harvested(mask, grid.x) == 0 || grid.y == 0)
    requires forall b :: 0 <= b < grid.x && !Bit(mask, b) && Working(mask, b) < grid.x ==>
             DefaultBankDone(cfg, m, t, grid, b)
    ensures KnowsAll(cfg, m, t, Translated)
  {
    forall b | 0 <= b < grid.x && grid.y > 0
      ensures DefaultBankDone(cfg, m, t, grid, b)
    {
      WorkingBelow(mask, b, grid.x);
    }
    BanksCover(cfg, m, t, grid);
  }

  /**
   The whole filling.  The maps come out inverse to each other exactly if no bank is
   harvested (and none was before); then every core is known by its location.
   */
  method FillBanksDefault(mgr: CoordinateManager, t: CoreType, grid: XY, ghost mask: nat)
    requires mgr.Ready() && (t.Dram? ==> !mgr.spoilt)
    requires Fillable(mgr.cfg, t, grid, mask) && KnowsAll(mgr.cfg, mgr.clean, t, Logical)
    modifies mgr`maps, mgr`clean, mgr`spoilt
    ensures mgr.Ready() && Grown(old(mgr.clean), mgr.clean)
    ensures mgr.spoilt <==> old(mgr.spoilt) || (Harvested(mask, grid.x) > 0 && grid.y > 0)
    ensures !old(mgr.spoilt) ==> (Inverse(mgr.maps) <==> Harvested(mask, grid.x) == 0 || grid.y == 0)
    ensures Harvested(mask, grid.x) == 0 || grid.y == 0 ==> KnowsAll(mgr.cfg, mgr.clean, t, Translated)
  {
    ghost var w, before := Working(mask, grid.x), mgr.spoilt;
    for x := 0 to grid.x
      invariant mgr.Ready() && Grown(old(mgr.clean), mgr.clean)
      invariant mgr.spoilt <==> before || (x > w && grid.y > 0)
      invariant forall b :: 0 <= b < grid.x && !Bit(mask, b) && Working(mask, b) < x ==>
                DefaultBankDone(mgr.cfg, mgr.clean, t, grid, b)
    {
      ghost var m := mgr.clean;
      ghost var unit := 0;
      if x < w {
        unit := UnitOfRank(mask, grid.x, x);
      }
      KnowsAllGrows(mgr.cfg, old(mgr.clean), mgr.clean, t, Logical);
      FillBank(mgr, t, grid, x, mask, unit, before);
      BanksGrow(mgr.cfg, m, mgr.clean, t, grid, mask, x, unit);
    }
    ReadyIsInverse(mgr);
    if Harvested(mask, grid.x) == 0 || grid.y == 0 {
      AllBanksDone(mgr.cfg, mgr.clean, t, grid, mask);
    }
  }
}
