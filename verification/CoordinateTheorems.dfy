/** What the finished translation maps of a coordinate manager look like. */
module CoordinateTheorems {
  import opened Wrappers
  import opened Modular
  import opened HarvestMask
  import opened TensixSlots
  import opened DramSlots
  import opened CoordNames
  import opened CoordinateMaps
  import opened CoordinateFacts
  import opened CoordinateInit
  import opened BlackholeDram

  /** The translated DRAM cells of a full die: two columns of k * p rows. */
  predicate InRectangle(cfg: Config, x: nat, y: nat) {
    && BH_DRAM_START.x <= x < BH_DRAM_START.x + 2
    && BH_DRAM_START.y <= y < BH_DRAM_START.y + cfg.halfBanks * cfg.portsPerBank
  }

  /** A translated DRAM name, as bank and port. */
  lemma PortCell(cfg: Config, b: nat, q: nat)
    requires FullDie(cfg) && b < cfg.dramGrid.x && q < cfg.dramGrid.y
    ensures HarvestFits(cfg.halfBanks, DramHarvest(cfg))
    ensures var s := BankSlot(cfg.halfBanks, DramHarvest(cfg), b);
            && Name(cfg, Core(Dram, BankIndex(cfg.dramGrid, b, q)), Translated) ==
               Some(CoreCoord(BH_DRAM_START.x + s.col,
                              BH_DRAM_START.y + PortRow(cfg.portsPerBank, s.idx, q), Dram, Translated))
            && InRectangle(cfg, BH_DRAM_START.x + s.col, BH_DRAM_START.y + PortRow(cfg.portsPerBank, s.idx, q))
  {
    PortName(cfg, b, q);
    var s := BankSlot(cfg.halfBanks, DramHarvest(cfg), b);
    RowOfIsProduct(cfg.portsPerBank, s.idx);
    PortsFillRectangle(cfg.halfBanks, cfg.portsPerBank, DramHarvest(cfg), b, q);
  }

  lemma FullDieHarvest(cfg: Config)
    requires FullDie(cfg)
    ensures HarvestFits(cfg.halfBanks, DramHarvest(cfg))
  {
    LogicalBank(cfg.masks.dram, cfg.dramGrid.x, 0);
  }

  /** On a full die, with or without a harvested bank, the translated DRAM names are exactly the rectangle. */
  lemma DramFillsRectangle(cfg: Config, m: Maps, x: nat, y: nat)
    requires FullDie(cfg) && Sound(cfg, m) && Complete(cfg, m)
    ensures CoreCoord(x, y, Dram, Translated) in m.toNoc0 <==> InRectangle(cfg, x, y)
  {
    var c := CoreCoord(x, y, Dram, Translated);
    if c in m.toNoc0 {
      assert NameOk(cfg, m, c);
      var k :| IsCore(cfg, k) && Name(cfg, k, Translated) == Some(c) && At(cfg, k) == m.toNoc0[c];
      BankCell(cfg.dramGrid, k.i);
      PortCell(cfg, k.i / cfg.dramGrid.y, k.i % cfg.dramGrid.y);
    }
    if InRectangle(cfg, x, y) {
      FullDieHarvest(cfg);
      var b, q := RectangleIsCovered(
        cfg.halfBanks, cfg.portsPerBank, DramHarvest(cfg), x - BH_DRAM_START.x, y - BH_DRAM_START.y);
      PortCell(cfg, b, q);
      assert KnowsAll(cfg, m, Dram, Translated);
      assert Knows(cfg, m, Core(Dram, BankIndex(cfg.dramGrid, b, q)), Translated);
    }
  }

  predicate FullGrid(cfg: Config) {
    GridsOk(cfg) && BlackholeDramOk(cfg) && cfg.dramGrid.x == 2 * cfg.halfBanks
  }

  /** The translated place of a port in the last slot of a column. */
  function LastSlot(cfg: Config, col: nat, q: nat): XY
    requires cfg.halfBanks > 0
  {
    XY(BH_DRAM_START.x + col, BH_DRAM_START.y + PortRow(cfg.portsPerBank, cfg.halfBanks - 1, q))
  }

  lemma LastSlotPlace(cfg: Config, b: nat, col: nat, q: nat)
    requires FullGrid(cfg) && b < cfg.dramGrid.x && q < cfg.dramGrid.y
    requires BankSlot(cfg.halfBanks, DramHarvest(cfg), b) == Slot(col, cfg.halfBanks - 1)
    ensures TranslatedDram(cfg, BankIndex(cfg.dramGrid, b, q)) == LastSlot(cfg, col, q)
  {
    PortPlace(cfg, b, q);
    RowOfIsProduct(cfg.portsPerBank, cfg.halfBanks - 1);
  }

  lemma HarvestedBankHasNoLogicalName(cfg: Config, b: nat, q: nat)
    requires Valid(cfg) && b < cfg.dramGrid.x && q < cfg.dramGrid.y && Bit(cfg.masks.dram, b)
    ensures Name(cfg, Core(Dram, BankIndex(cfg.dramGrid, b, q)), Logical) == None
  {
    DramIsBanked(cfg);
    assert BankedCore(cfg, Dram, cfg.dramGrid, cfg.masks.dram, BankIndex(cfg.dramGrid, b, q));
  }

  /** The harvested bank is last in the second column. */
  lemma HarvestedBankPlace(cfg: Config, hb: nat, q: nat)
    requires FullGrid(cfg) && DramHarvest(cfg) == Bank(hb) && q < cfg.dramGrid.y
    ensures TranslatedDram(cfg, BankIndex(cfg.dramGrid, hb, q)) == LastSlot(cfg, 1, q)
  {
    HarvestedBankIsLast(cfg.halfBanks, hb);
    LastSlotPlace(cfg, hb, 1, q);
  }

  /** Its mirror bank m is last in the first column. */
  lemma MirrorBankPlace(cfg: Config, hb: nat, m: nat, q: nat)
    requires FullGrid(cfg) && DramHarvest(cfg) == Bank(hb) && q < cfg.dramGrid.y
    requires hb < 2 * cfg.halfBanks && m == Mirror(cfg.halfBanks, hb)
    ensures TranslatedDram(cfg, BankIndex(cfg.dramGrid, m, q)) == LastSlot(cfg, 0, q)
  {
    HarvestedBankIsLast(cfg.halfBanks, hb);
    LastSlotPlace(cfg, m, 0, q);
  }

  /** Working Tensix cores: the column (Blackhole) or row (Wormhole) of the translated name is the logical one. */
  lemma TensixFollowsLogical(cfg: Config, i: nat)
    requires Valid(cfg) && cfg.translation && i < |cfg.lists.tensix|
    ensures TensixX(cfg, i) < cfg.tensixGrid.x && TensixY(cfg, i) < cfg.tensixGrid.y
    ensures cfg.arch.Blackhole? && !Bit(cfg.masks.tensix, TensixX(cfg, i)) ==>
              var r := Working(cfg.masks.tensix, TensixX(cfg, i));
              && Name(cfg, Core(Tensix, i), Logical) == Some(CoreCoord(r, TensixY(cfg, i), Tensix, Logical))
              && r < cfg.tensixGrid.x
              && TranslatedTensix(cfg, i) == cfg.lists.tensix[TensixIndex(cfg, r, TensixY(cfg, i))]
    ensures cfg.arch.Wormhole? && !Bit(cfg.masks.tensix, TensixY(cfg, i)) ==>
              var r := Working(cfg.masks.tensix, TensixY(cfg, i));
              && Name(cfg, Core(Tensix, i), Logical) == Some(CoreCoord(TensixX(cfg, i), r, Tensix, Logical))
              && TranslatedTensix(cfg, i) == XY(TensixX(cfg, i) + WH_TENSIX_START.x, r + WH_TENSIX_START.y)
  {
    TensixCell(cfg, i);
    if cfg.arch.Blackhole? {
      ColumnSlotsPermute(cfg.masks.tensix, DieKeys(cfg), TensixX(cfg, i), TensixX(cfg, i));
    } else {
      RowSlotsPermute(cfg.masks.tensix, cfg.tensixGrid.y, TensixY(cfg, i), TensixY(cfg, i));
    }
  }

  /** The first-row location of column x is first named at place i of the die's list of columns. */
  ghost predicate OnDie(cfg: Config, x: nat, i: nat) {
    && x < |cfg.lists.tensix| && i < |cfg.dieColumns| && cfg.dieColumns[i] == cfg.lists.tensix[x].x
    && forall p :: 0 <= p < i ==> cfg.dieColumns[p] != cfg.lists.tensix[x].x
  }

  /** Harvested columns named before place i, or at it with a smaller number than x. */
  ghost function EarlierOnDie(cfg: Config, x: nat, i: nat): set<nat>
    requires OnDie(cfg, x, i) && cfg.tensixGrid.x <= |cfg.lists.tensix|
  {
    set c: nat | c < cfg.tensixGrid.x && Bit(cfg.masks.tensix, c)
                 && (cfg.lists.tensix[c].x in cfg.dieColumns[..i]
                     || (cfg.lists.tensix[c].x == cfg.lists.tensix[x].x && c < x))
  }

  lemma KeysOnDie(cfg: Config, x: nat, i: nat, c: nat)
    requires cfg.tensixGrid.x <= |cfg.lists.tensix| && OnDie(cfg, x, i)
    requires x < cfg.tensixGrid.x && c < cfg.tensixGrid.x
    ensures Before(DieKeys(cfg), c, x) <==>
            cfg.lists.tensix[c].x in cfg.dieColumns[..i]
            || (cfg.lists.tensix[c].x == cfg.lists.tensix[x].x && c < x)
  {
    var list, at := cfg.dieColumns, cfg.lists.tensix[c].x;
    var p := Find(list, at);
    assert Find(list, cfg.lists.tensix[x].x) == i;
    assert p < i ==> list[..i][p] == at;
    if at in list[..i] {
      var q :| 0 <= q < i && list[..i][q] == at;
      assert list[q] == at;
    }
  }

  /** Blackhole: from the right edge, a harvested column comes after those named before it on the die. */
  lemma HarvestedColumnPlace(cfg: Config, x: nat, i: nat, row: nat)
    requires Valid(cfg) && cfg.arch.Blackhole? && cfg.translation && cfg.tensixGrid.x <= |cfg.lists.tensix|
    requires x < cfg.tensixGrid.x && row < cfg.tensixGrid.y && Bit(cfg.masks.tensix, x) && OnDie(cfg, x, i)
    ensures var s := cfg.tensixGrid.x - 1 - |EarlierOnDie(cfg, x, i)|;
            && 0 <= s
            && var p := cfg.lists.tensix[TensixIndex(cfg, s, row)];
               Name(cfg, Core(Tensix, TensixIndex(cfg, x, row)), Translated) ==
               Some(CoreCoord(p.x, p.y, Tensix, Translated))
  {
    var keys := DieKeys(cfg);
    HarvestedSlotCounts(cfg.masks.tensix, keys, x);
    forall c: nat
      ensures c in HarvestedBefore(cfg.masks.tensix, keys, x) <==> c in EarlierOnDie(cfg, x, i)
    {
      if c < cfg.tensixGrid.x {
        KeysOnDie(cfg, x, i, c);
      }
    }
    assert HarvestedBefore(cfg.masks.tensix, keys, x) == EarlierOnDie(cfg, x, i);
    TensixCell(cfg, TensixIndex(cfg, x, row));
  }

  lemma SubsetIsSmaller(a: set<nat>, b: set<nat>, x: nat)
    requires a <= b && x in b && x !in a
    ensures |a| < |b|
  {
    assert b == a + (b - a);
  }

  /** Of two harvested columns the one named first on the die goes further right. */
  lemma HarvestedColumnsInDieOrder(cfg: Config, x: nat, i: nat, y: nat, j: nat)
    requires cfg.tensixGrid.x <= |cfg.lists.tensix| && x < cfg.tensixGrid.x && y < cfg.tensixGrid.x
    requires Bit(cfg.masks.tensix, x) && Bit(cfg.masks.tensix, y)
    requires OnDie(cfg, x, i) && OnDie(cfg, y, j) && i < j
    ensures cfg.tensixGrid.x - 1 - |EarlierOnDie(cfg, x, i)| > cfg.tensixGrid.x - 1 - |EarlierOnDie(cfg, y, j)|
  {
    var a, b := EarlierOnDie(cfg, x, i), EarlierOnDie(cfg, y, j);
    forall c | c in a
      ensures c in b
    {
      if cfg.lists.tensix[c].x in cfg.dieColumns[..i] {
        var p :| 0 <= p < i && cfg.dieColumns[..i][p] == cfg.lists.tensix[c].x;
        assert cfg.dieColumns[..j][p] == cfg.lists.tensix[c].x;
      } else {
        assert cfg.dieColumns[..j][i] == cfg.lists.tensix[c].x;
      }
    }
    assert cfg.dieColumns[..j][i] == cfg.lists.tensix[x].x;
    SubsetIsSmaller(a, b, x);
  }

  /** Blackhole: every Tensix location is the translated place of some Tensix core. */
  lemma TensixColumnsCovered(cfg: Config, j: nat) returns (i: nat)
    requires Valid(cfg) && cfg.arch.Blackhole? && j < |cfg.lists.tensix|
    ensures i < |cfg.lists.tensix| && TranslatedTensix(cfg, i) == cfg.lists.tensix[j]
  {
    TensixCell(cfg, j);
    var x := ColumnSlotsCover(cfg.masks.tensix, DieKeys(cfg), TensixX(cfg, j));
    i := TensixIndex(cfg, x, TensixY(cfg, j));
  }

  /** Wormhole: every cell of the translated grid is the place of some Tensix core. */
  lemma TensixRowsCovered(cfg: Config, x: nat, y: nat) returns (i: nat)
    requires Valid(cfg) && cfg.arch.Wormhole? && x < cfg.tensixGrid.x && y < cfg.tensixGrid.y
    ensures i < |cfg.lists.tensix| && TranslatedTensix(cfg, i) == XY(WH_TENSIX_START.x + x, WH_TENSIX_START.y + y)
  {
    var row := RowSlotsCover(cfg.masks.tensix, cfg.tensixGrid.y, y);
    i := TensixIndex(cfg, x, row);
  }

  /** The Ethernet locations of a Wormhole: two rows of eight columns. */
  predicate IsWormholeEth(p: XY) {
    (1 <= p.x <= 4 || 6 <= p.x <= 9) && (p.y == 0 || p.y == 6)
  }

  /** A Wormhole's Ethernet cores are translated to eight columns and two rows without gaps, in order. */
  lemma WormholeEthCell(cfg: Config, i: nat)
    requires Valid(cfg) && cfg.arch.Wormhole? && cfg.translation && i < |cfg.lists.eth|
    requires IsWormholeEth(cfg.lists.eth[i])
    ensures var p := cfg.lists.eth[i];
            Name(cfg, Core(Eth, i), Translated) ==
            Some(CoreCoord(if p.x <= 4 then p.x + 17 else p.x + 16, if p.y == 0 then 16 else 17, Eth, Translated))
  {
  }

  lemma EthCellIsTaken(cfg: Config, m: Maps, p: XY)
    requires Valid(cfg) && cfg.arch.Wormhole? && cfg.translation && Sound(cfg, m) && Complete(cfg, m)
    requires IsWormholeEth(p) && p in cfg.lists.eth
    ensures var x, y := if p.x <= 4 then p.x + 17 else p.x + 16, if p.y == 0 then 16 else 17;
            CoreCoord(x, y, Eth, Translated) in m.toNoc0
  {
    var i: nat :| i < |cfg.lists.eth| && cfg.lists.eth[i] == p;
    WormholeEthCell(cfg, i);
    assert KnowsAll(cfg, m, Eth, Translated);
    assert Knows(cfg, m, Core(Eth, i), Translated);
  }

  /** With cores in just these places, the translated Ethernet names are exactly an 8 by 2 rectangle. */
  lemma EthFillsRectangle(cfg: Config, m: Maps, x: nat, y: nat)
    requires Valid(cfg) && cfg.arch.Wormhole? && cfg.translation && Sound(cfg, m) && Complete(cfg, m)
    requires forall p :: p in cfg.lists.eth <==> IsWormholeEth(p)
    ensures CoreCoord(x, y, Eth, Translated) in m.toNoc0 <==> 18 <= x < 26 && 16 <= y < 18
  {
    var c := CoreCoord(x, y, Eth, Translated);
    if c in m.toNoc0 {
      assert NameOk(cfg, m, c);
      var k :| IsCore(cfg, k) && Name(cfg, k, Translated) == Some(c) && At(cfg, k) == m.toNoc0[c];
      assert cfg.lists.eth[k.i] in cfg.lists.eth;
      WormholeEthCell(cfg, k.i);
    }
    if 18 <= x < 26 && 16 <= y < 18 {
      EthCellIsTaken(cfg, m, XY(if x < 22 then x - 17 else x - 16, if y == 16 then 0 else 6));
    }
  }

  /** A DRAM core has the given logical name. */
  ghost predicate HasLogicalDram(cfg: Config, x: nat, y: nat)
    requires GridsOk(cfg)
  {
    exists i :: 0 <= i < |cfg.lists.dram| && LogicalXY(cfg, Core(Dram, i)) == Some(XY(x, y))
  }

  /**
   The default filling looks up every grid position as a logical name: all are there exactly if
   no bank is harvested.
   */
  lemma DefaultFillFindsNamesIff(cfg: Config)
    requires GridsOk(cfg) && cfg.dramGrid.y > 0
    ensures (forall x, y :: 0 <= x < cfg.dramGrid.x && 0 <= y < cfg.dramGrid.y ==> HasLogicalDram(cfg, x, y)) <==>
            Harvested(cfg.masks.dram, cfg.dramGrid.x) == 0
  {
    var mask, g := cfg.masks.dram, cfg.dramGrid;
    if Harvested(mask, g.x) == 0 {
      forall x, y | 0 <= x < g.x && 0 <= y < g.y
        ensures HasLogicalDram(cfg, x, y)
      {
        LogicalBank(mask, g.x, x);
        assert LogicalXY(cfg, Core(Dram, BankIndex(g, x, y))) == Some(XY(x, y));
      }
    } else if g.x > 0 {
      if HasLogicalDram(cfg, g.x - 1, 0) {
        var i :| 0 <= i < |cfg.lists.dram| && LogicalXY(cfg, Core(Dram, i)) == Some(XY(g.x - 1, 0));
        BankCell(g, i);
        WorkingBelow(mask, i / g.y, g.x);
      }
    }
  }

  /** NOC0 and NOC1 pairs are used by one core each, so they always find it. */
  lemma NocPairsFindTheirCore(cfg: Config, m: Maps, c: CoreCoord)
    requires Valid(cfg) && Sound(cfg, m) && TypesOk(m) && c in m.toNoc0 && (c.system.Noc0? || c.system.Noc1?)
    ensures GetCoordAt(m, XY(c.x, c.y), c.system) == Found(c)
  {
    forall d | d in m.toNoc0 && d.system == c.system && d.x == c.x && d.y == c.y
      ensures d == c
    {
      assert NameOk(cfg, m, c) && NameOk(cfg, m, d);
      var k :| IsCore(cfg, k) && Name(cfg, k, c.system) == Some(c) && At(cfg, k) == m.toNoc0[c];
      var l :| IsCore(cfg, l) && Name(cfg, l, d.system) == Some(d) && At(cfg, l) == m.toNoc0[d];
      if c.system.Noc1? {
        Noc1Injective(cfg, k, l);
      }
    }
    CoordAtIsKnown(m, XY(c.x, c.y), c.system);
  }

  /** No translated pair belongs to cores of two types. */
  ghost predicate TranslatedPairsApart(cfg: Config)
    requires Valid(cfg)
  {
    forall k, l :: IsCore(cfg, k) && IsCore(cfg, l) && TranslatedXY(cfg, k) == TranslatedXY(cfg, l) ==> k.t == l.t
  }

  /** The bare translated pair of a core finds the core's own name. */
  ghost predicate PairFinds(cfg: Config, m: Maps, k: Core)
    requires Valid(cfg) && IsCore(cfg, k)
  {
    GetCoordAt(m, TranslatedXY(cfg, k), Translated) == Found(Name(cfg, k, Translated).value)
  }

  /** Whatever a translated pair finds is the name of some core with that pair. */
  lemma PairFindsSomeCore(cfg: Config, m: Maps, k: Core)
    requires Valid(cfg) && Sound(cfg, m) && Complete(cfg, m) && TypesOk(m) && IsCore(cfg, k)
             && TranslatedPairsApart(cfg)
    ensures PairFinds(cfg, m, k)
  {
    var p, name := TranslatedXY(cfg, k), Name(cfg, k, Translated).value;
    assert KnowsAll(cfg, m, k.t, Translated);
    assert Knows(cfg, m, Core(k.t, k.i), Translated);
    CoordAtIsKnown(m, p, Translated);
    assert XY(name.x, name.y) == p;
    var c := GetCoordAt(m, p, Translated).c;
    assert NameOk(cfg, m, c);
    var l :| IsCore(cfg, l) && Name(cfg, l, Translated) == Some(c) && At(cfg, l) == m.toNoc0[c];
    assert TranslatedXY(cfg, l) == p;
    TranslatedInjective(cfg, k, l);
  }

  /** Every translated pair finds its own core exactly if the configuration gives no pair to cores of two types. */
  lemma TranslatedPairsFindTheirCoreIff(cfg: Config, m: Maps)
    requires Valid(cfg) && Sound(cfg, m) && Complete(cfg, m) && TypesOk(m)
    ensures (forall k :: IsCore(cfg, k) ==> PairFinds(cfg, m, k)) <==> TranslatedPairsApart(cfg)
  {
    if TranslatedPairsApart(cfg) {
      forall k | IsCore(cfg, k)
        ensures PairFinds(cfg, m, k)
      {
        PairFindsSomeCore(cfg, m, k);
      }
    } else {
      var k, l :| IsCore(cfg, k) && IsCore(cfg, l) && TranslatedXY(cfg, k) == TranslatedXY(cfg, l) && k.t != l.t;
      assert !PairFinds(cfg, m, k) || !PairFinds(cfg, m, l);
    }
  }

  const NO_MASKS := Masks(0, 0, 0, 0, 0)

  /** One Tensix core, and a router where the translated Tensix grid begins. */
  const ROUTER_CLASH := Config(
    Wormhole, true, NO_MASKS, XY(1, 1), XY(0, 0), XY(0, 0), XY(0, 0),
    Lists([XY(1, 1)], [], [], [], [], [XY(18, 18)], [], [], []), [], [], [], 1, 1)

  lemma RouterClashIsValid()
    ensures Valid(ROUTER_CLASH)
  {
    var cfg := ROUTER_CLASH;
    forall c, d | IsCore(cfg, c) && IsCore(cfg, d) && At(cfg, c) == At(cfg, d)
      ensures c == d
    {
    }
  }

  /** The first Tensix core of a Wormhole with a working first row is translated to (18, 18). */
  lemma TensixStart(cfg: Config)
    requires GridsOk(cfg) && cfg.arch.Wormhole? && !Bit(cfg.masks.tensix, 0) && |cfg.lists.tensix| > 0
    ensures TranslatedTensix(cfg, 0) == WH_TENSIX_START
  {
    TensixCell(cfg, 0);
    GridCell(0, cfg.tensixGrid.x, cfg.tensixGrid.y);
    ModUnique(0, cfg.tensixGrid.x, 0, 0);
    RowSlotsPermute(cfg.masks.tensix, cfg.tensixGrid.y, 0, 0);
  }

  /** Any core of another type with that translated pair clashes with it. */
  lemma ClashAtTensixStart(cfg: Config, l: Core)
    requires Valid(cfg) && cfg.arch.Wormhole? && cfg.translation && !Bit(cfg.masks.tensix, 0) && |cfg.lists.tensix| > 0
    requires IsCore(cfg, l) && !l.t.Tensix? && TranslatedXY(cfg, l) == WH_TENSIX_START
    ensures !TranslatedPairsApart(cfg)
  {
    TensixStart(cfg);
    var k := Core(Tensix, 0);
    assert IsCore(cfg, k) && TranslatedXY(cfg, k) == TranslatedXY(cfg, l);
  }

  lemma RouterClashes(cfg: Config)
    requires cfg == ROUTER_CLASH
    ensures Valid(cfg) && !TranslatedPairsApart(cfg)
  {
    RouterClashIsValid();
    ZeroHasNoBits(0);
    ClashAtTensixStart(cfg, Core(RouterOnly, 0));
  }
}
