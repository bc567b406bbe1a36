/**
 The four names of a core.  A core is a type and an index into that type's list of NOC0
 locations; each coordinate system gives it at most one name.
 */
module CoordNames {
  import opened Wrappers
  import opened Modular
  import opened HarvestMask
  import opened TensixSlots
  import opened DramSlots

  datatype XY = XY(x: nat, y: nat)

  datatype CoreType = Tensix | Dram | Eth | Arc | Pcie | RouterOnly | Security | L2cpu | Dispatch

  datatype CoordSystem = Logical | Noc0 | Translated | Noc1 | Literal

  datatype CoreCoord = CoreCoord(x: nat, y: nat, coreType: CoreType, system: CoordSystem)

  datatype Arch = Wormhole | Blackhole

  datatype Masks = Masks(tensix: nat, dram: nat, eth: nat, pcie: nat, l2cpu: nat)

  datatype Lists = Lists(
    tensix: seq<XY>, dram: seq<XY>, eth: seq<XY>, arc: seq<XY>, pcie: seq<XY>,
    router: seq<XY>, security: seq<XY>, l2cpu: seq<XY>, dispatch: seq<XY>)

  /** `dieColumns` is HARVESTING_NOC_LOCATIONS; a full die has 2 * `halfBanks` DRAM banks. */
  datatype Config = Config(
    arch: Arch, translation: bool, masks: Masks,
    tensixGrid: XY, dramGrid: XY, arcGrid: XY, pcieGrid: XY, lists: Lists,
    noc1X: seq<nat>, noc1Y: seq<nat>,
    dieColumns: seq<nat>, halfBanks: nat, portsPerBank: nat)

  const WH_TENSIX_START := XY(18, 18)
  const WH_ETH_START := XY(18, 16)
  const BH_ETH_START := XY(20, 25)
  const BH_PCIE_START := XY(19, 24)
  const BH_DRAM_START := XY(17, 12)

  datatype Core = Core(t: CoreType, i: nat)

  function ListOf(cfg: Config, t: CoreType): seq<XY> {
    match t
    case Tensix => cfg.lists.tensix
    case Dram => cfg.lists.dram
    case Eth => cfg.lists.eth
    case Arc => cfg.lists.arc
    case Pcie => cfg.lists.pcie
    case RouterOnly => cfg.lists.router
    case Security => cfg.lists.security
    case L2cpu => cfg.lists.l2cpu
    case Dispatch => cfg.lists.dispatch
  }

  predicate IsCore(cfg: Config, c: Core) {
    c.i < |ListOf(cfg, c.t)|
  }

  function At(cfg: Config, c: Core): XY
    requires IsCore(cfg, c)
  {
    ListOf(cfg, c.t)[c.i]
  }

  /** No two cores sit at the same NOC0 location. */
  ghost predicate DistinctCores(cfg: Config) {
    forall c, d :: IsCore(cfg, c) && IsCore(cfg, d) && At(cfg, c) == At(cfg, d) ==> c == d
  }

  predicate HasNoc1(cfg: Config) {
    cfg.noc1X != [] && cfg.noc1Y != []
  }

  /** The NOC1 axis maps cover every core and are injective. */
  ghost predicate Noc1Ok(cfg: Config) {
    HasNoc1(cfg) ==>
      && (forall c :: IsCore(cfg, c) ==> At(cfg, c).x < |cfg.noc1X| && At(cfg, c).y < |cfg.noc1Y|)
      && (forall a, b :: 0 <= a < b < |cfg.noc1X| ==> cfg.noc1X[a] != cfg.noc1X[b])
      && (forall a, b :: 0 <= a < b < |cfg.noc1Y| ==> cfg.noc1Y[a] != cfg.noc1Y[b])
  }

  predicate GridsOk(cfg: Config) {
    && |cfg.lists.tensix| == cfg.tensixGrid.x * cfg.tensixGrid.y
    && |cfg.lists.dram| == cfg.dramGrid.y * cfg.dramGrid.x
    && |cfg.lists.arc| == cfg.arcGrid.y * cfg.arcGrid.x
    && |cfg.lists.pcie| == cfg.pcieGrid.y * cfg.pcieGrid.x
  }

  /** Columns and rows that the Ethernet shift would merge are not in use. */
  predicate WormholeShape(cfg: Config) {
    && Fits(cfg.masks.tensix, cfg.tensixGrid.y)
    && (forall i :: 0 <= i < |cfg.lists.eth| ==> cfg.lists.eth[i].x != 5 && cfg.lists.eth[i].y != 1)
  }

  predicate WormholeOk(cfg: Config) {
    WormholeShape(cfg) && cfg.masks.dram == 0 && cfg.masks.eth == 0
  }

  /** A full die of DRAM has 2 * `halfBanks` banks with `portsPerBank` ports. */
  predicate BlackholeDramShape(cfg: Config) {
    && Fits(cfg.masks.dram, cfg.dramGrid.x)
    && cfg.halfBanks > 0 && cfg.dramGrid.x <= 2 * cfg.halfBanks
    && (cfg.dramGrid.x == 2 * cfg.halfBanks ==> cfg.dramGrid.y == cfg.portsPerBank)
  }

  predicate BlackholeDramOk(cfg: Config) {
    BlackholeDramShape(cfg) && Harvested(cfg.masks.dram, cfg.dramGrid.x) <= 1
  }

  predicate BlackholeShape(cfg: Config) {
    && Fits(cfg.masks.tensix, cfg.tensixGrid.x) && (cfg.tensixGrid.x > 0 ==> cfg.tensixGrid.y > 0)
    && BlackholeDramShape(cfg)
    && Fits(cfg.masks.eth, |cfg.lists.eth|)
    && (forall i :: 0 <= i < |cfg.lists.eth| ==> cfg.lists.eth[i].y != BH_ETH_START.y)
    && cfg.pcieGrid.y == 1 && Fits(cfg.masks.pcie, cfg.pcieGrid.x)
    && (forall i :: 0 <= i < |cfg.lists.pcie| ==> cfg.lists.pcie[i] != BH_PCIE_START)
  }

  predicate BlackholeOk(cfg: Config) {
    BlackholeShape(cfg) && BlackholeDramOk(cfg)
  }

  /** What the device description must provide before the constructor's own checks. */
  ghost predicate WellFormed(cfg: Config) {
    && DistinctCores(cfg) && Noc1Ok(cfg) && GridsOk(cfg)
    && if cfg.arch.Wormhole? then WormholeShape(cfg) else BlackholeShape(cfg)
  }

  ghost predicate Valid(cfg: Config) {
    && DistinctCores(cfg) && Noc1Ok(cfg) && GridsOk(cfg)
    && if cfg.arch.Wormhole? then WormholeOk(cfg) else BlackholeOk(cfg)
  }

  /** Column (or bank) and row (or port) of a core in its grid. */
  function TensixX(cfg: Config, i: nat): nat requires i < cfg.tensixGrid.x * cfg.tensixGrid.y {
    GridCell(i, cfg.tensixGrid.x, cfg.tensixGrid.y);
    i % cfg.tensixGrid.x
  }

  function TensixY(cfg: Config, i: nat): nat requires i < cfg.tensixGrid.x * cfg.tensixGrid.y {
    GridCell(i, cfg.tensixGrid.x, cfg.tensixGrid.y);
    i / cfg.tensixGrid.x
  }

  function Find(s: seq<nat>, x: nat): (i: nat)
    ensures i <= |s| && (i < |s| ==> s[i] == x)
    ensures forall j :: 0 <= j < i ==> s[j] != x
  {
    if s == [] || s[0] == x then 0 else 1 + Find(s[1..], x)
  }

  /** Die index of each Tensix column, read off the first row. */
  function DieKeys(cfg: Config): (keys: seq<nat>)
    requires |cfg.lists.tensix| >= cfg.tensixGrid.x
    ensures |keys| == cfg.tensixGrid.x
  {
    seq(cfg.tensixGrid.x, x requires 0 <= x < cfg.tensixGrid.x => Find(cfg.dieColumns, cfg.lists.tensix[x].x))
  }

  function DramHarvest(cfg: Config): Harvest {
    HarvestOf(cfg.masks.dram, cfg.dramGrid.x)
  }

  /** The Wormhole shift of Ethernet rows and columns to consecutive translated ones. */
  function WormholeEth(p: XY): XY {
    XY((if p.x > 5 then p.x - 1 else p.x) + WH_ETH_START.x - 1,
       (if p.y == 6 then 1 else p.y) + WH_ETH_START.y)
  }

  /** Index of the core at a bank and port of a grid stored bank by bank. */
  function BankIndex(grid: XY, bank: nat, port: nat): (i: nat)
    requires bank < grid.x && port < grid.y
    ensures i < grid.y * grid.x && i / grid.y == bank && i % grid.y == port
  {
    FlatIndexBelow(port, bank, grid.y, grid.x);
    FlatIndex(port, bank, grid.y);
    bank * grid.y + port
  }

  lemma BankCell(grid: XY, i: nat)
    requires i < grid.y * grid.x
    ensures grid.y > 0 && i / grid.y < grid.x && i % grid.y < grid.y && i == BankIndex(grid, i / grid.y, i % grid.y)
  {
    GridCell(i, grid.y, grid.x);
  }

  /** Only Blackhole looks at the PCIE mask. */
  function PcieMask(cfg: Config): nat {
    if cfg.arch.Blackhole? then cfg.masks.pcie else 0
  }

  /** Harvested cores, routers, security and dispatch cores have no logical name. */
  function LogicalXY(cfg: Config, c: Core): Option<XY>
    requires GridsOk(cfg) && IsCore(cfg, c)
  {
    match c.t
    case Tensix =>
      var x, y, mask := TensixX(cfg, c.i), TensixY(cfg, c.i), cfg.masks.tensix;
      if cfg.arch.Blackhole? then (if Bit(mask, x) then None else Some(XY(Working(mask, x), y)))
      else (if Bit(mask, y) then None else Some(XY(x, Working(mask, y))))
    case Dram =>
      GridCell(c.i, cfg.dramGrid.y, cfg.dramGrid.x);
      var bank, port := c.i / cfg.dramGrid.y, c.i % cfg.dramGrid.y;
      if Bit(cfg.masks.dram, bank) then None else Some(XY(Working(cfg.masks.dram, bank), port))
    case Eth => if Bit(cfg.masks.eth, c.i) then None else Some(XY(0, Working(cfg.masks.eth, c.i)))
    case Arc =>
      GridCell(c.i, cfg.arcGrid.y, cfg.arcGrid.x);
      Some(XY(c.i / cfg.arcGrid.y, c.i % cfg.arcGrid.y))
    case Pcie =>
      GridCell(c.i, cfg.pcieGrid.y, cfg.pcieGrid.x);
      var x, y := c.i / cfg.pcieGrid.y, c.i % cfg.pcieGrid.y;
      if Bit(PcieMask(cfg), x) then None else Some(XY(Working(PcieMask(cfg), x), y))
    case L2cpu =>
      if cfg.arch.Wormhole? || Bit(cfg.masks.l2cpu, c.i) then None
      else Some(XY(0, Working(cfg.masks.l2cpu, c.i)))
    case _ => None
  }

  /** Index of the Tensix core at a column and row. */
  function TensixIndex(cfg: Config, x: nat, y: nat): (i: nat)
    requires GridsOk(cfg) && x < cfg.tensixGrid.x && y < cfg.tensixGrid.y
    ensures i < |cfg.lists.tensix| && TensixX(cfg, i) == x && TensixY(cfg, i) == y
  {
    FlatIndexBelow(x, y, cfg.tensixGrid.x, cfg.tensixGrid.y);
    FlatIndex(x, y, cfg.tensixGrid.x);
    x + y * cfg.tensixGrid.x
  }

  lemma TensixCell(cfg: Config, i: nat)
    requires GridsOk(cfg) && i < |cfg.lists.tensix|
    ensures TensixX(cfg, i) < cfg.tensixGrid.x && TensixY(cfg, i) < cfg.tensixGrid.y
    ensures i == TensixIndex(cfg, TensixX(cfg, i), TensixY(cfg, i))
    ensures cfg.tensixGrid.x <= |cfg.lists.tensix|
  {
    GridCell(i, cfg.tensixGrid.x, cfg.tensixGrid.y);
    FlatIndexBelow(cfg.tensixGrid.x - 1, 0, cfg.tensixGrid.x, cfg.tensixGrid.y);
  }

  /** Where column x goes. */
  function SlotOfColumn(cfg: Config, x: nat): (s: nat)
    requires x < cfg.tensixGrid.x <= |cfg.lists.tensix|
    ensures s < cfg.tensixGrid.x
  {
    ColumnSlot(cfg.masks.tensix, DieKeys(cfg), x)
  }

  function TranslatedTensix(cfg: Config, i: nat): XY
    requires GridsOk(cfg) && i < |cfg.lists.tensix|
  {
    TensixCell(cfg, i);
    var x, y := TensixX(cfg, i), TensixY(cfg, i);
    if cfg.arch.Wormhole? then
      XY(x + WH_TENSIX_START.x, RowSlot(cfg.masks.tensix, cfg.tensixGrid.y, y) + WH_TENSIX_START.y)
    else
      cfg.lists.tensix[TensixIndex(cfg, SlotOfColumn(cfg, x), y)]
  }

  function TranslatedDram(cfg: Config, i: nat): XY
    requires GridsOk(cfg) && BlackholeDramOk(cfg) && i < |cfg.lists.dram|
  {
    if cfg.dramGrid.x < 2 * cfg.halfBanks then cfg.lists.dram[i]
    else
      GridCell(i, cfg.dramGrid.y, cfg.dramGrid.x);
      LogicalBank(cfg.masks.dram, cfg.dramGrid.x, i / cfg.dramGrid.y);
      var slot := BankSlot(cfg.halfBanks, DramHarvest(cfg), i / cfg.dramGrid.y);
      XY(BH_DRAM_START.x + slot.col, BH_DRAM_START.y + PortRow(cfg.portsPerBank, slot.idx, i % cfg.dramGrid.y))
  }

  function TranslatedEth(cfg: Config, i: nat): XY
    requires i < |cfg.lists.eth|
  {
    if cfg.arch.Wormhole? then WormholeEth(cfg.lists.eth[i])
    else if Bit(cfg.masks.eth, i) then cfg.lists.eth[i]
    else XY(BH_ETH_START.x + Working(cfg.masks.eth, i), BH_ETH_START.y)
  }

  /** Only the first working Blackhole PCIE core moves. */
  function TranslatedPcie(cfg: Config, i: nat): XY
    requires i < |cfg.lists.pcie|
  {
    if cfg.arch.Blackhole? && !Bit(cfg.masks.pcie, i) && Working(cfg.masks.pcie, i) == 0 then BH_PCIE_START
    else cfg.lists.pcie[i]
  }

  function TranslatedXY(cfg: Config, c: Core): XY
    requires GridsOk(cfg) && (cfg.arch.Blackhole? ==> BlackholeDramOk(cfg)) && IsCore(cfg, c)
  {
    if !cfg.translation then At(cfg, c)
    else match c.t
      case Tensix => TranslatedTensix(cfg, c.i)
      case Dram => if cfg.arch.Wormhole? then At(cfg, c) else TranslatedDram(cfg, c.i)
      case Eth => TranslatedEth(cfg, c.i)
      case Pcie => TranslatedPcie(cfg, c.i)
      case _ => At(cfg, c)
  }

  function NameXY(cfg: Config, c: Core, sys: CoordSystem): Option<XY>
    requires GridsOk(cfg) && (cfg.arch.Blackhole? ==> BlackholeDramOk(cfg)) && IsCore(cfg, c)
    requires HasNoc1(cfg) ==> At(cfg, c).x < |cfg.noc1X| && At(cfg, c).y < |cfg.noc1Y|
  {
    match sys
    case Noc0 => Some(At(cfg, c))
    case Noc1 => if HasNoc1(cfg) then Some(XY(cfg.noc1X[At(cfg, c).x], cfg.noc1Y[At(cfg, c).y])) else None
    case Logical => LogicalXY(cfg, c)
    case Translated => Some(TranslatedXY(cfg, c))
    case Literal => None
  }

  /** What a core is called in a coordinate system. */
  ghost function Name(cfg: Config, c: Core, sys: CoordSystem): Option<CoreCoord>
    requires Valid(cfg) && IsCore(cfg, c)
  {
    match NameXY(cfg, c, sys)
    case None => None
    case Some(p) => Some(CoreCoord(p.x, p.y, c.t, sys))
  }

  lemma WorkingInjective(mask: nat, i: nat, j: nat)
    requires !Bit(mask, i) && !Bit(mask, j) && Working(mask, i) == Working(mask, j)
    ensures i == j
  {
    if i < j {
      WorkingRankOrder(mask, i, j);
    } else if j < i {
      WorkingRankOrder(mask, j, i);
    }
  }

  lemma BankedInjective(grid: XY, mask: nat, i: nat, j: nat)
    requires i < grid.y * grid.x && j < grid.y * grid.x
    ensures grid.y > 0
    ensures !Bit(mask, i / grid.y) && !Bit(mask, j / grid.y) && i % grid.y == j % grid.y ==>
              Working(mask, i / grid.y) == Working(mask, j / grid.y) ==> i == j
  {
    GridCell(i, grid.y, grid.x);
    GridCell(j, grid.y, grid.x);
    if !Bit(mask, i / grid.y) && !Bit(mask, j / grid.y) && Working(mask, i / grid.y) == Working(mask, j / grid.y) {
      WorkingInjective(mask, i / grid.y, j / grid.y);
    }
  }

  lemma LogicalInjective(cfg: Config, c: Core, d: Core)
    requires GridsOk(cfg) && IsCore(cfg, c) && IsCore(cfg, d) && c.t == d.t
    requires LogicalXY(cfg, c).Some? && LogicalXY(cfg, c) == LogicalXY(cfg, d)
    ensures c == d
  {
    match c.t
    case Tensix =>
      TensixCell(cfg, c.i);
      TensixCell(cfg, d.i);
      if cfg.arch.Blackhole? {
        WorkingInjective(cfg.masks.tensix, TensixX(cfg, c.i), TensixX(cfg, d.i));
      } else {
        WorkingInjective(cfg.masks.tensix, TensixY(cfg, c.i), TensixY(cfg, d.i));
      }
    case Dram => BankedInjective(cfg.dramGrid, cfg.masks.dram, c.i, d.i);
    case Eth => WorkingInjective(cfg.masks.eth, c.i, d.i);
    case Arc =>
      GridCell(c.i, cfg.arcGrid.y, cfg.arcGrid.x);
      GridCell(d.i, cfg.arcGrid.y, cfg.arcGrid.x);
    case Pcie => BankedInjective(cfg.pcieGrid, PcieMask(cfg), c.i, d.i);
    case L2cpu => WorkingInjective(cfg.masks.l2cpu, c.i, d.i);
  }

  lemma SameIndex(cfg: Config, t: CoreType, i: nat, j: nat)
    requires DistinctCores(cfg) && i < |ListOf(cfg, t)| && j < |ListOf(cfg, t)|
             && ListOf(cfg, t)[i] == ListOf(cfg, t)[j]
    ensures i == j
  {
    assert IsCore(cfg, Core(t, i)) && IsCore(cfg, Core(t, j)) && At(cfg, Core(t, i)) == At(cfg, Core(t, j));
  }

  lemma TranslatedTensixInjective(cfg: Config, i: nat, j: nat)
    requires Valid(cfg) && i < |cfg.lists.tensix| && j < |cfg.lists.tensix|
    requires TranslatedTensix(cfg, i) == TranslatedTensix(cfg, j)
    ensures i == j
  {
    TensixCell(cfg, i);
    TensixCell(cfg, j);
    var x, y, x', y' := TensixX(cfg, i), TensixY(cfg, i), TensixX(cfg, j), TensixY(cfg, j);
    if cfg.arch.Wormhole? {
      RowSlotsPermute(cfg.masks.tensix, cfg.tensixGrid.y, y, y');
    } else {
      var s, s' := SlotOfColumn(cfg, x), SlotOfColumn(cfg, x');
      SameIndex(cfg, Tensix, TensixIndex(cfg, s, y), TensixIndex(cfg, s', y'));
      ColumnSlotsPermute(cfg.masks.tensix, DieKeys(cfg), x, x');
    }
  }

  lemma TranslatedDramInjective(cfg: Config, i: nat, j: nat)
    requires Valid(cfg) && cfg.arch.Blackhole? && i < |cfg.lists.dram| && j < |cfg.lists.dram|
    requires TranslatedDram(cfg, i) == TranslatedDram(cfg, j)
    ensures i == j
  {
    if cfg.dramGrid.x < 2 * cfg.halfBanks {
      SameIndex(cfg, Dram, i, j);
    } else {
      var p, k, h := cfg.portsPerBank, cfg.halfBanks, DramHarvest(cfg);
      GridCell(i, p, cfg.dramGrid.x);
      GridCell(j, p, cfg.dramGrid.x);
      LogicalBank(cfg.masks.dram, cfg.dramGrid.x, i / p);
      PortRowUnique(p, BankSlot(k, h, i / p).idx, i % p, BankSlot(k, h, j / p).idx, j % p);
      BankSlotsInvert(k, h, i / p);
      BankSlotsInvert(k, h, j / p);
    }
  }

  lemma TranslatedEthInjective(cfg: Config, i: nat, j: nat)
    requires Valid(cfg) && i < |cfg.lists.eth| && j < |cfg.lists.eth|
    requires TranslatedEth(cfg, i) == TranslatedEth(cfg, j)
    ensures i == j
  {
    if cfg.arch.Wormhole? || Bit(cfg.masks.eth, i) {
      SameIndex(cfg, Eth, i, j);
    } else {
      WorkingInjective(cfg.masks.eth, i, j);
    }
  }

  lemma TranslatedPcieInjective(cfg: Config, i: nat, j: nat)
    requires Valid(cfg) && i < |cfg.lists.pcie| && j < |cfg.lists.pcie|
    requires TranslatedPcie(cfg, i) == TranslatedPcie(cfg, j)
    ensures i == j
  {
    if TranslatedPcie(cfg, i) == cfg.lists.pcie[i] {
      SameIndex(cfg, Pcie, i, j);
    } else {
      WorkingInjective(cfg.masks.pcie, i, j);
    }
  }

  lemma TranslatedInjective(cfg: Config, c: Core, d: Core)
    requires Valid(cfg) && IsCore(cfg, c) && IsCore(cfg, d) && c.t == d.t
    requires TranslatedXY(cfg, c) == TranslatedXY(cfg, d)
    ensures c == d
  {
    if cfg.translation && c.t.Tensix? {
      TranslatedTensixInjective(cfg, c.i, d.i);
    } else if cfg.translation && c.t.Dram? && cfg.arch.Blackhole? {
      TranslatedDramInjective(cfg, c.i, d.i);
    } else if cfg.translation && c.t.Eth? {
      TranslatedEthInjective(cfg, c.i, d.i);
    } else if cfg.translation && c.t.Pcie? {
      TranslatedPcieInjective(cfg, c.i, d.i);
    } else {
      SameIndex(cfg, c.t, c.i, d.i);
    }
  }

  lemma Noc1Injective(cfg: Config, c: Core, d: Core)
    requires Valid(cfg) && IsCore(cfg, c) && IsCore(cfg, d)
    requires NameXY(cfg, c, Noc1).Some? && NameXY(cfg, c, Noc1) == NameXY(cfg, d, Noc1)
    ensures c == d
  {
    assert At(cfg, c) == At(cfg, d);
  }

  /** No two cores share a name. */
  lemma NamesAreUnique(cfg: Config, c: Core, d: Core, sys: CoordSystem)
    requires Valid(cfg) && IsCore(cfg, c) && IsCore(cfg, d)
    requires Name(cfg, c, sys).Some? && Name(cfg, c, sys) == Name(cfg, d, sys)
    ensures c == d
  {
    match sys
    case Noc0 =>
    case Noc1 => Noc1Injective(cfg, c, d);
    case Logical => LogicalInjective(cfg, c, d);
    case Translated => TranslatedInjective(cfg, c, d);
  }
}
