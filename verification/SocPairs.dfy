/** The pair a core of any type resolves to on either NOC, and which cores share one. */
module SocPairs {
  import opened Wrappers
  import opened HarvestMask
  import opened CoordNames
  import opened CoordinateMaps
  import opened CoordinateFacts
  import opened SocDescriptor

  /** What every name of a core resolves to; None where the source throws. */
  ghost function PairFor(soc: Soc, k: Core, noc: NocId): Option<XY>
    requires Built(soc) && IsCore(soc.cfg, k)
  {
    var cfg := soc.cfg;
    var wire := NameXY(cfg, k, OnNoc(noc));
    if !cfg.translation then wire
    else if cfg.arch.Wormhole? then
      if k.t.Arc? || k.t.Pcie? || k.t.Dram? then wire else Some(TranslatedXY(cfg, k))
    else if noc.UseNoc1? && k.t.RouterOnly? then
      if wire.Some? && wire.value in soc.routerNoc1 then Some(soc.routerNoc1[wire.value]) else None
    else if noc.UseNoc1? && k.t.Eth? && Bit(cfg.masks.eth, k.i) then
      Some(XY(soc.gridX - 1 - At(cfg, k).x, At(cfg, k).y))
    else Some(TranslatedXY(cfg, k))
  }

  /** A name of the core. */
  ghost predicate Names(soc: Soc, c: CoreCoord, k: Core)
    requires Built(soc) && IsCore(soc.cfg, k)
  {
    c in soc.maps.toNoc0 && Name(soc.cfg, k, c.system) == Some(c) && soc.maps.toNoc0[c] == At(soc.cfg, k)
  }

  lemma NamesSomeCore(soc: Soc, c: CoreCoord) returns (k: Core)
    requires Built(soc) && c in soc.maps.toNoc0
    ensures IsCore(soc.cfg, k) && Names(soc, c, k)
  {
    assert NameOk(soc.cfg, soc.maps, c);
    k :| IsCore(soc.cfg, k) && Name(soc.cfg, k, c.system) == Some(c) && At(soc.cfg, k) == soc.maps.toNoc0[c];
  }

  /** Every core has a name. */
  lemma CoreHasName(soc: Soc, k: Core) returns (c: CoreCoord)
    requires Built(soc) && IsCore(soc.cfg, k)
    ensures Names(soc, c, k)
  {
    assert KnowsAll(soc.cfg, soc.maps, k.t, Noc0);
    assert Knows(soc.cfg, soc.maps, Core(k.t, k.i), Noc0);
    KnownLocation(soc.cfg, soc.maps, k, Noc0);
    c := Name(soc.cfg, k, Noc0).value;
  }

  lemma EntryHasName(cfg: Config, m: Maps, k: Core, sys: CoordSystem)
    requires Valid(cfg) && Sound(cfg, m) && IsCore(cfg, k) && (At(cfg, k), sys) in m.fromNoc0
    ensures NameXY(cfg, k, sys).Some?
  {
    var s := (At(cfg, k), sys);
    assert SpotOk(cfg, m, s);
    var l :| IsCore(cfg, l) && Name(cfg, l, sys) == Some(m.fromNoc0[s]) && At(cfg, l) == s.0;
    assert k == l;
  }

  /** Translating a name of the core gives the core's name in the other system, if it has one. */
  lemma TranslatesToOwnName(soc: Soc, c: CoreCoord, k: Core, sys: CoordSystem)
    requires Built(soc) && IsCore(soc.cfg, k) && Names(soc, c, k)
    ensures ToPair(TranslateCoordTo(soc.maps, c, sys)) == NameXY(soc.cfg, k, sys)
  {
    if (At(soc.cfg, k), sys) in soc.maps.fromNoc0 {
      EntryHasName(soc.cfg, soc.maps, k, sys);
      Pairs(soc, k, sys);
    } else if NameXY(soc.cfg, k, sys).Some? {
      Pairs(soc, k, sys);
    }
  }

  /** The bank of a DRAM core, whose list is stored bank by bank. */
  function BankOf(cfg: Config, i: nat): nat
    requires GridsOk(cfg) && i < |cfg.lists.dram|
  {
    BankCell(cfg.dramGrid, i);
    i / cfg.dramGrid.y
  }

  /** The channel of every name of a DRAM core is its bank's rank among the working ones; harvested banks have none. */
  lemma ChannelIsBankRank(soc: Soc, c: CoreCoord, i: nat)
    requires Built(soc) && i < |soc.cfg.lists.dram| && Names(soc, c, Core(Dram, i))
    ensures var b := BankOf(soc.cfg, i);
            DramChannel(soc, c) == if Bit(soc.cfg.masks.dram, b) then None else Some(Working(soc.cfg.masks.dram, b))
  {
    TranslatesToOwnName(soc, c, Core(Dram, i), Logical);
    BankCell(soc.cfg.dramGrid, i);
  }

  /** Names of two DRAM cores get one channel exactly if the cores lie in the same bank, and it is not harvested. */
  lemma ChannelsAgreeIff(soc: Soc, a: CoreCoord, i: nat, b: CoreCoord, j: nat)
    requires Built(soc) && i < |soc.cfg.lists.dram| && Names(soc, a, Core(Dram, i))
    requires j < |soc.cfg.lists.dram| && Names(soc, b, Core(Dram, j))
    ensures DramChannel(soc, a).Some? && DramChannel(soc, a) == DramChannel(soc, b) <==>
            BankOf(soc.cfg, i) == BankOf(soc.cfg, j) && !Bit(soc.cfg.masks.dram, BankOf(soc.cfg, i))
  {
    ChannelIsBankRank(soc, a, i);
    ChannelIsBankRank(soc, b, j);
    if DramChannel(soc, a).Some? && DramChannel(soc, a) == DramChannel(soc, b) {
      WorkingInjective(soc.cfg.masks.dram, BankOf(soc.cfg, i), BankOf(soc.cfg, j));
    }
  }

  /** Of the names that no core has, exactly the literal ones resolve, each to its own pair on either NOC. */
  lemma ForeignNames(soc: Soc, c: CoreCoord, noc: NocId)
    requires Built(soc) && c !in soc.maps.toNoc0
    ensures TranslateChipCoord(soc, c, noc) == if c.system.Literal? then Some(XY(c.x, c.y)) else None
  {
  }

  lemma HarvestedByLocation(soc: Soc, k: Core)
    requires Built(soc) && IsCore(soc.cfg, k) && k.t.Eth?
    ensures IsHarvestedEth(soc.cfg, At(soc.cfg, k)) <==> Bit(soc.cfg.masks.eth, k.i)
  {
    if IsHarvestedEth(soc.cfg, At(soc.cfg, k)) {
      var i :| 0 <= i < |soc.cfg.lists.eth| && Bit(soc.cfg.masks.eth, i) && soc.cfg.lists.eth[i] == At(soc.cfg, k);
      SameIndex(soc.cfg, Eth, i, k.i);
    }
  }

  /** All names of a core resolve alike. */
  lemma NameResolvesToPair(soc: Soc, c: CoreCoord, k: Core, noc: NocId)
    requires Built(soc) && IsCore(soc.cfg, k) && Names(soc, c, k)
    ensures TranslateChipCoord(soc, c, noc) == PairFor(soc, k, noc)
  {
    TranslatesToOwnName(soc, c, k, OnNoc(noc));
    TranslatesToOwnName(soc, c, k, Noc0);
    TranslatesToOwnName(soc, c, k, Translated);
    if k.t.Eth? {
      HarvestedByLocation(soc, k);
    }
  }

  /** Over NOC0 every core resolves to its translated pair. */
  lemma Noc0PairIsTranslated(soc: Soc, k: Core)
    requires Built(soc) && IsCore(soc.cfg, k)
    ensures PairFor(soc, k, UseNoc0) == Some(TranslatedXY(soc.cfg, k))
  {
  }

  /** The NOC1 pair of the core is its NOC0 location. */
  ghost predicate SameOnAxes(cfg: Config, k: Core)
    requires Valid(cfg) && IsCore(cfg, k)
  {
    NameXY(cfg, k, Noc1) == Some(At(cfg, k))
  }

  /** What the core types need for both NOCs to reach one memory. */
  ghost predicate OneMemory(soc: Soc, k: Core)
    requires Built(soc) && IsCore(soc.cfg, k)
  {
    var cfg := soc.cfg;
    if !cfg.translation || (cfg.arch.Wormhole? && (k.t.Arc? || k.t.Pcie? || k.t.Dram?)) then SameOnAxes(cfg, k)
    else if cfg.arch.Blackhole? && k.t.RouterOnly? then
      var wire := NameXY(cfg, k, Noc1);
      wire.Some? && wire.value in soc.routerNoc1 && soc.routerNoc1[wire.value] == At(cfg, k)
    else if cfg.arch.Blackhole? && k.t.Eth? && Bit(cfg.masks.eth, k.i) then 2 * At(cfg, k).x == soc.gridX - 1
    else true
  }

  /** Exactly which cores are one memory over both NOCs. */
  lemma BothNocsReachOneMemoryIff(soc: Soc, a: CoreCoord, k: Core)
    requires Built(soc) && IsCore(soc.cfg, k) && Names(soc, a, k)
    ensures TranslateChipCoord(soc, a, UseNoc0) == TranslateChipCoord(soc, a, UseNoc1) <==> OneMemory(soc, k)
  {
    NameResolvesToPair(soc, a, k, UseNoc0);
    NameResolvesToPair(soc, a, k, UseNoc1);
  }

  /** On a translated Wormhole each ARC and PCIE core is a different memory over each NOC. */
  lemma WormholeArcIsTwoMemories(soc: Soc, a: CoreCoord)
    requires Built(soc) && soc.cfg.arch.Wormhole? && soc.cfg.translation
    requires soc.cfg.noc1X == WH_NOC1_X && soc.cfg.noc1Y == WH_NOC1_Y
    requires a in soc.maps.toNoc0 && (a.coreType.Arc? || a.coreType.Pcie?)
    ensures TranslateChipCoord(soc, a, UseNoc0).Some? && TranslateChipCoord(soc, a, UseNoc1).Some?
    ensures TranslateChipCoord(soc, a, UseNoc0) != TranslateChipCoord(soc, a, UseNoc1)
  {
    var k := NamesSomeCore(soc, a);
    BothNocsReachOneMemoryIff(soc, a, k);
    NameResolvesToPair(soc, a, k, UseNoc0);
    NameResolvesToPair(soc, a, k, UseNoc1);
    var x := At(soc.cfg, k).x;
    assert WH_NOC1_X[x] == 9 - x;
  }

  /** Cores of the types that the worker store holds, everything but DRAM. */
  predicate Stored(k: Core) {
    !k.t.Dram?
  }

  /** No other core of the store shares a worker's pair on any NOC. */
  ghost predicate PairsPrivate(soc: Soc)
    requires Built(soc)
  {
    forall k, l, noc :: IsCore(soc.cfg, k) && k.t.Tensix? && IsCore(soc.cfg, l) && Stored(l) && !l.t.Tensix? ==>
      PairFor(soc, l, noc) != Some(TranslatedXY(soc.cfg, k))
  }

  ghost predicate IsOther(soc: Soc, c: CoreCoord) {
    c in soc.maps.toNoc0 && !c.coreType.Tensix? && !c.coreType.Dram?
  }

  /** No name of a core of another type in the store ever resolves to a worker's pair. */
  ghost predicate WorkersPrivate(soc: Soc)
    requires Built(soc)
  {
    forall a, n, b, n' :: IsWorker(soc, a) && IsOther(soc, b) ==>
      TranslateChipCoord(soc, a, n) != TranslateChipCoord(soc, b, n')
  }

  lemma WorkerPair(soc: Soc, k: Core, noc: NocId)
    requires Built(soc) && soc.cfg.translation && IsCore(soc.cfg, k) && k.t.Tensix?
    ensures PairFor(soc, k, noc) == Some(TranslatedXY(soc.cfg, k))
  {
  }

  /** With translation, no other core shares a worker's memory exactly if the configuration's pairs say so. */
  lemma WorkersPrivateIff(soc: Soc)
    requires Built(soc) && soc.cfg.translation
    ensures WorkersPrivate(soc) <==> PairsPrivate(soc)
  {
    if PairsPrivate(soc) {
      forall a, n, b, n' | IsWorker(soc, a) && IsOther(soc, b)
        ensures TranslateChipCoord(soc, a, n) != TranslateChipCoord(soc, b, n')
      {
        var k := NamesSomeCore(soc, a);
        var l := NamesSomeCore(soc, b);
        NameResolvesToPair(soc, a, k, n);
        NameResolvesToPair(soc, b, l, n');
        WorkerPair(soc, k, n);
      }
    } else {
      var k, l, noc :| IsCore(soc.cfg, k) && k.t.Tensix? && IsCore(soc.cfg, l) && Stored(l) && !l.t.Tensix?
                       && PairFor(soc, l, noc) == Some(TranslatedXY(soc.cfg, k));
      var a := CoreHasName(soc, k);
      var b := CoreHasName(soc, l);
      NameResolvesToPair(soc, a, k, noc);
      NameResolvesToPair(soc, b, l, noc);
      WorkerPair(soc, k, noc);
      assert IsWorker(soc, a) && IsOther(soc, b);
    }
  }

  /** Two names of the store resolve alike over any NOCs exactly if their cores' pairs are equal. */
  lemma NamesResolveAlikeIff(soc: Soc, a: CoreCoord, k: Core, n: NocId, b: CoreCoord, l: Core, n': NocId)
    requires Built(soc) && IsCore(soc.cfg, k) && Names(soc, a, k) && IsCore(soc.cfg, l) && Names(soc, b, l)
    ensures TranslateChipCoord(soc, a, n) == TranslateChipCoord(soc, b, n') <==>
            PairFor(soc, k, n) == PairFor(soc, l, n')
  {
    NameResolvesToPair(soc, a, k, n);
    NameResolvesToPair(soc, b, l, n');
  }

  /** No translated pair belongs to stored cores of two types. */
  ghost predicate StoredPairsApart(cfg: Config)
    requires Valid(cfg)
  {
    forall k, l :: IsCore(cfg, k) && IsCore(cfg, l) && Stored(k) && Stored(l) ==>
      TranslatedXY(cfg, k) == TranslatedXY(cfg, l) ==> k.t == l.t
  }

  ghost predicate IsStored(soc: Soc, c: CoreCoord) {
    c in soc.maps.toNoc0 && !c.coreType.Dram?
  }

  /** Over NOC0 two names of the store resolve alike only if they name one core. */
  ghost predicate Noc0SeparatesCores(soc: Soc)
    requires Built(soc)
  {
    forall a, b :: IsStored(soc, a) && IsStored(soc, b) ==>
      TranslateChipCoord(soc, a, UseNoc0) == TranslateChipCoord(soc, b, UseNoc0) ==>
        soc.maps.toNoc0[a] == soc.maps.toNoc0[b]
  }

  lemma Noc0NamesApart(soc: Soc, a: CoreCoord, b: CoreCoord)
    requires Built(soc) && StoredPairsApart(soc.cfg) && IsStored(soc, a) && IsStored(soc, b)
    requires TranslateChipCoord(soc, a, UseNoc0) == TranslateChipCoord(soc, b, UseNoc0)
    ensures soc.maps.toNoc0[a] == soc.maps.toNoc0[b]
  {
    var k := NamesSomeCore(soc, a);
    var l := NamesSomeCore(soc, b);
    NamesResolveAlikeIff(soc, a, k, UseNoc0, b, l, UseNoc0);
    Noc0PairIsTranslated(soc, k);
    Noc0PairIsTranslated(soc, l);
    TranslatedInjective(soc.cfg, k, l);
  }

  /** Over NOC0 each stored core is a memory of its own exactly if no translated pair belongs to two types. */
  lemma Noc0SeparatesCoresIff(soc: Soc)
    requires Built(soc)
    ensures Noc0SeparatesCores(soc) <==> StoredPairsApart(soc.cfg)
  {
    if StoredPairsApart(soc.cfg) {
      forall a, b | IsStored(soc, a) && IsStored(soc, b)
        && TranslateChipCoord(soc, a, UseNoc0) == TranslateChipCoord(soc, b, UseNoc0)
        ensures soc.maps.toNoc0[a] == soc.maps.toNoc0[b]
      {
        Noc0NamesApart(soc, a, b);
      }
    } else {
      var k, l :| IsCore(soc.cfg, k) && IsCore(soc.cfg, l) && Stored(k) && Stored(l)
                  && TranslatedXY(soc.cfg, k) == TranslatedXY(soc.cfg, l) && k.t != l.t;
      var a := CoreHasName(soc, k);
      var b := CoreHasName(soc, l);
      NamesResolveAlikeIff(soc, a, k, UseNoc0, b, l, UseNoc0);
      Noc0PairIsTranslated(soc, k);
      Noc0PairIsTranslated(soc, l);
      assert IsStored(soc, a) && IsStored(soc, b) && At(soc.cfg, k) != At(soc.cfg, l);
    }
  }
}
