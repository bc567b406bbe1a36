/** How a chip resolves a core name to the coordinates that go on the wire. */
module SocDescriptor {
  import opened Wrappers
  import opened HarvestMask
  import opened CoordNames
  import opened CoordinateMaps
  import opened CoordinateFacts
  import opened CoordinateInit

  datatype NocId = UseNoc0 | UseNoc1

  /** `routerNoc1` is ROUTER_NOC1_TO_TRANSLATED_BLACKHOLE; `gridX` the width of the NOC grid. */
  datatype Soc = Soc(cfg: Config, maps: Maps, gridX: nat, routerNoc1: map<XY, XY>)

  /** The maps are those of an initialized coordinate manager. */
  ghost predicate Built(soc: Soc) {
    && Valid(soc.cfg) && Sound(soc.cfg, soc.maps) && Complete(soc.cfg, soc.maps)
    && forall i :: 0 <= i < |soc.cfg.lists.eth| ==> soc.cfg.lists.eth[i].x < soc.gridX
  }

  function ToPair(r: Result<CoreCoord>): Option<XY> {
    if r.Ok? then Some(XY(r.value.x, r.value.y)) else None
  }

  function OnNoc(noc: NocId): CoordSystem {
    if noc.UseNoc1? then Noc1 else Noc0
  }

  predicate IsHarvestedEth(cfg: Config, p: XY) {
    exists i :: 0 <= i < |cfg.lists.eth| && Bit(cfg.masks.eth, i) && cfg.lists.eth[i] == p
  }

  /** None where the source throws. */
  function TranslateChipCoord(soc: Soc, c: CoreCoord, noc: NocId): Option<XY>
    requires forall i :: 0 <= i < |soc.cfg.lists.eth| ==> soc.cfg.lists.eth[i].x < soc.gridX
  {
    var m, blackholeNoc1 := soc.maps, soc.cfg.arch.Blackhole? && noc.UseNoc1?;
    if c.system.Literal? then Some(XY(c.x, c.y))
    else if !soc.cfg.translation then ToPair(TranslateCoordTo(m, c, OnNoc(noc)))
    else if blackholeNoc1 && c.coreType.RouterOnly? then
      var p := ToPair(TranslateCoordTo(m, c, Noc1));
      if p.Some? && p.value in soc.routerNoc1 then Some(soc.routerNoc1[p.value]) else None
    else if blackholeNoc1 && c.coreType.Eth? then
      var p := ToPair(TranslateCoordTo(m, c, Noc0));
      if p.None? then None
      else if IsHarvestedEth(soc.cfg, p.value) then Some(XY(soc.gridX - 1 - p.value.x, p.value.y))
      else ToPair(TranslateCoordTo(m, c, Translated))
    else if soc.cfg.arch.Wormhole? && (c.coreType.Dram? || c.coreType.Arc? || c.coreType.Pcie?) then
      ToPair(TranslateCoordTo(m, c, OnNoc(noc)))
    else ToPair(TranslateCoordTo(m, c, Translated))
  }

  /** The channel is the logical column. */
  function DramChannel(soc: Soc, c: CoreCoord): Option<nat> {
    var r := TranslateCoordTo(soc.maps, c, Logical);
    if r.Ok? then Some(r.value.x) else None
  }

  /** What each entered name knows about its core. */
  lemma NameFacts(soc: Soc, c: CoreCoord, sys: CoordSystem)
    requires Built(soc) && c in soc.maps.toNoc0
    ensures !c.system.Literal? && Inverse(soc.maps)
    ensures (soc.maps.toNoc0[c], sys) in soc.maps.fromNoc0 ==>
              soc.maps.fromNoc0[(soc.maps.toNoc0[c], sys)].coreType == c.coreType
    ensures sys.Noc0? || sys.Translated? ==> (soc.maps.toNoc0[c], sys) in soc.maps.fromNoc0
  {
    var cfg, m := soc.cfg, soc.maps;
    SoundIsInverse(cfg, m);
    assert NameOk(cfg, m, c);
    var k :| IsCore(cfg, k) && Name(cfg, k, c.system) == Some(c) && At(cfg, k) == m.toNoc0[c];
    var s := (m.toNoc0[c], sys);
    if s in m.fromNoc0 {
      assert SpotOk(cfg, m, s);
      var l :| IsCore(cfg, l) && Name(cfg, l, sys) == Some(m.fromNoc0[s]) && At(cfg, l) == s.0;
      assert k == l;
    }
    if sys.Noc0? || sys.Translated? {
      assert KnowsAll(cfg, m, k.t, sys);
      assert Knows(cfg, m, Core(k.t, k.i), sys);
      KnownLocation(cfg, m, k, sys);
    }
  }

  /** Translation never changes the type of a core. */
  lemma TranslationKeepsType(soc: Soc, c: CoreCoord, sys: CoordSystem)
    requires Built(soc) && TranslateCoordTo(soc.maps, c, sys).Ok?
    ensures TranslateCoordTo(soc.maps, c, sys).value.coreType == c.coreType
    ensures TranslateCoordTo(soc.maps, c, sys).value.system == sys
  {
    NameFacts(soc, c, sys);
  }

  /** With translation, every name of a worker resolves on either NOC to one pair, and no other worker has it. */
  lemma WorkersResolveApart(soc: Soc, a: CoreCoord, n: NocId, b: CoreCoord, n': NocId)
    requires Built(soc) && soc.cfg.translation
    requires a in soc.maps.toNoc0 && b in soc.maps.toNoc0 && a.coreType.Tensix? && b.coreType.Tensix?
    ensures TranslateChipCoord(soc, a, n).Some?
    ensures TranslateChipCoord(soc, a, n) == TranslateChipCoord(soc, b, n') <==>
            soc.maps.toNoc0[a] == soc.maps.toNoc0[b]
  {
    NameFacts(soc, a, Translated);
    NameFacts(soc, b, Translated);
  }

  /** Coordinates of a location on a NOC. */
  function PairOn(cfg: Config, p: XY, noc: NocId): XY
    requires noc.UseNoc1? ==> p.x < |cfg.noc1X| && p.y < |cfg.noc1Y|
  {
    if noc.UseNoc1? then XY(cfg.noc1X[p.x], cfg.noc1Y[p.y]) else p
  }

  predicate Usable(cfg: Config, noc: NocId) {
    noc.UseNoc1? ==> HasNoc1(cfg)
  }

  /** The from-map holds each core's own name at its location. */
  lemma Pairs(soc: Soc, k: Core, sys: CoordSystem)
    requires Built(soc) && IsCore(soc.cfg, k) && Name(soc.cfg, k, sys).Some?
    ensures (At(soc.cfg, k), sys) in soc.maps.fromNoc0
    ensures soc.maps.fromNoc0[(At(soc.cfg, k), sys)] == Name(soc.cfg, k, sys).value
  {
    var cfg, m := soc.cfg, soc.maps;
    assert KnowsAll(cfg, m, k.t, sys);
    assert Knows(cfg, m, Core(k.t, k.i), sys);
    CoreStands(cfg, k, sys);
    FreshTogether(cfg, m, Name(cfg, k, sys).value, At(cfg, k));
  }

  lemma Noc01Pairs(soc: Soc, c: CoreCoord)
    requires Built(soc) && HasNoc1(soc.cfg) && c in soc.maps.toNoc0
    ensures var p := soc.maps.toNoc0[c];
            && p.x < |soc.cfg.noc1X| && p.y < |soc.cfg.noc1Y|
            && !c.system.Literal?
            && ToPair(TranslateCoordTo(soc.maps, c, Noc0)) == Some(p)
            && ToPair(TranslateCoordTo(soc.maps, c, Noc1)) == Some(XY(soc.cfg.noc1X[p.x], soc.cfg.noc1Y[p.y]))
  {
    var cfg, m := soc.cfg, soc.maps;
    assert NameOk(cfg, m, c);
    var k :| IsCore(cfg, k) && Name(cfg, k, c.system) == Some(c) && At(cfg, k) == m.toNoc0[c];
    Pairs(soc, k, Noc0);
    Pairs(soc, k, Noc1);
  }

  lemma Noc0Pair(soc: Soc, c: CoreCoord)
    requires Built(soc) && c in soc.maps.toNoc0
    ensures !c.system.Literal? && ToPair(TranslateCoordTo(soc.maps, c, Noc0)) == Some(soc.maps.toNoc0[c])
  {
    assert NameOk(soc.cfg, soc.maps, c);
    var k :| IsCore(soc.cfg, k) && Name(soc.cfg, k, c.system) == Some(c) && At(soc.cfg, k) == soc.maps.toNoc0[c];
    Pairs(soc, k, Noc0);
  }

  /** Without translation a name resolves to its location's pair on the NOC in use. */
  lemma UntranslatedResolves(soc: Soc, c: CoreCoord, n: NocId)
    requires Built(soc) && !soc.cfg.translation && Usable(soc.cfg, n) && c in soc.maps.toNoc0
    ensures n.UseNoc1? ==> soc.maps.toNoc0[c].x < |soc.cfg.noc1X| && soc.maps.toNoc0[c].y < |soc.cfg.noc1Y|
    ensures TranslateChipCoord(soc, c, n) == Some(PairOn(soc.cfg, soc.maps.toNoc0[c], n))
  {
    if n.UseNoc1? {
      Noc01Pairs(soc, c);
    } else {
      Noc0Pair(soc, c);
    }
  }

  /** Without translation any two names resolve alike exactly if their pairs on the NOCs in use are equal. */
  lemma UntranslatedNamesResolveByPair(soc: Soc, a: CoreCoord, n: NocId, b: CoreCoord, n': NocId)
    requires Built(soc) && !soc.cfg.translation && Usable(soc.cfg, n) && Usable(soc.cfg, n')
    requires a in soc.maps.toNoc0 && b in soc.maps.toNoc0
    ensures n.UseNoc1? ==> soc.maps.toNoc0[a].x < |soc.cfg.noc1X| && soc.maps.toNoc0[a].y < |soc.cfg.noc1Y|
    ensures n'.UseNoc1? ==> soc.maps.toNoc0[b].x < |soc.cfg.noc1X| && soc.maps.toNoc0[b].y < |soc.cfg.noc1Y|
    ensures TranslateChipCoord(soc, a, n) == TranslateChipCoord(soc, b, n') <==>
            PairOn(soc.cfg, soc.maps.toNoc0[a], n) == PairOn(soc.cfg, soc.maps.toNoc0[b], n')
  {
    UntranslatedResolves(soc, a, n);
    UntranslatedResolves(soc, b, n');
  }

  predicate OnAxes(cfg: Config) {
    forall i :: 0 <= i < |cfg.lists.tensix| ==>
      cfg.lists.tensix[i].x < |cfg.noc1X| && cfg.lists.tensix[i].y < |cfg.noc1Y|
  }

  /** The i-th worker's NOC1 pair is the NOC0 location of the j-th. */
  predicate PairTaken(cfg: Config, i: nat, j: nat)
    requires OnAxes(cfg) && i < |cfg.lists.tensix| && j < |cfg.lists.tensix|
  {
    PairOn(cfg, cfg.lists.tensix[i], UseNoc1) == cfg.lists.tensix[j]
  }

  predicate WorkersApart(cfg: Config)
    requires OnAxes(cfg)
  {
    forall i, j :: 0 <= i < |cfg.lists.tensix| && 0 <= j < |cfg.lists.tensix| && PairTaken(cfg, i, j) ==> i == j
  }

  ghost predicate IsWorker(soc: Soc, c: CoreCoord) {
    c in soc.maps.toNoc0 && c.coreType.Tensix?
  }

  /** Names of different workers never resolve alike. */
  ghost predicate WorkersIsolated(soc: Soc)
    requires Built(soc)
  {
    forall a, n, b, n' :: IsWorker(soc, a) && IsWorker(soc, b) ==>
      TranslateChipCoord(soc, a, n) == TranslateChipCoord(soc, b, n') ==> soc.maps.toNoc0[a] == soc.maps.toNoc0[b]
  }

  lemma WorkerLocation(soc: Soc, c: CoreCoord) returns (i: nat)
    requires Built(soc) && IsWorker(soc, c)
    ensures i < |soc.cfg.lists.tensix| && soc.maps.toNoc0[c] == soc.cfg.lists.tensix[i]
  {
    assert NameOk(soc.cfg, soc.maps, c);
    var k :| IsCore(soc.cfg, k) && Name(soc.cfg, k, c.system) == Some(c) && At(soc.cfg, k) == soc.maps.toNoc0[c];
    i := k.i;
  }

  lemma WorkersOnAxes(soc: Soc)
    requires Built(soc) && HasNoc1(soc.cfg)
    ensures OnAxes(soc.cfg)
  {
    forall i | 0 <= i < |soc.cfg.lists.tensix|
      ensures soc.cfg.lists.tensix[i].x < |soc.cfg.noc1X| && soc.cfg.lists.tensix[i].y < |soc.cfg.noc1Y|
    {
      assert IsCore(soc.cfg, Core(Tensix, i)) && At(soc.cfg, Core(Tensix, i)) == soc.cfg.lists.tensix[i];
    }
  }

  /** The NOC0 name of the i-th worker. */
  lemma WorkerName(soc: Soc, i: nat) returns (c: CoreCoord)
    requires Built(soc) && i < |soc.cfg.lists.tensix|
    ensures IsWorker(soc, c) && soc.maps.toNoc0[c] == soc.cfg.lists.tensix[i]
  {
    var k := Core(Tensix, i);
    assert KnowsAll(soc.cfg, soc.maps, Tensix, Noc0);
    assert Knows(soc.cfg, soc.maps, k, Noc0);
    KnownLocation(soc.cfg, soc.maps, k, Noc0);
    c := Name(soc.cfg, k, Noc0).value;
  }

  /** Accesses over one NOC keep workers apart, with or without translation. */
  lemma OneNocIsolates(soc: Soc, a: CoreCoord, b: CoreCoord, n: NocId)
    requires Built(soc) && Usable(soc.cfg, n) && IsWorker(soc, a) && IsWorker(soc, b)
    ensures TranslateChipCoord(soc, a, n) == TranslateChipCoord(soc, b, n) <==> soc.maps.toNoc0[a] == soc.maps.toNoc0[b]
  {
    if soc.cfg.translation {
      WorkersResolveApart(soc, a, n, b, n);
    } else {
      UntranslatedNamesResolveByPair(soc, a, n, b, n);
    }
  }

  lemma SameIndexWorkers(soc: Soc, i: nat, j: nat)
    requires Built(soc) && i < |soc.cfg.lists.tensix| && j < |soc.cfg.lists.tensix| && i != j
    ensures soc.cfg.lists.tensix[i] != soc.cfg.lists.tensix[j]
  {
    if soc.cfg.lists.tensix[i] == soc.cfg.lists.tensix[j] {
      SameIndex(soc.cfg, Tensix, i, j);
    }
  }

  lemma ApartWorkersDiffer(soc: Soc, a: CoreCoord, n: NocId, b: CoreCoord, n': NocId)
    requires Built(soc) && !soc.cfg.translation && HasNoc1(soc.cfg) && IsWorker(soc, a) && IsWorker(soc, b)
    requires OnAxes(soc.cfg) && WorkersApart(soc.cfg) && TranslateChipCoord(soc, a, n) == TranslateChipCoord(soc, b, n')
    ensures soc.maps.toNoc0[a] == soc.maps.toNoc0[b]
  {
    UntranslatedNamesResolveByPair(soc, a, n, b, n');
    var i := WorkerLocation(soc, a);
    var j := WorkerLocation(soc, b);
    if n == n' {
      OneNocIsolates(soc, a, b, n);
    } else {
      assert if n.UseNoc1? then PairTaken(soc.cfg, i, j) else PairTaken(soc.cfg, j, i);
    }
  }

  /** Over both NOCs workers are isolated exactly if no NOC1 pair of one is the location of another. */
  lemma UntranslatedWorkersIsolatedIff(soc: Soc)
    requires Built(soc) && !soc.cfg.translation && HasNoc1(soc.cfg)
    ensures OnAxes(soc.cfg)
    ensures WorkersIsolated(soc) <==> WorkersApart(soc.cfg)
  {
    WorkersOnAxes(soc);
    if WorkersApart(soc.cfg) {
      forall a, n, b, n' | IsWorker(soc, a) && IsWorker(soc, b)
        && TranslateChipCoord(soc, a, n) == TranslateChipCoord(soc, b, n')
        ensures soc.maps.toNoc0[a] == soc.maps.toNoc0[b]
      {
        ApartWorkersDiffer(soc, a, n, b, n');
      }
    } else {
      var i, j :| 0 <= i < |soc.cfg.lists.tensix| && 0 <= j < |soc.cfg.lists.tensix| && i != j
                  && PairTaken(soc.cfg, i, j);
      var a := WorkerName(soc, i);
      var b := WorkerName(soc, j);
      UntranslatedNamesResolveByPair(soc, a, UseNoc1, b, UseNoc0);
      SameIndexWorkers(soc, i, j);
      assert TranslateChipCoord(soc, a, UseNoc1) == TranslateChipCoord(soc, b, UseNoc0);
    }
  }

  /** Over both NOCs every worker is one memory of its own exactly if the NOCs use the same coordinates for it. */
  lemma UntranslatedWorkerIsOneMemoryIff(soc: Soc, a: CoreCoord)
    requires Built(soc) && !soc.cfg.translation && HasNoc1(soc.cfg) && a in soc.maps.toNoc0
    ensures soc.maps.toNoc0[a].x < |soc.cfg.noc1X| && soc.maps.toNoc0[a].y < |soc.cfg.noc1Y|
    ensures TranslateChipCoord(soc, a, UseNoc0) == TranslateChipCoord(soc, a, UseNoc1) <==>
            PairOn(soc.cfg, soc.maps.toNoc0[a], UseNoc1) == soc.maps.toNoc0[a]
  {
    UntranslatedNamesResolveByPair(soc, a, UseNoc0, a, UseNoc1);
  }

  /** Wormhole's axis maps. */
  const WH_NOC1_X := [9, 8, 7, 6, 5, 4, 3, 2, 1, 0]
  const WH_NOC1_Y := [11, 10, 9, 8, 7, 6, 5, 4, 3, 2, 1, 0]

  /** Two workers of an untranslated Wormhole. */
  const COLLIDING := Config(
    Wormhole, false, Masks(0, 0, 0, 0, 0), XY(2, 1), XY(0, 0), XY(0, 0), XY(0, 0),
    Lists([XY(1, 1), XY(8, 10)], [], [], [], [], [], [], [], []), WH_NOC1_X, WH_NOC1_Y, [], 1, 1)

  lemma CollidingIsValid()
    ensures Valid(COLLIDING) && COLLIDING.lists.tensix == [XY(1, 1), XY(8, 10)]
  {
    var cfg := COLLIDING;
    assert Fits(0, 1);
    forall c, d | IsCore(cfg, c) && IsCore(cfg, d) && At(cfg, c) == At(cfg, d)
      ensures c == d
    {
    }
    assert forall a :: 0 <= a < 10 ==> WH_NOC1_X[a] == 9 - a;
    assert forall a :: 0 <= a < 12 ==> WH_NOC1_Y[a] == 11 - a;
  }

  lemma Noc0NameIs(soc: Soc, i: nat)
    requires Built(soc) && i < |soc.cfg.lists.tensix|
    ensures var p := soc.cfg.lists.tensix[i]; var c := CoreCoord(p.x, p.y, Tensix, Noc0);
            c in soc.maps.toNoc0 && soc.maps.toNoc0[c] == p
  {
    var k := Core(Tensix, i);
    assert KnowsAll(soc.cfg, soc.maps, Tensix, Noc0);
    assert Knows(soc.cfg, soc.maps, k, Noc0);
    KnownLocation(soc.cfg, soc.maps, k, Noc0);
  }

  lemma WorkerNames(soc: Soc)
    requires Built(soc) && soc.cfg == COLLIDING
    ensures var a, b := CoreCoord(1, 1, Tensix, Noc0), CoreCoord(8, 10, Tensix, Noc0);
            && IsWorker(soc, a) && IsWorker(soc, b)
            && soc.maps.toNoc0[a] == XY(1, 1) && soc.maps.toNoc0[b] == XY(8, 10)
  {
    CollidingIsValid();
    Noc0NameIs(soc, 0);
    Noc0NameIs(soc, 1);
  }

  /** Worker (1, 1) over NOC1 and worker (8, 10) over NOC0 resolve alike: a write to one changes the other. */
  method CollidingWorkers() returns (soc: Soc, a: CoreCoord, b: CoreCoord)
    ensures Built(soc) && soc.cfg == COLLIDING && IsWorker(soc, a) && IsWorker(soc, b)
    ensures soc.maps.toNoc0[a] == XY(1, 1) && soc.maps.toNoc0[b] == XY(8, 10)
    ensures TranslateChipCoord(soc, a, UseNoc1) == TranslateChipCoord(soc, b, UseNoc0) == Some(XY(8, 10))
  {
    CollidingIsValid();
    var mgr := CreateCoordinateManager(COLLIDING);
    soc := Soc(COLLIDING, mgr.value.maps, 10, map[]);
    a, b := CoreCoord(1, 1, Tensix, Noc0), CoreCoord(8, 10, Tensix, Noc0);
    WorkerNames(soc);
    UntranslatedResolves(soc, a, UseNoc1);
    UntranslatedResolves(soc, b, UseNoc0);
  }
}
