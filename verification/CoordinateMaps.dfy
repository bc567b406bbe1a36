/**
 The translation maps of a coordinate manager, filled by first-insert-wins insertions, and
 translation through them.
 */
module CoordinateMaps {
  import opened Wrappers
  import opened CoordNames

  type Spot = (XY, CoordSystem)

  datatype Maps = Maps(toNoc0: map<CoreCoord, XY>, fromNoc0: map<Spot, CoreCoord>, toCoreType: map<Spot, CoreCoord>)

  const EMPTY := Maps(map[], map[], map[])

  function Put<K, V>(m: map<K, V>, k: K, v: V): map<K, V> {
    if k in m then m else m[k := v]
  }

  /** Each of the three maps keeps the first value inserted for a key. */
  function Add(m: Maps, c: CoreCoord, noc0: XY): Maps {
    Maps(
      Put(m.toNoc0, c, noc0),
      Put(m.fromNoc0, (noc0, c.system), c),
      if c.system.Logical? then m.toCoreType else Put(m.toCoreType, (XY(c.x, c.y), c.system), c))
  }

  /** The name `c` belongs to the core at NOC0 location `p`. */
  ghost predicate Stands(cfg: Config, c: CoreCoord, p: XY)
    requires Valid(cfg)
  {
    exists k :: IsCore(cfg, k) && Name(cfg, k, c.system) == Some(c) && At(cfg, k) == p
  }

  ghost predicate NameOk(cfg: Config, m: Maps, c: CoreCoord)
    requires Valid(cfg) && c in m.toNoc0
  {
    Stands(cfg, c, m.toNoc0[c]) && (m.toNoc0[c], c.system) in m.fromNoc0
  }

  ghost predicate SpotOk(cfg: Config, m: Maps, s: Spot)
    requires Valid(cfg) && s in m.fromNoc0
  {
    m.fromNoc0[s].system == s.1 && Stands(cfg, m.fromNoc0[s], s.0) && m.fromNoc0[s] in m.toNoc0
  }

  /** Every entry is a core under its own name, and each direction knows what the other does. */
  ghost predicate Sound(cfg: Config, m: Maps)
    requires Valid(cfg)
  {
    && (forall c {:trigger NameOk(cfg, m, c)} :: c in m.toNoc0 ==> NameOk(cfg, m, c))
    && (forall s {:trigger SpotOk(cfg, m, s)} :: s in m.fromNoc0 ==> SpotOk(cfg, m, s))
  }

  /** The name of a core in a system has been entered. */
  ghost predicate Knows(cfg: Config, m: Maps, k: Core, sys: CoordSystem)
    requires Valid(cfg) && IsCore(cfg, k)
  {
    Name(cfg, k, sys).Some? ==> Name(cfg, k, sys).value in m.toNoc0
  }

  lemma StandsUnique(cfg: Config, c: CoreCoord, p: XY, d: CoreCoord, q: XY)
    requires Valid(cfg) && Stands(cfg, c, p) && Stands(cfg, d, q) && c.system == d.system
    ensures c == d <==> p == q
  {
    var k :| IsCore(cfg, k) && Name(cfg, k, c.system) == Some(c) && At(cfg, k) == p;
    var l :| IsCore(cfg, l) && Name(cfg, l, d.system) == Some(d) && At(cfg, l) == q;
    if c == d {
      NamesAreUnique(cfg, k, l, c.system);
    }
  }

  lemma CoreStands(cfg: Config, k: Core, sys: CoordSystem)
    requires Valid(cfg) && IsCore(cfg, k) && Name(cfg, k, sys).Some?
    ensures Name(cfg, k, sys).value.system == sys && Stands(cfg, Name(cfg, k, sys).value, At(cfg, k))
  {
  }

  /** A name and its location are either both new or both already linked to each other. */
  lemma FreshTogether(cfg: Config, m: Maps, c: CoreCoord, p: XY)
    requires Valid(cfg) && Sound(cfg, m) && Stands(cfg, c, p)
    ensures c in m.toNoc0 <==> (p, c.system) in m.fromNoc0
    ensures c in m.toNoc0 ==> m.toNoc0[c] == p && m.fromNoc0[(p, c.system)] == c
  {
    var s := (p, c.system);
    if c in m.toNoc0 {
      assert NameOk(cfg, m, c);
      StandsUnique(cfg, c, p, c, m.toNoc0[c]);
    }
    if s in m.fromNoc0 {
      assert SpotOk(cfg, m, s);
      StandsUnique(cfg, c, p, m.fromNoc0[s], p);
    }
  }

  lemma AddKeepsNames(cfg: Config, m: Maps, c: CoreCoord, p: XY, d: CoreCoord)
    requires Valid(cfg) && Sound(cfg, m) && Stands(cfg, c, p) && d in Add(m, c, p).toNoc0
    ensures NameOk(cfg, Add(m, c, p), d)
  {
    FreshTogether(cfg, m, c, p);
    assert d in m.toNoc0 ==> NameOk(cfg, m, d);
  }

  lemma AddKeepsSpots(cfg: Config, m: Maps, c: CoreCoord, p: XY, s: Spot)
    requires Valid(cfg) && Sound(cfg, m) && Stands(cfg, c, p) && s in Add(m, c, p).fromNoc0
    ensures SpotOk(cfg, Add(m, c, p), s)
  {
    FreshTogether(cfg, m, c, p);
    assert s in m.fromNoc0 ==> SpotOk(cfg, m, s);
  }

  lemma AddStandsKeepsSound(cfg: Config, m: Maps, c: CoreCoord, p: XY)
    requires Valid(cfg) && Sound(cfg, m) && Stands(cfg, c, p)
    ensures Sound(cfg, Add(m, c, p))
    ensures Add(m, c, p).toNoc0.Keys == m.toNoc0.Keys + {c}
  {
    var m' := Add(m, c, p);
    forall d | d in m'.toNoc0
      ensures NameOk(cfg, m', d)
    {
      AddKeepsNames(cfg, m, c, p, d);
    }
    forall s | s in m'.fromNoc0
      ensures SpotOk(cfg, m', s)
    {
      AddKeepsSpots(cfg, m, c, p, s);
    }
  }

  /** Inserting a core's own name keeps the maps sound and makes the name known. */
  lemma AddKeepsSound(cfg: Config, m: Maps, k: Core, sys: CoordSystem)
    requires Valid(cfg) && Sound(cfg, m) && IsCore(cfg, k) && Name(cfg, k, sys).Some?
    ensures Sound(cfg, Add(m, Name(cfg, k, sys).value, At(cfg, k)))
    ensures Add(m, Name(cfg, k, sys).value, At(cfg, k)).toNoc0.Keys == m.toNoc0.Keys + {Name(cfg, k, sys).value}
  {
    CoreStands(cfg, k, sys);
    AddStandsKeepsSound(cfg, m, Name(cfg, k, sys).value, At(cfg, k));
  }

  /** A known name leads to the core's own NOC0 location. */
  lemma KnownLocation(cfg: Config, m: Maps, k: Core, sys: CoordSystem)
    requires Valid(cfg) && Sound(cfg, m) && IsCore(cfg, k) && Name(cfg, k, sys).Some? && Knows(cfg, m, k, sys)
    ensures m.toNoc0[Name(cfg, k, sys).value] == At(cfg, k)
  {
    CoreStands(cfg, k, sys);
    FreshTogether(cfg, m, Name(cfg, k, sys).value, At(cfg, k));
  }

  /** The two maps are inverse to each other in every coordinate system. */
  ghost predicate Inverse(m: Maps) {
    && (forall c :: c in m.toNoc0 ==> (m.toNoc0[c], c.system) in m.fromNoc0 && m.fromNoc0[(m.toNoc0[c], c.system)] == c)
    && (forall s :: s in m.fromNoc0 ==>
          m.fromNoc0[s].system == s.1 && m.fromNoc0[s] in m.toNoc0 && m.toNoc0[m.fromNoc0[s]] == s.0)
  }

  lemma SoundIsInverse(cfg: Config, m: Maps)
    requires Valid(cfg) && Sound(cfg, m)
    ensures Inverse(m)
  {
    forall c | c in m.toNoc0
      ensures (m.toNoc0[c], c.system) in m.fromNoc0 && m.fromNoc0[(m.toNoc0[c], c.system)] == c
    {
      assert NameOk(cfg, m, c);
      FreshTogether(cfg, m, c, m.toNoc0[c]);
    }
    forall s | s in m.fromNoc0
      ensures m.fromNoc0[s].system == s.1 && m.fromNoc0[s] in m.toNoc0 && m.toNoc0[m.fromNoc0[s]] == s.0
    {
      assert SpotOk(cfg, m, s);
      FreshTogether(cfg, m, m.fromNoc0[s], s.0);
    }
  }

  /** A run of insertions. */
  function AddAll(m: Maps, adds: seq<(CoreCoord, XY)>): Maps
    decreases |adds|
  {
    if adds == [] then m else AddAll(Add(m, adds[0].0, adds[0].1), adds[1..])
  }

  /** The name leads to a location that does not lead back. */
  ghost predicate OneWay(m: Maps, c: CoreCoord) {
    c in m.toNoc0 && !((m.toNoc0[c], c.system) in m.fromNoc0 && m.fromNoc0[(m.toNoc0[c], c.system)] == c)
  }

  lemma {:induction false} OneWayStays(m: Maps, c: CoreCoord, adds: seq<(CoreCoord, XY)>)
    requires OneWay(m, c) && forall i :: 0 <= i < |adds| ==> adds[i].0 != c
    ensures OneWay(AddAll(m, adds), c)
    decreases |adds|
  {
    if adds != [] {
      assert OneWay(Add(m, adds[0].0, adds[0].1), c);
      OneWayStays(Add(m, adds[0].0, adds[0].1), c, adds[1..]);
    }
  }

  /**
   `to_noc0_map[c]` for a name that is not there: the inserted entry leads nowhere, and no
   later insertion of other names mends the maps.
   */
  lemma {:induction false} DefaultInsertBreaksInverse(m: Maps, c: CoreCoord, adds: seq<(CoreCoord, XY)>)
    requires Inverse(m) && c !in m.toNoc0
    requires forall i :: 0 <= i < |adds| ==> adds[i].0 != c
    ensures !Inverse(AddAll(m.(toNoc0 := m.toNoc0[c := XY(0, 0)]), adds))
  {
    OneWayStays(m.(toNoc0 := m.toNoc0[c := XY(0, 0)]), c, adds);
  }

  datatype Result<T> = Ok(value: T) | FromLiteral | ToLiteral | NoSuchCore(c: CoreCoord) | NoNameIn(sys: CoordSystem)

  /** Translation by way of NOC0. */
  function TranslateCoordTo(m: Maps, c: CoreCoord, target: CoordSystem): Result<CoreCoord> {
    if c.system.Literal? then FromLiteral
    else if target.Literal? then ToLiteral
    else if c !in m.toNoc0 then NoSuchCore(c)
    else if (m.toNoc0[c], target) !in m.fromNoc0 then NoNameIn(target)
    else Ok(m.fromNoc0[(m.toNoc0[c], target)])
  }

  /** Going through any intermediate system gives the direct translation. */
  lemma TranslationIsPathIndependent(m: Maps, a: CoreCoord, b: CoordSystem, c: CoordSystem)
    requires Inverse(m) && TranslateCoordTo(m, a, b).Ok?
    ensures TranslateCoordTo(m, TranslateCoordTo(m, a, b).value, c) == TranslateCoordTo(m, a, c)
  {
    assert m.fromNoc0[(m.toNoc0[a], b)].system == b;
  }

  /** Translating to a system and back is the identity. */
  lemma TranslationRoundTrips(m: Maps, a: CoreCoord, b: CoordSystem)
    requires Inverse(m) && TranslateCoordTo(m, a, b).Ok?
    ensures TranslateCoordTo(m, TranslateCoordTo(m, a, b).value, a.system) == Ok(a)
  {
    assert m.fromNoc0[(m.toNoc0[a], b)].system == b;
  }

  /** Distinct names in one system stay distinct in every other. */
  lemma TranslationIsInjective(m: Maps, a: CoreCoord, a': CoreCoord, b: CoordSystem)
    requires Inverse(m) && a.system == a'.system
    requires TranslateCoordTo(m, a, b).Ok? && TranslateCoordTo(m, a, b) == TranslateCoordTo(m, a', b)
    ensures a == a'
  {
    TranslationRoundTrips(m, a, b);
    TranslationRoundTrips(m, a', b);
  }

  /** The name is also listed under its bare coordinates, unless it is logical. */
  ghost predicate Listed(m: Maps, c: CoreCoord) {
    c.system.Logical? || (XY(c.x, c.y), c.system) in m.toCoreType
  }

  ghost predicate Lists(m: Maps, s: Spot)
    requires s in m.toCoreType
  {
    var c := m.toCoreType[s];
    c in m.toNoc0 && s == (XY(c.x, c.y), c.system) && !c.system.Logical?
  }

  /** The third map lists known names under their own coordinates, and every coordinate pair in use. */
  ghost predicate TypesOk(m: Maps) {
    && (forall c {:trigger Listed(m, c)} :: c in m.toNoc0 ==> Listed(m, c))
    && (forall s {:trigger Lists(m, s)} :: s in m.toCoreType ==> Lists(m, s))
  }

  lemma AddKeepsTypes(m: Maps, c: CoreCoord, p: XY)
    requires TypesOk(m)
    ensures TypesOk(Add(m, c, p))
  {
    var m' := Add(m, c, p);
    forall d | d in m'.toNoc0
      ensures Listed(m', d)
    {
      assert d in m.toNoc0 ==> Listed(m, d);
    }
    forall s | s in m'.toCoreType
      ensures Lists(m', s)
    {
      assert s in m.toCoreType ==> Lists(m, s);
    }
  }

  datatype AtResult = Found(c: CoreCoord) | LiteralSystem | AmbiguousSystem | NothingThere

  /** The core at a bare coordinate pair. */
  function GetCoordAt(m: Maps, p: XY, sys: CoordSystem): AtResult {
    if sys.Literal? then LiteralSystem
    else if sys.Logical? then AmbiguousSystem
    else if (p, sys) !in m.toCoreType then NothingThere
    else Found(m.toCoreType[(p, sys)])
  }

  /** Something is found exactly where a name is in use, and what is found is a name of that pair. */
  lemma CoordAtIsKnown(m: Maps, p: XY, sys: CoordSystem)
    requires TypesOk(m)
    ensures GetCoordAt(m, p, sys).LiteralSystem? <==> sys.Literal?
    ensures GetCoordAt(m, p, sys).AmbiguousSystem? <==> sys.Logical?
    ensures !sys.Literal? && !sys.Logical? ==>
              (GetCoordAt(m, p, sys).Found? <==> exists c :: c in m.toNoc0 && XY(c.x, c.y) == p && c.system == sys)
    ensures GetCoordAt(m, p, sys).Found? ==>
              var c := GetCoordAt(m, p, sys).c;
              c in m.toNoc0 && XY(c.x, c.y) == p && c.system == sys
  {
    if (p, sys) in m.toCoreType {
      assert Lists(m, (p, sys));
    }
    if c :| c in m.toNoc0 && XY(c.x, c.y) == p && c.system == sys {
      assert Listed(m, c);
    }
  }

  /** Insertions change no entry that is there. */
  lemma {:induction false} InsertionsKeepEntries(m: Maps, adds: seq<(CoreCoord, XY)>)
    ensures forall c :: c in m.toNoc0 ==> c in AddAll(m, adds).toNoc0 && AddAll(m, adds).toNoc0[c] == m.toNoc0[c]
    ensures forall s :: s in m.fromNoc0 ==>
                          s in AddAll(m, adds).fromNoc0 && AddAll(m, adds).fromNoc0[s] == m.fromNoc0[s]
    ensures forall s :: s in m.toCoreType ==>
                          s in AddAll(m, adds).toCoreType && AddAll(m, adds).toCoreType[s] == m.toCoreType[s]
    decreases |adds|
  {
    if adds != [] {
      InsertionsKeepEntries(Add(m, adds[0].0, adds[0].1), adds[1..]);
    }
  }

  /** No entry of the maps has the key, and no insertion before the i-th has it. */
  ghost predicate FirstOfPair(m: Maps, adds: seq<(CoreCoord, XY)>, i: nat)
    requires i < |adds|
  {
    var c := adds[i].0;
    && (XY(c.x, c.y), c.system) !in m.toCoreType
    && forall j :: 0 <= j < i ==> adds[j].0.system != c.system || XY(adds[j].0.x, adds[j].0.y) != XY(c.x, c.y)
  }

  /**
   The first insertion of a name decides where it leads, the first one for a location which
   name that location has, and the first one for a pair which core the bare pair finds.
   */
  lemma {:induction false} FirstInsertionWins(m: Maps, adds: seq<(CoreCoord, XY)>, i: nat)
    requires i < |adds|
    ensures adds[i].0 !in m.toNoc0 && (forall j :: 0 <= j < i ==> adds[j].0 != adds[i].0) ==>
              adds[i].0 in AddAll(m, adds).toNoc0 && AddAll(m, adds).toNoc0[adds[i].0] == adds[i].1
    ensures var s := (adds[i].1, adds[i].0.system);
            s !in m.fromNoc0 && (forall j :: 0 <= j < i ==> (adds[j].1, adds[j].0.system) != s) ==>
              s in AddAll(m, adds).fromNoc0 && AddAll(m, adds).fromNoc0[s] == adds[i].0
    ensures FirstOfPair(m, adds, i) && !adds[i].0.system.Literal? && !adds[i].0.system.Logical? ==>
              GetCoordAt(AddAll(m, adds), XY(adds[i].0.x, adds[i].0.y), adds[i].0.system) == Found(adds[i].0)
    decreases |adds|
  {
    var m' := Add(m, adds[0].0, adds[0].1);
    if i == 0 {
      InsertionsKeepEntries(m', adds[1..]);
    } else {
      assert forall j :: 0 <= j < i - 1 ==> adds[1..][j] == adds[j + 1];
      FirstInsertionWins(m', adds[1..], i - 1);
    }
  }
}
