/**
 On the emulated chip every read returns the latest bytes written through any name that
 resolves alike, whatever was touched first.  With translation that makes a worker or DRAM
 channel one memory under all its names; for other cores it depends on their pairs.
 */
module SwEmuleAliasing {
  import opened Wrappers
  import opened Bytes
  import opened HarvestMask
  import opened CoordNames
  import opened CoordinateMaps
  import opened SocDescriptor
  import opened SocPairs
  import opened SwEmuleChip

  /** The hardware a name stands for: a worker by its location, or a bank of DRAM. */
  datatype Tile = AtNoc0(p: XY) | InBank(bank: nat)

  datatype Access =
    | Write(c: CoreCoord, noc: NocId, addr: nat, data: seq<Byte>)
    | Read(c: CoreCoord, noc: NocId, addr: nat, size: nat)

  /** The index of the DRAM core that a name stands for. */
  ghost predicate IsPort(soc: Soc, c: CoreCoord, i: nat)
    requires Built(soc) && c in soc.maps.toNoc0
  {
    i < |soc.cfg.lists.dram| && soc.cfg.lists.dram[i] == soc.maps.toNoc0[c]
  }

  lemma PortIndex(soc: Soc, c: CoreCoord) returns (i: nat)
    requires Built(soc) && c in soc.maps.toNoc0 && c.coreType.Dram?
    ensures IsPort(soc, c, i) && Names(soc, c, Core(Dram, i))
    ensures forall j: nat :: IsPort(soc, c, j) ==> j == i
  {
    var k := NamesSomeCore(soc, c);
    i := k.i;
    forall j: nat | IsPort(soc, c, j)
      ensures j == i
    {
      SameIndex(soc.cfg, Dram, i, j);
    }
  }

  lemma HasPort(soc: Soc, c: CoreCoord)
    requires Built(soc) && c in soc.maps.toNoc0 && c.coreType.Dram?
    ensures exists i: nat :: IsPort(soc, c, i)
  {
    var i := PortIndex(soc, c);
  }

  /** The bank of the DRAM core that a name stands for. */
  ghost function BankOfName(soc: Soc, c: CoreCoord): nat
    requires Built(soc) && c in soc.maps.toNoc0 && c.coreType.Dram?
  {
    HasPort(soc, c);
    var i: nat :| IsPort(soc, c, i);
    BankOf(soc.cfg, i)
  }

  /** The name of a worker, or of a port of an unharvested DRAM bank. */
  ghost predicate Proper(soc: Soc, c: CoreCoord)
    requires Built(soc)
  {
    && c in soc.maps.toNoc0
    && (c.coreType.Tensix? || (c.coreType.Dram? && !Bit(soc.cfg.masks.dram, BankOfName(soc, c))))
  }

  ghost function TileOf(soc: Soc, c: CoreCoord): Tile
    requires Built(soc) && Proper(soc, c)
  {
    if c.coreType.Dram? then InBank(BankOfName(soc, c)) else AtNoc0(soc.maps.toNoc0[c])
  }

  /** DRAM names have one key exactly if their cores lie in one unharvested bank. */
  lemma DramKeysMatchBanks(soc: Soc, a: CoreCoord, n: NocId, b: CoreCoord, n': NocId)
    requires Built(soc) && a in soc.maps.toNoc0 && a.coreType.Dram? && b in soc.maps.toNoc0 && b.coreType.Dram?
    ensures Resolve(soc, a, n).Some? <==> !Bit(soc.cfg.masks.dram, BankOfName(soc, a))
    ensures Resolve(soc, a, n).Some? && Resolve(soc, a, n) == Resolve(soc, b, n') <==>
            BankOfName(soc, a) == BankOfName(soc, b) && !Bit(soc.cfg.masks.dram, BankOfName(soc, a))
  {
    var i := PortIndex(soc, a);
    var j := PortIndex(soc, b);
    ChannelIsBankRank(soc, a, i);
    ChannelsAgreeIff(soc, a, i, b, j);
  }

  /** Keys separate tiles exactly, on either NOC. */
  lemma KeysMatchTiles(soc: Soc, a: CoreCoord, n: NocId, b: CoreCoord, n': NocId)
    requires Built(soc) && soc.cfg.translation && Proper(soc, a) && Proper(soc, b)
    ensures Resolve(soc, a, n).Some? && Resolve(soc, b, n').Some?
    ensures Resolve(soc, a, n) == Resolve(soc, b, n') <==> TileOf(soc, a) == TileOf(soc, b)
  {
    if a.coreType.Tensix? {
      WorkersResolveApart(soc, a, n, a, n);
    } else {
      DramKeysMatchBanks(soc, a, n, a, n);
    }
    if b.coreType.Tensix? {
      WorkersResolveApart(soc, b, n', b, n');
    } else {
      DramKeysMatchBanks(soc, b, n', b, n');
    }
    if a.coreType.Tensix? && b.coreType.Tensix? {
      WorkersResolveApart(soc, a, n, b, n');
    } else if a.coreType.Dram? && b.coreType.Dram? {
      DramKeysMatchBanks(soc, a, n, b, n');
    }
  }

  /** Translating a name stays on its tile. */
  lemma NamesOfOneCoreShareTile(soc: Soc, a: CoreCoord, sys: CoordSystem)
    requires Built(soc) && Proper(soc, a) && TranslateCoordTo(soc.maps, a, sys).Ok?
    ensures var b := TranslateCoordTo(soc.maps, a, sys).value;
            Proper(soc, b) && TileOf(soc, b) == TileOf(soc, a)
  {
    NameFacts(soc, a, sys);
    if a.coreType.Dram? {
      var i := PortIndex(soc, a);
      var j := PortIndex(soc, TranslateCoordTo(soc.maps, a, sys).value);
    }
  }

  /** Which accesses count as touching a memory. */
  type Touches = (CoreCoord, NocId) -> bool

  ghost predicate AllProper(soc: Soc, trace: seq<Access>)
    requires Built(soc)
  {
    forall i :: 0 <= i < |trace| ==> Proper(soc, trace[i].c)
  }

  /** The byte last written to an address by the accesses that touch the memory. */
  ghost function LastByte(trace: seq<Access>, touches: Touches, a: nat): Byte {
    if trace == [] then 0
    else
      var t := trace[|trace| - 1];
      if t.Write? && touches(t.c, t.noc) && t.addr <= a < t.addr + |t.data| then t.data[a - t.addr]
      else LastByte(trace[..|trace| - 1], touches, a)
  }

  /** Effect of one more access on the last bytes. */
  lemma LastByteOfSnoc(trace: seq<Access>, t: Access, touches: Touches, a: nat)
    ensures LastByte(trace + [t], touches, a) ==
            if t.Write? && touches(t.c, t.noc) && t.addr <= a < t.addr + |t.data| then t.data[a - t.addr]
            else LastByte(trace, touches, a)
  {
    assert (trace + [t])[..|trace|] == trace;
  }

  /** The last bytes depend only on which accesses of the trace touch the memory. */
  lemma {:induction false} SameTouchesSameBytes(trace: seq<Access>, p: Touches, q: Touches, a: nat)
    requires forall i :: 0 <= i < |trace| ==> p(trace[i].c, trace[i].noc) == q(trace[i].c, trace[i].noc)
    ensures LastByte(trace, p, a) == LastByte(trace, q, a)
  {
    if trace != [] {
      SameTouchesSameBytes(trace[..|trace| - 1], p, q, a);
    }
  }

  /** The accesses that resolve to a key. */
  ghost function ToKey(soc: Soc, key: Key): Touches
    requires Built(soc)
  {
    (c, noc) => Resolve(soc, c, noc) == Some(key)
  }

  /** The accesses through any name of a worker or channel. */
  ghost function ToTile(soc: Soc, tile: Tile): Touches
    requires Built(soc)
  {
    (c, noc) => Proper(soc, c) && TileOf(soc, c) == tile
  }

  /** The accesses through any name of a core. */
  ghost function ToCore(soc: Soc, p: XY): Touches {
    (c, noc) => c in soc.maps.toNoc0 && soc.maps.toNoc0[c] == p
  }

  ghost predicate InBounds(chip: SWEmuleChip, t: Access) {
    t.addr + (if t.Write? then |t.data| else t.size) <= (if t.c.coreType.Dram? then chip.bankSize else chip.l1Size)
  }

  /** The memory of a key holds the last bytes written to it. */
  ghost predicate Remembers(chip: SWEmuleChip, trace: seq<Access>, key: Key)
    requires chip.Valid() && Built(chip.soc)
    reads chip
  {
    var view := chip.View(key);
    forall a :: 0 <= a < |view| ==> view[a] == LastByte(trace, ToKey(chip.soc, key), a)
  }

  ghost predicate UpToDate(chip: SWEmuleChip, trace: seq<Access>)
    requires chip.Valid() && Built(chip.soc)
    reads chip
  {
    forall key :: Remembers(chip, trace, key)
  }

  /** Bytes returned by a read after `past`. */
  ghost predicate IsLatest(past: seq<Access>, t: Access, touches: Touches, data: seq<Byte>)
    requires t.Read?
  {
    |data| == t.size && forall j :: 0 <= j < t.size ==> data[j] == LastByte(past, touches, t.addr + j)
  }

  /** What a read returns: nothing if its name does not resolve, and otherwise the last bytes written to that key. */
  ghost predicate ReadsLatest(soc: Soc, past: seq<Access>, t: Access, r: Option<seq<Byte>>)
    requires Built(soc) && t.Read?
  {
    match Resolve(soc, t.c, t.noc)
    case None => r.None?
    case Some(key) => r.Some? && IsLatest(past, t, ToKey(soc, key), r.value)
  }

  /** One write keeps every memory up to date. */
  method PerformWrite(chip: SWEmuleChip, ghost past: seq<Access>, t: Access)
    requires chip.Valid() && Built(chip.soc) && t.Write? && InBounds(chip, t) && UpToDate(chip, past)
    modifies chip
    ensures chip.Valid() && UpToDate(chip, past + [t])
  {
    var _ := chip.WriteToDevice(t.c, t.noc, t.data, t.addr);
    forall key
      ensures Remembers(chip, past + [t], key)
    {
      assert old(Remembers(chip, past, key));
      var view := chip.View(key);
      forall a | 0 <= a < |view|
        ensures view[a] == LastByte(past + [t], ToKey(chip.soc, key), a)
      {
        LastByteOfSnoc(past, t, ToKey(chip.soc, key), a);
      }
    }
  }

  method PerformRead(chip: SWEmuleChip, ghost past: seq<Access>, t: Access) returns (r: Option<seq<Byte>>)
    requires chip.Valid() && Built(chip.soc) && t.Read? && InBounds(chip, t) && UpToDate(chip, past)
    modifies chip
    ensures chip.Valid() && UpToDate(chip, past + [t]) && ReadsLatest(chip.soc, past, t, r)
  {
    r := chip.ReadFromDevice(t.c, t.noc, t.addr, t.size);
    if r.Some? {
      assert old(Remembers(chip, past, Resolve(chip.soc, t.c, t.noc).value));
    }
    forall key
      ensures Remembers(chip, past + [t], key)
    {
      assert old(Remembers(chip, past, key));
      forall a | 0 <= a < |chip.View(key)|
        ensures chip.View(key)[a] == LastByte(past + [t], ToKey(chip.soc, key), a)
      {
        LastByteOfSnoc(past, t, ToKey(chip.soc, key), a);
      }
    }
  }

  /** From a new chip, any mix of accesses to cores of any type, with translation or not. */
  method RunAccesses(chip: SWEmuleChip, trace: seq<Access>) returns (results: seq<Option<seq<Byte>>>)
    requires chip.Valid() && Built(chip.soc) && forall k :: AllZero(chip.View(k))
    requires forall i :: 0 <= i < |trace| ==> InBounds(chip, trace[i])
    modifies chip
    ensures |results| == |trace|
    ensures forall i :: 0 <= i < |trace| && trace[i].Read? ==>
              ReadsLatest(chip.soc, trace[..i], trace[i], results[i])
  {
    results := [];
    for i := 0 to |trace|
      invariant chip.Valid() && |results| == i && UpToDate(chip, trace[..i])
      invariant forall k :: 0 <= k < i && trace[k].Read? ==>
                  ReadsLatest(chip.soc, trace[..k], trace[k], results[k])
    {
      assert trace[..i + 1] == trace[..i] + [trace[i]];
      var r := None;
      if trace[i].Write? {
        PerformWrite(chip, trace[..i], trace[i]);
      } else {
        r := PerformRead(chip, trace[..i], trace[i]);
      }
      results := results + [r];
    }
  }

  /** Equal touching gives the same latest bytes. */
  lemma SameTouchesSameLatest(past: seq<Access>, t: Access, p: Touches, q: Touches, data: seq<Byte>)
    requires t.Read? && IsLatest(past, t, p, data)
    requires forall i :: 0 <= i < |past| ==> p(past[i].c, past[i].noc) == q(past[i].c, past[i].noc)
    ensures IsLatest(past, t, q, data)
  {
    forall j | 0 <= j < t.size
      ensures data[j] == LastByte(past, q, t.addr + j)
    {
      SameTouchesSameBytes(past, p, q, t.addr + j);
    }
  }

  /** With translation, a read of a worker or channel returns the last bytes written through any of its names. */
  lemma TileReads(soc: Soc, past: seq<Access>, t: Access, r: Option<seq<Byte>>)
    requires Built(soc) && soc.cfg.translation && t.Read? && ReadsLatest(soc, past, t, r)
    requires AllProper(soc, past) && Proper(soc, t.c)
    ensures r.Some? && IsLatest(past, t, ToTile(soc, TileOf(soc, t.c)), r.value)
  {
    KeysMatchTiles(soc, t.c, t.noc, t.c, t.noc);
    var p, q := ToKey(soc, Resolve(soc, t.c, t.noc).value), ToTile(soc, TileOf(soc, t.c));
    forall i | 0 <= i < |past|
      ensures p(past[i].c, past[i].noc) == q(past[i].c, past[i].noc)
    {
      KeysMatchTiles(soc, past[i].c, past[i].noc, t.c, t.noc);
    }
    SameTouchesSameLatest(past, t, p, q, r.value);
  }

  ghost predicate AllNamed(soc: Soc, trace: seq<Access>) {
    forall i :: 0 <= i < |trace| ==> trace[i].c in soc.maps.toNoc0
  }

  lemma WorkerTouched(soc: Soc, w: CoreCoord, n: NocId, c: CoreCoord, n': NocId)
    requires Built(soc) && soc.cfg.translation && WorkersPrivate(soc) && IsWorker(soc, w) && c in soc.maps.toNoc0
    ensures Resolve(soc, w, n).Some?
    ensures Resolve(soc, c, n') == Resolve(soc, w, n) <==> soc.maps.toNoc0[c] == soc.maps.toNoc0[w]
  {
    WorkersResolveApart(soc, w, n, w, n);
    if c.coreType.Tensix? {
      WorkersResolveApart(soc, w, n, c, n');
    } else {
      var k := NamesSomeCore(soc, w);
      var l := NamesSomeCore(soc, c);
      assert soc.maps.toNoc0[c] != soc.maps.toNoc0[w];
      assert IsOther(soc, c) || c.coreType.Dram?;
    }
  }

  /**
   With translation and private pairs, a read of a worker returns the last bytes written
   through any of its names, over either NOC, whatever cores of other types were written.
   */
  lemma WorkerReads(soc: Soc, past: seq<Access>, t: Access, r: Option<seq<Byte>>)
    requires Built(soc) && soc.cfg.translation && PairsPrivate(soc) && t.Read? && ReadsLatest(soc, past, t, r)
    requires AllNamed(soc, past) && IsWorker(soc, t.c)
    ensures r.Some? && IsLatest(past, t, ToCore(soc, soc.maps.toNoc0[t.c]), r.value)
  {
    WorkersPrivateIff(soc);
    WorkerTouched(soc, t.c, t.noc, t.c, t.noc);
    var p, q := ToKey(soc, Resolve(soc, t.c, t.noc).value), ToCore(soc, soc.maps.toNoc0[t.c]);
    forall i | 0 <= i < |past|
      ensures p(past[i].c, past[i].noc) == q(past[i].c, past[i].noc)
    {
      WorkerTouched(soc, t.c, t.noc, past[i].c, past[i].noc);
    }
    SameTouchesSameLatest(past, t, p, q, r.value);
  }

  ghost predicate AllOverNoc0(trace: seq<Access>) {
    forall i :: 0 <= i < |trace| ==> trace[i].noc == UseNoc0
  }

  lemma CoreTouchedOverNoc0(soc: Soc, a: CoreCoord, b: CoreCoord)
    requires Built(soc) && StoredPairsApart(soc.cfg) && IsStored(soc, a) && b in soc.maps.toNoc0
    ensures Resolve(soc, a, UseNoc0).Some?
    ensures Resolve(soc, b, UseNoc0) == Resolve(soc, a, UseNoc0) <==> soc.maps.toNoc0[b] == soc.maps.toNoc0[a]
  {
    var k := NamesSomeCore(soc, a);
    var l := NamesSomeCore(soc, b);
    NameResolvesToPair(soc, a, k, UseNoc0);
    NameResolvesToPair(soc, b, l, UseNoc0);
    Noc0PairIsTranslated(soc, k);
    Noc0PairIsTranslated(soc, l);
    if !b.coreType.Dram? {
      Noc0SeparatesCoresIff(soc);
      assert k == l ==> TranslatedXY(soc.cfg, k) == TranslatedXY(soc.cfg, l);
    }
  }

  /** Over NOC0 the same holds for every core but DRAM, if no translated pair belongs to two types. */
  lemma Noc0Reads(soc: Soc, past: seq<Access>, t: Access, r: Option<seq<Byte>>)
    requires Built(soc) && StoredPairsApart(soc.cfg) && t.Read? && ReadsLatest(soc, past, t, r)
    requires AllNamed(soc, past) && AllOverNoc0(past) && IsStored(soc, t.c) && t.noc == UseNoc0
    ensures r.Some? && IsLatest(past, t, ToCore(soc, soc.maps.toNoc0[t.c]), r.value)
  {
    CoreTouchedOverNoc0(soc, t.c, t.c);
    var p, q := ToKey(soc, Resolve(soc, t.c, t.noc).value), ToCore(soc, soc.maps.toNoc0[t.c]);
    forall i | 0 <= i < |past|
      ensures p(past[i].c, past[i].noc) == q(past[i].c, past[i].noc)
    {
      CoreTouchedOverNoc0(soc, t.c, past[i].c);
    }
    SameTouchesSameLatest(past, t, p, q, r.value);
  }
}
