/**
 The software-emulated chip: backings are created on first touch, workers inside a shared
 pool at their pre-assigned slots, DRAM one per channel.
 */
module SwEmuleChip {
  import opened Sequences
  import opened Wrappers
  import opened Bytes
  import opened CoordNames
  import opened SocDescriptor

  /** What a name resolves to. */
  datatype Key = Worker(xy: XY) | Channel(channel: nat)

  function Resolve(soc: Soc, c: CoreCoord, noc: NocId): Option<Key>
    requires forall i :: 0 <= i < |soc.cfg.lists.eth| ==> soc.cfg.lists.eth[i].x < soc.gridX
  {
    if c.coreType.Dram? then
      var channel := DramChannel(soc, c);
      if channel.Some? then Some(Channel(channel.value)) else None
    else
      var xy := TranslateChipCoord(soc, c, noc);
      if xy.Some? then Some(Worker(xy.value)) else None
  }

  /** A core object points into the pool or owns its bytes. */
  datatype Backing = InPool(offset: nat) | Own(bytes: seq<Byte>)

  /** Where a slot starts: `slot * slotSize`, as the lemma below says. */
  function Offset(slot: nat, slotSize: nat): nat {
    if slot == 0 then 0 else Offset(slot - 1, slotSize) + slotSize
  }

  lemma {:induction false} OffsetIsProduct(slot: nat, slotSize: nat)
    ensures Offset(slot, slotSize) == slot * slotSize
  {
    if slot > 0 {
      OffsetIsProduct(slot - 1, slotSize);
      assert slot * slotSize == (slot - 1) * slotSize + slotSize;
    }
  }

  lemma {:induction false} SlotsApart(a: nat, b: nat, slotSize: nat)
    requires a < b
    ensures Offset(a, slotSize) + slotSize <= Offset(b, slotSize)
  {
    if a < b - 1 {
      SlotsApart(a, b - 1, slotSize);
    }
  }

  /** Slots are numbered by position in the list of unharvested workers. */
  method BuildWorkerSlotMap(tensix: seq<XY>) returns (slotOf: map<XY, nat>)
    ensures forall i :: 0 <= i < |tensix| ==> tensix[i] in slotOf
    ensures forall xy :: xy in slotOf ==> slotOf[xy] < |tensix| && tensix[slotOf[xy]] == xy
    ensures Distinct(tensix) ==> |slotOf| == |tensix|
  {
    slotOf := map[];
    for i := 0 to |tensix|
      invariant forall j :: 0 <= j < i ==> tensix[j] in slotOf
      invariant forall xy :: xy in slotOf ==> slotOf[xy] < i && tensix[slotOf[xy]] == xy
      invariant Distinct(tensix) ==> |slotOf| == i
    {
      slotOf := slotOf[tensix[i] := i];
    }
  }

  ghost predicate AllZero(bytes: seq<Byte>) {
    forall i :: 0 <= i < |bytes| ==> bytes[i] == 0
  }

  class SWEmuleChip {
    const soc: Soc
    const l1Size: nat
    const bankSize: nat
    const slotSize: nat
    const slotOf: map<XY, nat>
    var pool: seq<Byte>
    var cores: map<XY, Backing>
    var dramChannelCore: map<nat, seq<Byte>>

    ghost predicate Layout() {
      && (forall i :: 0 <= i < |soc.cfg.lists.eth| ==> soc.cfg.lists.eth[i].x < soc.gridX)
      && l1Size <= slotSize
      && (forall xy :: xy in slotOf ==> slotOf[xy] < |slotOf|)
      && (forall xy, xy' :: xy in slotOf && xy' in slotOf && slotOf[xy] == slotOf[xy'] ==> xy == xy')
    }

    ghost predicate BackingOk(xy: XY, b: Backing) {
      if xy in slotOf then b == InPool(Offset(slotOf[xy], slotSize)) else b.Own? && |b.bytes| == l1Size
    }

    ghost predicate Valid()
      reads this
    {
      && Layout() && |pool| == Offset(|slotOf|, slotSize)
      && (forall xy :: xy in cores ==> BackingOk(xy, cores[xy]))
      && (forall ch :: ch in dramChannelCore ==> |dramChannelCore[ch]| == bankSize)
    }

    ghost function Size(k: Key): nat {
      if k.Worker? then l1Size else bankSize
    }

    lemma SlotInPool(xy: XY)
      requires Valid() && xy in slotOf
      ensures Offset(slotOf[xy], slotSize) + l1Size <= |pool|
    {
      SlotsApart(slotOf[xy], |slotOf|, slotSize);
    }

    lemma SlotsDisjoint(xy: XY, xy': XY)
      requires Layout() && xy in slotOf && xy' in slotOf && xy != xy'
      ensures var a, b := Offset(slotOf[xy], slotSize), Offset(slotOf[xy'], slotSize);
              a + l1Size <= b || b + l1Size <= a
    {
      if slotOf[xy] < slotOf[xy'] {
        SlotsApart(slotOf[xy], slotOf[xy'], slotSize);
      } else {
        SlotsApart(slotOf[xy'], slotOf[xy], slotSize);
      }
    }

    /** The memory behind a key; untouched private memory is zero. */
    ghost function View(k: Key): (bytes: seq<Byte>)
      requires Valid()
      reads this
      ensures |bytes| == Size(k)
    {
      match k
      case Worker(xy) =>
        if xy in slotOf then
          SlotOf(pool, xy)
        else if xy in cores then cores[xy].bytes
        else Zeros(l1Size)
      case Channel(ch) => if ch in dramChannelCore then dramChannelCore[ch] else Zeros(bankSize)
    }

    /** `tensix` lists the translated coordinates of the unharvested workers. */
    constructor (soc: Soc, l1Size: nat, bankSize: nat, slotSize: nat, tensix: seq<XY>)
      requires Distinct(tensix)
      requires forall i :: 0 <= i < |soc.cfg.lists.eth| ==> soc.cfg.lists.eth[i].x < soc.gridX
      requires l1Size <= slotSize
      ensures Valid() && this.soc == soc && this.l1Size == l1Size && this.bankSize == bankSize
      ensures forall xy :: xy in slotOf <==> xy in tensix
      ensures forall k :: AllZero(View(k))
    {
      var slots := BuildWorkerSlotMap(tensix);
      this.soc, this.l1Size, this.bankSize, this.slotSize := soc, l1Size, bankSize, slotSize;
      this.slotOf, cores, dramChannelCore := slots, map[], map[];
      pool := Zeros(Offset(|slots|, slotSize));
      new;
      forall k
        ensures AllZero(View(k))
      {
        if k.Worker? && k.xy in this.slotOf {
          SlotInPool(k.xy);
        }
      }
    }

    /** Finds or creates the backing of a worker; creation shows in no view. */
    method GetCore(xy: XY)
      requires Valid()
      modifies this`cores
      ensures Valid() && xy in cores
      ensures forall k :: View(k) == old(View(k))
    {
      if xy in cores {
        return;
      }
      var core := if xy in slotOf then InPool(Offset(slotOf[xy], slotSize)) else Own(Zeros(l1Size));
      cores := cores[xy := core];
    }

    method GetDramChannelBacking(channel: nat)
      requires Valid()
      modifies this`dramChannelCore
      ensures Valid() && channel in dramChannelCore
      ensures forall k :: View(k) == old(View(k))
    {
      if channel !in dramChannelCore {
        dramChannelCore := dramChannelCore[channel := Zeros(bankSize)];
      }
    }

    /** The slot of a pooled worker. */
    ghost function SlotOf(p: seq<Byte>, xy: XY): (bytes: seq<Byte>)
      requires Layout() && xy in slotOf && |p| == Offset(|slotOf|, slotSize)
      ensures |bytes| == l1Size
    {
      SlotsApart(slotOf[xy], |slotOf|, slotSize);
      p[Offset(slotOf[xy], slotSize)..Offset(slotOf[xy], slotSize) + l1Size]
    }

    lemma OwnSlot(p: seq<Byte>, xy: XY, addr: nat, data: seq<Byte>)
      requires Layout() && |p| == Offset(|slotOf|, slotSize) && xy in slotOf && addr + |data| <= l1Size
      ensures Offset(slotOf[xy], slotSize) + l1Size <= |p|
      ensures SlotOf(Splice(p, Offset(slotOf[xy], slotSize) + addr, data), xy) == Splice(SlotOf(p, xy), addr, data)
    {
      var o := Offset(slotOf[xy], slotSize);
      SlotsApart(slotOf[xy], |slotOf|, slotSize);
      WindowOfSplice(p, o, o + l1Size, o + addr, data);
    }

    /** A write into one slot of the pool leaves the other slots alone. */
    lemma OtherSlot(p: seq<Byte>, xy: XY, addr: nat, data: seq<Byte>, other: XY)
      requires Layout() && |p| == Offset(|slotOf|, slotSize) && xy in slotOf && addr + |data| <= l1Size
      requires other in slotOf && other != xy && Offset(slotOf[xy], slotSize) + l1Size <= |p|
      ensures SlotOf(Splice(p, Offset(slotOf[xy], slotSize) + addr, data), other) == SlotOf(p, other)
    {
      var o, a := Offset(slotOf[other], slotSize), Offset(slotOf[xy], slotSize) + addr;
      SlotsApart(slotOf[other], |slotOf|, slotSize);
      SlotsDisjoint(xy, other);
      assert o + l1Size <= a || a + |data| <= o;
      WindowOfSplice(p, o, o + l1Size, a, data);
    }

    method CopyToPool(xy: XY, addr: nat, data: seq<Byte>)
      requires Valid() && xy in slotOf && addr + |data| <= l1Size
      modifies this`pool
      ensures Valid()
      ensures forall k :: View(k) == if k == Worker(xy) then Splice(old(View(k)), addr, data) else old(View(k))
    {
      OwnSlot(pool, xy, addr, data);
      pool := Splice(pool, Offset(slotOf[xy], slotSize) + addr, data);
      forall k
        ensures View(k) == if k == Worker(xy) then Splice(old(View(k)), addr, data) else old(View(k))
      {
        if k.Worker? && k.xy in slotOf && k.xy != xy {
          OtherSlot(old(pool), xy, addr, data, k.xy);
        }
      }
    }

    method CopyToWorker(xy: XY, addr: nat, data: seq<Byte>)
      requires Valid() && xy in cores && addr + |data| <= l1Size
      modifies this
      ensures Valid()
      ensures forall k :: View(k) == if k == Worker(xy) then Splice(old(View(k)), addr, data) else old(View(k))
    {
      match cores[xy] {
        case InPool(_) =>
          CopyToPool(xy, addr, data);
        case Own(bytes) =>
          cores := cores[xy := Own(Splice(bytes, addr, data))];
      }
    }

    method CopyToChannel(channel: nat, addr: nat, data: seq<Byte>)
      requires Valid() && channel in dramChannelCore && addr + |data| <= bankSize
      modifies this`dramChannelCore
      ensures Valid()
      ensures forall k :: View(k) == if k == Channel(channel) then Splice(old(View(k)), addr, data) else old(View(k))
    {
      dramChannelCore := dramChannelCore[channel := Splice(dramChannelCore[channel], addr, data)];
    }

    method CopyFromWorker(xy: XY, addr: nat, size: nat) returns (data: seq<Byte>)
      requires Valid() && xy in cores && addr + size <= l1Size
      ensures data == View(Worker(xy))[addr..addr + size]
    {
      match cores[xy] {
        case InPool(offset) =>
          SlotInPool(xy);
          SliceOfSlice(pool, offset, offset + l1Size, addr, addr + size);
          data := pool[offset + addr..offset + addr + size];
        case Own(bytes) =>
          data := bytes[addr..addr + size];
      }
    }

    /** A name that resolves changes exactly the addressed bytes of its key; any other changes nothing. */
    method WriteToDevice(c: CoreCoord, noc: NocId, data: seq<Byte>, addr: nat) returns (ok: bool)
      requires Valid()
      requires Resolve(soc, c, noc).Some? ==> addr + |data| <= Size(Resolve(soc, c, noc).value)
      modifies this
      ensures Valid() && ok == Resolve(soc, c, noc).Some?
      ensures forall k :: View(k) ==
                if Resolve(soc, c, noc) == Some(k) then Splice(old(View(k)), addr, data) else old(View(k))
    {
      if c.coreType.Dram? {
        var channel := DramChannel(soc, c);
        if channel.None? {
          return false;
        }
        GetDramChannelBacking(channel.value);
        CopyToChannel(channel.value, addr, data);
      } else {
        var xy := TranslateChipCoord(soc, c, noc);
        if xy.None? {
          return false;
        }
        GetCore(xy.value);
        CopyToWorker(xy.value, addr, data);
      }
      return true;
    }

    method ReadFromDevice(c: CoreCoord, noc: NocId, addr: nat, size: nat) returns (r: Option<seq<Byte>>)
      requires Valid()
      requires Resolve(soc, c, noc).Some? ==> addr + size <= Size(Resolve(soc, c, noc).value)
      modifies this`cores, this`dramChannelCore
      ensures Valid() && forall k :: View(k) == old(View(k))
      ensures r == match Resolve(soc, c, noc)
                   case None => None
                   case Some(k) => Some(View(k)[addr..addr + size])
    {
      if c.coreType.Dram? {
        var channel := DramChannel(soc, c);
        if channel.None? {
          return None;
        }
        GetDramChannelBacking(channel.value);
        r := Some(dramChannelCore[channel.value][addr..addr + size]);
      } else {
        var xy := TranslateChipCoord(soc, c, noc);
        if xy.None? {
          return None;
        }
        GetCore(xy.value);
        var data := CopyFromWorker(xy.value, addr, size);
        r := Some(data);
      }
    }
  }
}
