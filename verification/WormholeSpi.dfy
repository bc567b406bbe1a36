/**
 Wormhole SPI flash access in whole chunks: read, and read-modify-write.  The firmware may
 carry a message out, refuse it with an error code, or leave the driver waiting until it
 gives up.  The driver looks at the code of the first message only, so refused chunk
 messages go unnoticed.
 */
module WormholeSpi {
  import opened Bytes
  import opened WormholeChunks

  const LOCK_SECTIONS := 8

  /** How a message or transfer ends; one that throws may still have been carried out. */
  datatype Reply = Success | Refused | Threw(done: bool)

  predicate Carried(r: Reply) {
    r.Success? || r == Threw(true)
  }

  /** The replies to the dump address request and to the messages of the n-th chunk, and how the lock steps end. */
  datatype Script = Script(dumpAddr: Reply, read: nat -> Reply, write: nat -> Reply, unlocks: bool, relocks: bool)

  /** Flash, the dump buffer and the chunk that was read into it last. */
  datatype Device = Device(flash: seq<Byte>, dump: seq<Byte>, lastRead: nat)

  predicate DeviceOk(d: Device) {
    |d.flash| == ROM_SIZE && |d.dump| == CHUNK && d.lastRead + CHUNK <= ROM_SIZE
  }

  /** SPI_READ fills the dump buffer, unless it was refused: then the buffer stays as it was. */
  function AfterRead(d: Device, chunkAddr: nat, r: Reply): (d': Device)
    requires DeviceOk(d) && chunkAddr + CHUNK <= ROM_SIZE
    ensures DeviceOk(d') && d'.flash == d.flash
  {
    if Carried(r) then d.(dump := d.flash[chunkAddr..chunkAddr + CHUNK], lastRead := chunkAddr) else d
  }

  /** SPI_WRITE stores the dump buffer to the chunk read last. */
  function AfterWrite(d: Device, r: Reply): (d': Device)
    requires DeviceOk(d)
    ensures DeviceOk(d')
  {
    if Carried(r) then d.(flash := Splice(d.flash, d.lastRead, d.dump)) else d
  }

  class SpiFirmware {
    const script: Script
    var dev: Device
    var locked: bool
    var lockAttempts: nat

    ghost predicate Valid()
      reads this
    {
      DeviceOk(dev)
    }

    constructor (script: Script, dev: Device)
      requires DeviceOk(dev)
      ensures Valid() && this.script == script && this.dev == dev && locked && lockAttempts == 0
    {
      this.script, this.dev, locked, lockAttempts := script, dev, true, 0;
    }

    /** SPI_READ and a read of the dump buffer. */
    method ReadChunk(n: nat, chunkAddr: nat) returns (threw: bool, buf: seq<Byte>)
      requires Valid() && chunkAddr + CHUNK <= ROM_SIZE
      modifies this`dev
      ensures Valid() && dev == AfterRead(old(dev), chunkAddr, script.read(n))
      ensures threw == script.read(n).Threw? && buf == dev.dump
    {
      dev := AfterRead(dev, chunkAddr, script.read(n));
      threw, buf := script.read(n).Threw?, dev.dump;
    }

    /** A write of the dump buffer and, unless this is a dry run, SPI_WRITE. */
    method WriteChunk(n: nat, buf: seq<Byte>, skip: bool) returns (threw: bool)
      requires Valid() && |buf| == CHUNK
      modifies this`dev
      ensures Valid() && threw == script.write(n).Threw?
      ensures dev == if skip || locked then old(dev).(dump := buf)
                     else AfterWrite(old(dev).(dump := buf), script.write(n))
    {
      dev := dev.(dump := buf);
      if !skip && !locked {
        dev := AfterWrite(dev, script.write(n));
      }
      threw := script.write(n).Threw?;
    }

    /** init, lock and disable; zero sections unlock. */
    method SetLock(sections: nat) returns (ok: bool)
      requires Valid()
      modifies this`locked, this`lockAttempts
      ensures Valid() && (ok ==> locked == (sections > 0))
      ensures ok == if sections > 0 then script.relocks else script.unlocks
      ensures lockAttempts == old(lockAttempts) + if sections > 0 then 1 else 0
    {
      ok := if sections > 0 then script.relocks else script.unlocks;
      var state: bool := *;
      locked := if ok then sections > 0 else state;
      if sections > 0 {
        lockAttempts := lockAttempts + 1;
      }
    }
  }

  /** The device after the SPI_READ messages of the first n chunks. */
  ghost function ReadRun(d: Device, s: Script, plan: seq<Chunk>, addr: nat, size: nat, n: nat): (d': Device)
    requires DeviceOk(d) && PlanOk(plan, addr, size) && n <= |plan|
    ensures DeviceOk(d') && d'.flash == d.flash
  {
    if n == 0 then d
    else
      assert Follows(plan, addr, size, n - 1);
      AfterRead(ReadRun(d, s, plan, addr, size, n - 1), plan[n - 1].addr, s.read(n - 1))
  }

  /** What the first n turns of the read loop deliver: pieces of the dump buffer as it is after each message. */
  ghost function Delivered(d: Device, s: Script, plan: seq<Chunk>, addr: nat, size: nat, n: nat): (bytes: seq<Byte>)
    requires DeviceOk(d) && PlanOk(plan, addr, size) && n <= |plan|
    ensures |bytes| == Done(plan, n) <= size
  {
    if n == 0 then []
    else
      var c := plan[n - 1];
      assert Follows(plan, addr, size, n - 1);
      Delivered(d, s, plan, addr, size, n - 1) + ReadRun(d, s, plan, addr, size, n).dump[c.at..c.at + c.count]
  }

  /** One turn of the write loop: read, modify, and write back only if something changed. */
  function Turn(d: Device, chunkAddr: nat, at: nat, part: seq<Byte>, skip: bool, r: Reply, w: Reply): (d': Device)
    requires DeviceOk(d) && chunkAddr + CHUNK <= ROM_SIZE && at + |part| <= CHUNK
    ensures DeviceOk(d')
  {
    var d1 := AfterRead(d, chunkAddr, r);
    var buf := Splice(d1.dump, at, part);
    if buf == d1.dump then d1
    else if skip then d1.(dump := buf)
    else AfterWrite(d1.(dump := buf), w)
  }

  /** The turn found something to change, and the write message threw. */
  predicate WriteThrew(d: Device, chunkAddr: nat, at: nat, part: seq<Byte>, r: Reply, w: Reply)
    requires DeviceOk(d) && chunkAddr + CHUNK <= ROM_SIZE && at + |part| <= CHUNK
  {
    var dump := AfterRead(d, chunkAddr, r).dump;
    Splice(dump, at, part) != dump && w.Threw?
  }

  /** A message of the turn threw. */
  predicate TurnThrows(d: Device, c: Chunk, data: seq<Byte>, r: Reply, w: Reply)
    requires DeviceOk(d) && c.addr + CHUNK <= ROM_SIZE && c.at + c.count <= CHUNK && c.from + c.count <= |data|
  {
    r.Threw? || WriteThrew(d, c.addr, c.at, data[c.from..c.from + c.count], r, w)
  }

  /** The turn for a chunk of the plan. */
  function Step(d: Device, c: Chunk, data: seq<Byte>, skip: bool, r: Reply, w: Reply): (d': Device)
    requires DeviceOk(d) && c.addr + CHUNK <= ROM_SIZE && c.at + c.count <= CHUNK && c.from + c.count <= |data|
    ensures DeviceOk(d')
  {
    Turn(d, c.addr, c.at, data[c.from..c.from + c.count], skip, r, w)
  }

  /** The device after n turns of the write loop. */
  ghost function WriteRun(d: Device, s: Script, plan: seq<Chunk>, addr: nat, data: seq<Byte>, skip: bool, n: nat)
    : (d': Device)
    requires DeviceOk(d) && PlanOk(plan, addr, |data|) && n <= |plan|
    ensures DeviceOk(d')
  {
    if n == 0 then d
    else
      var c := plan[n - 1];
      assert Follows(plan, addr, |data|, n - 1);
      Step(WriteRun(d, s, plan, addr, data, skip, n - 1), c, data, skip, s.read(n - 1), s.write(n - 1))
  }

  /** The write loop gets past its n-th turn: no message it sends throws. */
  ghost predicate Passes(d: Device, s: Script, plan: seq<Chunk>, addr: nat, data: seq<Byte>, skip: bool, n: nat)
    requires DeviceOk(d) && PlanOk(plan, addr, |data|) && n < |plan|
  {
    assert Follows(plan, addr, |data|, n);
    !TurnThrows(WriteRun(d, s, plan, addr, data, skip, n), plan[n], data, s.read(n), s.write(n))
  }

  /** No chunk message was refused. */
  predicate NoRefusals(s: Script, n: nat) {
    forall m :: 0 <= m < n ==> !s.read(m).Refused? && !s.write(m).Refused?
  }

  predicate NoReadRefused(s: Script, n: nat) {
    forall m :: 0 <= m < n ==> !s.read(m).Refused?
  }

  /** The first n bytes of the data have reached the flash, and nothing else has changed. */
  ghost predicate WrotePrefix(before: seq<Byte>, flash: seq<Byte>, addr: nat, data: seq<Byte>, n: nat) {
    n <= |data| && addr + |data| <= |before| && flash == Splice(before, addr, data[..n])
  }

  lemma PrefixGrows(before: seq<Byte>, flash: seq<Byte>, addr: nat, data: seq<Byte>, from: nat, count: nat)
    requires from + count <= |data| && addr + |data| <= |flash| == |before|
             && WrotePrefix(before, flash, addr, data, from)
    ensures WrotePrefix(before, Splice(flash, addr + from, data[from..from + count]), addr, data, from + count)
  {
    SpliceJoins(before, addr, data[..from], data[from..from + count]);
    SliceJoins(data, 0, from, from + count);
  }

  lemma StoreUnchanged(s: seq<Byte>, lo: nat, hi: nat)
    requires lo <= hi <= |s|
    ensures Splice(s, lo, s[lo..hi]) == s
  {
  }

  /** A turn whose messages were carried out writes its piece, also when an unchanged chunk is not written back. */
  lemma CarriedTurn(d: Device, chunkAddr: nat, at: nat, part: seq<Byte>, r: Reply, w: Reply)
    requires DeviceOk(d) && chunkAddr + CHUNK <= ROM_SIZE && at + |part| <= CHUNK && Carried(r)
    ensures var flash := Turn(d, chunkAddr, at, part, false, r, w).flash;
            || flash == Splice(d.flash, chunkAddr + at, part)
            || (!Carried(w) && (w.Threw? ==> WriteThrew(d, chunkAddr, at, part, r, w)) && flash == d.flash)
  {
    StoreBackWindow(d.flash, chunkAddr, chunkAddr + CHUNK, at, part);
    StoreUnchanged(d.flash, chunkAddr, chunkAddr + CHUNK);
  }

  /** What a write has reached after n bytes, as far as nothing was refused; a dry run leaves the flash alone. */
  ghost predicate Reached(before: seq<Byte>, flash: seq<Byte>, clean: bool, addr: nat, data: seq<Byte>, skip: bool,
      n: nat) {
    (skip ==> flash == before) && (!skip && clean ==> WrotePrefix(before, flash, addr, data, n))
  }

  lemma DryTurn(d: Device, chunkAddr: nat, at: nat, part: seq<Byte>, r: Reply, w: Reply)
    requires DeviceOk(d) && chunkAddr + CHUNK <= ROM_SIZE && at + |part| <= CHUNK
    ensures Turn(d, chunkAddr, at, part, true, r, w).flash == d.flash
  {
  }

  lemma CleanTurn(before: seq<Byte>, flash0: seq<Byte>, flash: seq<Byte>, addr: nat, data: seq<Byte>, c: Chunk,
      w: Reply)
    requires ChunkOk(c, addr, |data|) && |flash0| == |before| == ROM_SIZE && addr + |data| <= ROM_SIZE
    requires WrotePrefix(before, flash0, addr, data, c.from)
    requires flash == Splice(flash0, c.addr + c.at, data[c.from..c.from + c.count]) || (!Carried(w) && flash == flash0)
    ensures WrotePrefix(before, flash, addr, data, c.from + c.count) ||
            (!Carried(w) && WrotePrefix(before, flash, addr, data, c.from))
  {
    PrefixGrows(before, flash0, addr, data, c.from, c.count);
  }

  lemma TurnReaches(before: seq<Byte>, d: Device, clean: bool, addr: nat, data: seq<Byte>, skip: bool, c: Chunk,
                    r: Reply, w: Reply) returns (done: nat)
    requires DeviceOk(d) && ChunkOk(c, addr, |data|) && |before| == ROM_SIZE && addr + |data| <= ROM_SIZE
    requires Reached(before, d.flash, clean, addr, data, skip, c.from) && !r.Threw?
             && (clean ==> !r.Refused? && !w.Refused?)
    ensures var part := data[c.from..c.from + c.count];
            && Reached(before, Turn(d, c.addr, c.at, part, skip, r, w).flash, clean, addr, data, skip, done)
            && (!WriteThrew(d, c.addr, c.at, part, r, w) ==> done == c.from + c.count)
  {
    var part := data[c.from..c.from + c.count];
    done := c.from + c.count;
    if skip {
      DryTurn(d, c.addr, c.at, part, r, w);
    } else if clean {
      var flash := Turn(d, c.addr, c.at, part, false, r, w).flash;
      CarriedTurn(d, c.addr, c.at, part, r, w);
      CleanTurn(before, d.flash, flash, addr, data, c, w);
      if !WrotePrefix(before, flash, addr, data, done) {
        done := c.from;
      }
    }
  }

  datatype ReadResult = ReadOk | ReadOutOfBounds | ReadNoMessenger | ReadFailed

  /** The buffer after n turns of the read loop. */
  ghost predicate Fetched(d: Device, s: Script, plan: seq<Chunk>, addr: nat, data: seq<Byte>, before: seq<Byte>, n: nat)
    requires DeviceOk(d) && PlanOk(plan, addr, |data|)
  {
    n <= |plan| && |before| == |data| && data == Splice(before, 0, Delivered(d, s, plan, addr, |data|, n))
  }

  lemma FetchMore(d: Device, s: Script, plan: seq<Chunk>, addr: nat, data: seq<Byte>, before: seq<Byte>, n: nat)
    requires DeviceOk(d) && PlanOk(plan, addr, |data|) && n < |plan| && Fetched(d, s, plan, addr, data, before, n)
    ensures var c, dump := plan[n], ReadRun(d, s, plan, addr, |data|, n + 1).dump;
            && c.at + c.count <= CHUNK && c.from + c.count <= |data|
            && Fetched(d, s, plan, addr, Splice(data, c.from, dump[c.at..c.at + c.count]), before, n + 1)
  {
    var c, dump := plan[n], ReadRun(d, s, plan, addr, |data|, n + 1).dump;
    assert Follows(plan, addr, |data|, n);
    SpliceJoins(before, 0, Delivered(d, s, plan, addr, |data|, n), dump[c.at..c.at + c.count]);
  }

  /** A read has got through the first n chunks. */
  ghost predicate ReadTo(d: Device, s: Script, addr: nat, data: seq<Byte>, before: seq<Byte>, n: nat)
    requires DeviceOk(d) && InRom(addr, |data|)
  {
    PlanIsOk(addr, |data|);
    Fetched(d, s, Plan(addr, |data|), addr, data, before, n)
  }

  method ReadChunks(fw: SpiFirmware, ghost addr: nat, data: array<Byte>, startAddr: nat, numChunks: nat,
                    startOffset: nat, ghost plan: seq<Chunk>) returns (ok: bool, ghost done: nat)
    requires fw.Valid() && PlanOk(plan, addr, data.Length) && |plan| == numChunks
    requires TurnsAre(plan, startAddr, startOffset, data.Length)
    modifies fw`dev, data
    ensures fw.Valid() && fw.dev.flash == old(fw.dev.flash)
    ensures Fetched(old(fw.dev), fw.script, plan, addr, data[..], old(data[..]), done)
    ensures ok ==> done == numChunks
    ensures ok <==> forall m :: 0 <= m < numChunks ==> !fw.script.read(m).Threw?
  {
    ghost var before, d := data[..], fw.dev;
    assert Splice(before, 0, []) == before;
    done := 0;
    for n := 0 to numChunks
      invariant fw.Valid() && fw.dev == ReadRun(d, fw.script, plan, addr, data.Length, n) && done == n
      invariant Fetched(d, fw.script, plan, addr, data[..], before, n)
      invariant forall m :: 0 <= m < n ==> !fw.script.read(m).Threw?
    {
      assert TurnIs(plan, startAddr, startOffset, data.Length, n) && Follows(plan, addr, data.Length, n);
      var c := ChunkAt(startAddr, n * CHUNK, startOffset, data.Length);
      var threw, buf := fw.ReadChunk(n, c.addr);
      if threw {
        return false, n;
      }
      FetchMore(d, fw.script, plan, addr, data[..], before, n);
      CopyInto(data, c.from, buf[c.at..c.at + c.count]);
      done := n + 1;
    }
    ok := true;
  }

  /**
   Out-of-range reads are rejected; others deliver what the dump buffer held, or a prefix of it
   if a message throws.
   */
  method Read(fw: SpiFirmware, messenger: bool, addr: nat, data: array<Byte>) returns (r: ReadResult)
    requires fw.Valid()
    modifies fw`dev, data
    ensures fw.Valid() && fw.dev.flash == old(fw.dev.flash)
    ensures r.ReadOutOfBounds? <==> addr + data.Length > ROM_SIZE
    ensures r.ReadNoMessenger? <==> addr + data.Length <= ROM_SIZE && data.Length > 0 && !messenger
    ensures r.ReadFailed? ==>
            InRom(addr, data.Length) && exists n :: ReadTo(old(fw.dev), fw.script, addr, data[..], old(data[..]), n)
    ensures r.ReadOk? && data.Length > 0 ==>
              && InRom(addr, data.Length)
              && ReadTo(old(fw.dev), fw.script, addr, data[..], old(data[..]), NumChunks(addr, data.Length))
    ensures InRom(addr, data.Length) && messenger ==>
              (r.ReadOk? <==>
               && fw.script.dumpAddr.Success?
               && forall n :: 0 <= n < NumChunks(addr, data.Length) ==> !fw.script.read(n).Threw?)
    ensures r.ReadOutOfBounds? || r.ReadNoMessenger? ==> data[..] == old(data[..])
  {
    var size := data.Length;
    if addr + size > ROM_SIZE {
      return ReadOutOfBounds;
    }
    if size == 0 {
      return ReadOk;
    }
    if !messenger {
      return ReadNoMessenger;
    }
    ghost var before, d := data[..], fw.dev;
    assert Splice(before, 0, []) == before;
    PlanIsOk(addr, size);
    assert ReadTo(d, fw.script, addr, data[..], before, 0);
    if !fw.script.dumpAddr.Success? {
      return ReadFailed;
    }
    var startAddr, numChunks, startOffset := GetAlignedParams(addr, size, CHUNK);
    ParamsGivePlan(addr, size, startAddr, numChunks, startOffset);
    var ok;
    ghost var n;
    ok, n := ReadChunks(fw, addr, data, startAddr, numChunks, startOffset, Plan(addr, size));
    assert ReadTo(d, fw.script, addr, data[..], before, n);
    r := if ok then ReadOk else ReadFailed;
  }

  datatype WriteResult = WriteOk | WriteNoMessenger | SetupFailed | WriteFailed(relocked: bool) | LockFailed

  /** The device is that of a finished write loop. */
  ghost predicate Finished(before: Device, after: Device, s: Script, addr: nat, data: seq<Byte>, skip: bool)
    requires DeviceOk(before) && InRom(addr, |data|)
  {
    PlanIsOk(addr, |data|);
    after == WriteRun(before, s, Plan(addr, |data|), addr, data, skip, NumChunks(addr, |data|))
  }

  lemma WriteRunStep(d: Device, s: Script, plan: seq<Chunk>, addr: nat, data: seq<Byte>, skip: bool, n: nat)
    requires DeviceOk(d) && PlanOk(plan, addr, |data|) && n < |plan|
    ensures ChunkOk(plan[n], addr, |data|) && plan[n].from == Done(plan, n)
    ensures WriteRun(d, s, plan, addr, data, skip, n + 1) ==
            Step(WriteRun(d, s, plan, addr, data, skip, n), plan[n], data, skip, s.read(n), s.write(n))
  {
    assert Follows(plan, addr, |data|, n);
  }

  /** Reads a chunk, puts the piece in its place and writes it back if that changed something. */
  method EditChunk(fw: SpiFirmware, n: nat, chunkAddr: nat, at: nat, part: seq<Byte>, skip: bool)
    returns (readThrew: bool, writeThrew: bool)
    requires fw.Valid() && !fw.locked && chunkAddr + CHUNK <= ROM_SIZE && at + |part| <= CHUNK
    modifies fw`dev
    ensures fw.Valid() && readThrew == fw.script.read(n).Threw?
    ensures readThrew ==> fw.dev == AfterRead(old(fw.dev), chunkAddr, fw.script.read(n)) && !writeThrew
    ensures !readThrew ==>
              && fw.dev == Turn(old(fw.dev), chunkAddr, at, part, skip, fw.script.read(n), fw.script.write(n))
              && writeThrew == WriteThrew(old(fw.dev), chunkAddr, at, part, fw.script.read(n), fw.script.write(n))
  {
    var buf;
    readThrew, buf := fw.ReadChunk(n, chunkAddr);
    writeThrew := false;
    if readThrew {
      return;
    }
    var origData := buf;
    buf := Splice(buf, at, part);
    if buf != origData {
      writeThrew := fw.WriteChunk(n, buf, skip);
    }
  }

  method ModifyChunk(fw: SpiFirmware, ghost before: seq<Byte>, ghost clean: bool, ghost addr: nat, data: seq<Byte>,
                     skip: bool, n: nat, c: Chunk) returns (threw: bool, ghost done: nat)
    requires fw.Valid() && !fw.locked && ChunkOk(c, addr, |data|) && |before| == ROM_SIZE && addr + |data| <= ROM_SIZE
    requires Reached(before, fw.dev.flash, clean, addr, data, skip, c.from)
    requires clean ==> !fw.script.read(n).Refused? && !fw.script.write(n).Refused?
    modifies fw`dev
    ensures fw.Valid()
    ensures !threw ==>
              && done == c.from + c.count
              && fw.dev == Step(old(fw.dev), c, data, skip, fw.script.read(n), fw.script.write(n))
    ensures threw == TurnThrows(old(fw.dev), c, data, fw.script.read(n), fw.script.write(n))
    ensures Reached(before, fw.dev.flash, clean, addr, data, skip, done)
  {
    ghost var d := fw.dev;
    var readThrew, writeThrew := EditChunk(fw, n, c.addr, c.at, data[c.from..c.from + c.count], skip);
    threw, done := readThrew || writeThrew, c.from;
    if !readThrew {
      done := TurnReaches(before, d, clean, addr, data, skip, c, fw.script.read(n), fw.script.write(n));
    }
  }

  method WriteTurn(fw: SpiFirmware, ghost d: Device, ghost clean: bool, ghost addr: nat, data: seq<Byte>, skip: bool,
                   ghost plan: seq<Chunk>, n: nat, c: Chunk) returns (threw: bool, ghost done: nat)
    requires fw.Valid() && !fw.locked && PlanOk(plan, addr, |data|) && n < |plan| && c == plan[n]
             && addr + |data| <= ROM_SIZE
    requires DeviceOk(d) && fw.dev == WriteRun(d, fw.script, plan, addr, data, skip, n)
    requires Reached(d.flash, fw.dev.flash, clean, addr, data, skip, Done(plan, n))
    requires clean ==> !fw.script.read(n).Refused? && !fw.script.write(n).Refused?
    modifies fw`dev
    ensures fw.Valid() && (!threw ==> done == Done(plan, n + 1))
    ensures threw == !Passes(d, fw.script, plan, addr, data, skip, n)
    ensures !threw ==> fw.dev == WriteRun(d, fw.script, plan, addr, data, skip, n + 1)
    ensures Reached(d.flash, fw.dev.flash, clean, addr, data, skip, done)
  {
    WriteRunStep(d, fw.script, plan, addr, data, skip, n);
    threw, done := ModifyChunk(fw, d.flash, clean, addr, data, skip, n, c);
  }

  method WriteTurns(fw: SpiFirmware, ghost addr: nat, data: seq<Byte>, skip: bool, startAddr: nat, numChunks: nat,
                    startOffset: nat, ghost plan: seq<Chunk>) returns (ok: bool, ghost done: nat)
    requires fw.Valid() && !fw.locked && PlanOk(plan, addr, |data|) && |plan| == numChunks && addr + |data| <= ROM_SIZE
    requires TurnsAre(plan, startAddr, startOffset, |data|)
    modifies fw`dev
    ensures fw.Valid()
    ensures ok ==> done == |data| && fw.dev == WriteRun(old(fw.dev), fw.script, plan, addr, data, skip, numChunks)
    ensures ok <==> forall n :: 0 <= n < numChunks ==> Passes(old(fw.dev), fw.script, plan, addr, data, skip, n)
    ensures Reached(old(fw.dev.flash), fw.dev.flash, NoRefusals(fw.script, numChunks), addr, data, skip, done)
  {
    ghost var d, clean := fw.dev, NoRefusals(fw.script, numChunks);
    assert Splice(d.flash, addr, data[..0]) == d.flash;
    done := 0;
    for n := 0 to numChunks
      invariant fw.Valid() && fw.dev == WriteRun(d, fw.script, plan, addr, data, skip, n)
      invariant done == Done(plan, n) && Reached(d.flash, fw.dev.flash, clean, addr, data, skip, done)
      invariant forall m :: 0 <= m < n ==> Passes(d, fw.script, plan, addr, data, skip, m)
    {
      assert TurnIs(plan, startAddr, startOffset, |data|, n);
      var c := ChunkAt(startAddr, n * CHUNK, startOffset, |data|);
      var threw;
      threw, done := WriteTurn(fw, d, clean, addr, data, skip, plan, n, c);
      if threw {
        return false, done;
      }
    }
    ok := true;
  }

  /** The write loop gets through: the dump address is there and no message the loop sends throws. */
  ghost predicate Completes(d: Device, s: Script, addr: nat, data: seq<Byte>, skip: bool)
    requires DeviceOk(d) && InRom(addr, |data|)
  {
    PlanIsOk(addr, |data|);
    && s.dumpAddr.Success?
    && forall n :: 0 <= n < NumChunks(addr, |data|) ==> Passes(d, s, Plan(addr, |data|), addr, data, skip, n)
  }

  method WriteChunks(fw: SpiFirmware, addr: nat, data: seq<Byte>, skip: bool) returns (ok: bool, ghost done: nat)
    requires fw.Valid() && !fw.locked && InRom(addr, |data|)
    modifies fw`dev
    ensures fw.Valid()
    ensures ok ==> done == |data| && Finished(old(fw.dev), fw.dev, fw.script, addr, data, skip)
    ensures ok <==> Completes(old(fw.dev), fw.script, addr, data, skip)
    ensures Reached(old(fw.dev.flash), fw.dev.flash, NoRefusals(fw.script, NumChunks(addr, |data|)),
                    addr, data, skip, done)
  {
    if !fw.script.dumpAddr.Success? {
      assert Splice(fw.dev.flash, addr, data[..0]) == fw.dev.flash;
      return false, 0;
    }
    var startAddr, numChunks, startOffset := GetAlignedParams(addr, |data|, CHUNK);
    ParamsGivePlan(addr, |data|, startAddr, numChunks, startOffset);
    ok, done := WriteTurns(fw, addr, data, skip, startAddr, numChunks, startOffset, Plan(addr, |data|));
  }

  /** Every message and lock step succeeds. */
  predicate AllSucceed(s: Script, n: nat) {
    && s.unlocks && s.relocks && s.dumpAddr.Success?
    && forall m :: 0 <= m < n ==> s.read(m).Success? && s.write(m).Success?
  }

  lemma SuccessCompletes(d: Device, s: Script, addr: nat, data: seq<Byte>, skip: bool)
    requires DeviceOk(d) && InRom(addr, |data|) && AllSucceed(s, NumChunks(addr, |data|))
    ensures Completes(d, s, addr, data, skip) && NoRefusals(s, NumChunks(addr, |data|))
  {
    PlanIsOk(addr, |data|);
  }

  /**
   A write is the run of its chunks, and with `skip` leaves the flash alone.  Unless a
   message is refused it changes exactly its slice, or a prefix of it if a message throws.
   It fails exactly if unlocking does, if the loop cannot complete, or if locking again does.
   Once it has started writing it always tries to lock again.
   */
  method Write(fw: SpiFirmware, messenger: bool, addr: nat, data: seq<Byte>, skip: bool) returns (r: WriteResult)
    requires fw.Valid() && addr + |data| <= ROM_SIZE
    modifies fw
    ensures fw.Valid()
    ensures r.WriteNoMessenger? <==> data != [] && !messenger
    ensures r.SetupFailed? <==> data != [] && messenger && !fw.script.unlocks
    ensures data != [] && messenger && fw.script.unlocks ==>
              r == if Completes(old(fw.dev), fw.script, addr, data, skip)
                   then (if fw.script.relocks then WriteOk else LockFailed)
                   else WriteFailed(fw.script.relocks)
    ensures messenger && AllSucceed(fw.script, NumChunks(addr, |data|)) && !skip ==>
              r.WriteOk? && fw.dev.flash == Splice(old(fw.dev.flash), addr, data)
    ensures data == [] ==> r.WriteOk? && fw.dev == old(fw.dev)
    ensures data != [] && (r.WriteOk? || r.LockFailed?) ==> Finished(old(fw.dev), fw.dev, fw.script, addr, data, skip)
    ensures skip || r.WriteNoMessenger? || r.SetupFailed? ==> fw.dev.flash == old(fw.dev.flash)
    ensures !skip && (r.WriteOk? || r.LockFailed?) && NoRefusals(fw.script, NumChunks(addr, |data|)) ==>
              fw.dev.flash == Splice(old(fw.dev.flash), addr, data)
    ensures !skip && r.WriteFailed? && NoRefusals(fw.script, NumChunks(addr, |data|)) ==>
              exists n :: WrotePrefix(old(fw.dev.flash), fw.dev.flash, addr, data, n)
    ensures fw.lockAttempts == old(fw.lockAttempts) +
              if data == [] || r.WriteNoMessenger? || r.SetupFailed? then 0 else 1
    ensures data != [] && (r.WriteOk? || r == WriteFailed(true)) ==> fw.locked
  {
    if data == [] {
      assert Splice(fw.dev.flash, addr, data) == fw.dev.flash;
      return WriteOk;
    }
    if !messenger {
      return WriteNoMessenger;
    }
    var unlocked := fw.SetLock(0);
    if !unlocked {
      return SetupFailed;
    }
    if AllSucceed(fw.script, NumChunks(addr, |data|)) {
      SuccessCompletes(fw.dev, fw.script, addr, data, skip);
    }
    ghost var n;
    var written;
    written, n := WriteChunks(fw, addr, data, skip);
    assert data[..|data|] == data;
    var relocked := fw.SetLock(LOCK_SECTIONS);
    if !written {
      return WriteFailed(relocked);
    }
    r := if relocked then WriteOk else LockFailed;
  }
}
