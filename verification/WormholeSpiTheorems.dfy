/** When chunked flash access does what it promises: exactly when no chunk message is refused. */
module WormholeSpiTheorems {
  import opened Bytes
  import opened WormholeChunks
  import opened WormholeSpi

  predicate NoThrows(s: Script, n: nat) {
    forall m :: 0 <= m < n ==> !s.read(m).Threw? && !s.write(m).Threw?
  }

  /** A finished read returns the flash slice. */
  ghost predicate ReadsRight(d: Device, s: Script, addr: nat, size: nat)
    requires DeviceOk(d) && InRom(addr, size)
  {
    PlanIsOk(addr, size);
    Delivered(d, s, Plan(addr, size), addr, size, NumChunks(addr, size)) == d.flash[addr..addr + size]
  }

  /** If no SPI_READ of the first n chunks is refused, they deliver the flash. */
  lemma {:induction false} CarriedReadsDeliver(d: Device, s: Script, plan: seq<Chunk>, addr: nat, size: nat, n: nat)
    requires DeviceOk(d) && PlanOk(plan, addr, size) && n <= |plan| && addr + size <= ROM_SIZE
    requires forall m :: 0 <= m < n ==> Carried(s.read(m))
    ensures Done(plan, n) <= size && Delivered(d, s, plan, addr, size, n) == d.flash[addr..addr + Done(plan, n)]
  {
    if n > 0 {
      CarriedReadsDeliver(d, s, plan, addr, size, n - 1);
      assert Follows(plan, addr, size, n - 1);
      var c := plan[n - 1];
      SliceJoins(d.flash, addr, addr + c.from, addr + c.from + c.count);
      SliceOfSlice(d.flash, c.addr, c.addr + CHUNK, c.at, c.at + c.count);
    }
  }

  /** The first byte of the k-th piece, as delivered by n > k turns. */
  lemma {:induction false} DeliveredAt(d: Device, s: Script, plan: seq<Chunk>, addr: nat, size: nat, k: nat, n: nat)
    requires DeviceOk(d) && PlanOk(plan, addr, size) && k < n <= |plan|
    ensures ChunkOk(plan[k], addr, size) && plan[k].from < Done(plan, n)
    ensures Delivered(d, s, plan, addr, size, n)[plan[k].from] ==
            ReadRun(d, s, plan, addr, size, k + 1).dump[plan[k].at]
  {
    assert Follows(plan, addr, size, k) && Follows(plan, addr, size, n - 1);
    if k < n - 1 {
      DeliveredAt(d, s, plan, addr, size, k, n - 1);
    }
  }

  predicate Misses(chunkAddr: nat, x: nat) {
    x < chunkAddr || chunkAddr + CHUNK <= x
  }

  /** Chunks other than the k-th do not cover the first byte of the k-th piece. */
  ghost predicate OthersMiss(plan: seq<Chunk>, k: nat, x: nat)
    requires k < |plan|
  {
    x == plan[k].addr + plan[k].at && forall m :: 0 <= m < |plan| && m != k ==> Misses(plan[m].addr, x)
  }

  lemma PlanOthersMiss(addr: nat, size: nat, k: nat)
    requires InRom(addr, size) && k < NumChunks(addr, size) && PlanOk(Plan(addr, size), addr, size)
    ensures OthersMiss(Plan(addr, size), k, Plan(addr, size)[k].addr + Plan(addr, size)[k].at)
  {
    var plan := Plan(addr, size);
    forall m | 0 <= m < |plan| && m != k
      ensures Misses(plan[m].addr, plan[k].addr + plan[k].at)
    {
      assert Follows(plan, addr, size, m) && Follows(plan, addr, size, k);
      if m < k {
        ChunksApart(addr, size, m, k);
      } else {
        ChunksApart(addr, size, k, m);
      }
    }
  }

  ghost predicate AllZero(bytes: seq<Byte>) {
    forall i :: 0 <= i < |bytes| ==> bytes[i] == 0
  }

  ghost predicate ZeroExcept(flash: seq<Byte>, x: nat) {
    forall i :: 0 <= i < |flash| && i != x ==> flash[i] == 0
  }

  lemma ZeroWindow(flash: seq<Byte>, x: nat, chunkAddr: nat)
    requires ZeroExcept(flash, x) && chunkAddr + CHUNK <= |flash|
    ensures Misses(chunkAddr, x) ==> AllZero(flash[chunkAddr..chunkAddr + CHUNK])
  {
  }

  /**
   If the message of the k-th chunk is refused, a byte that only that chunk covers never gets
   into the dump buffer.
   */
  lemma {:induction false} RefusedChunkIsMissed(
    d: Device, s: Script, plan: seq<Chunk>, addr: nat, size: nat, k: nat, n: nat, x: nat)
    requires DeviceOk(d) && PlanOk(plan, addr, size) && k < |plan| && n <= |plan| && s.read(k).Refused?
    requires OthersMiss(plan, k, x) && ZeroExcept(d.flash, x) && AllZero(d.dump)
    ensures AllZero(ReadRun(d, s, plan, addr, size, n).dump)
  {
    if n > 0 {
      RefusedChunkIsMissed(d, s, plan, addr, size, k, n - 1, x);
      assert Follows(plan, addr, size, n - 1);
      ZeroWindow(d.flash, x, plan[n - 1].addr);
    }
  }

  lemma MissedByte(d: Device, s: Script, plan: seq<Chunk>, addr: nat, size: nat, k: nat, x: nat)
    requires DeviceOk(d) && PlanOk(plan, addr, size) && k < |plan| && s.read(k).Refused?
    requires OthersMiss(plan, k, x) && ZeroExcept(d.flash, x) && AllZero(d.dump)
    ensures plan[k].from < |Delivered(d, s, plan, addr, size, |plan|)|
    ensures Delivered(d, s, plan, addr, size, |plan|)[plan[k].from] == 0
  {
    RefusedChunkIsMissed(d, s, plan, addr, size, k, k + 1, x);
    DeliveredAt(d, s, plan, addr, size, k, |plan|);
  }

  lemma RefusedReadIsWrong(s: Script, addr: nat, size: nat, k: nat) returns (d: Device)
    requires InRom(addr, size) && k < NumChunks(addr, size) && s.read(k).Refused?
    ensures DeviceOk(d) && !ReadsRight(d, s, addr, size)
  {
    var plan := Plan(addr, size);
    PlanIsOk(addr, size);
    PlanOthersMiss(addr, size, k);
    assert Follows(plan, addr, size, k);
    var x := plan[k].addr + plan[k].at;
    d := Device(Splice(Zeros(ROM_SIZE), x, [1]), Zeros(CHUNK), 0);
    MissedByte(d, s, plan, addr, size, k, x);
    assert d.flash[addr..addr + size][plan[k].from] == 1;
  }

  ghost predicate AlwaysReadsRight(s: Script, addr: nat, size: nat)
    requires InRom(addr, size)
  {
    forall d :: DeviceOk(d) ==> ReadsRight(d, s, addr, size)
  }

  lemma UnrefusedReadsAreRight(s: Script, addr: nat, size: nat)
    requires InRom(addr, size) && forall m :: 0 <= m < NumChunks(addr, size) ==> Carried(s.read(m))
    ensures AlwaysReadsRight(s, addr, size)
  {
    PlanIsOk(addr, size);
    forall d | DeviceOk(d)
      ensures ReadsRight(d, s, addr, size)
    {
      CarriedReadsDeliver(d, s, Plan(addr, size), addr, size, NumChunks(addr, size));
    }
  }

  /** Where nothing throws, a read returns the flash slice on every device exactly if no SPI_READ is refused. */
  lemma ReadsRightIffNotRefused(s: Script, addr: nat, size: nat)
    requires InRom(addr, size) && NoThrows(s, NumChunks(addr, size))
    ensures AlwaysReadsRight(s, addr, size) <==> NoReadRefused(s, NumChunks(addr, size))
  {
    if NoReadRefused(s, NumChunks(addr, size)) {
      UnrefusedReadsAreRight(s, addr, size);
    } else {
      var k :| 0 <= k < NumChunks(addr, size) && s.read(k).Refused?;
      var d := RefusedReadIsWrong(s, addr, size, k);
    }
  }

  /** A finished write has changed exactly its slice. */
  ghost predicate WritesRight(d: Device, s: Script, addr: nat, data: seq<Byte>)
    requires DeviceOk(d) && InRom(addr, |data|)
  {
    PlanIsOk(addr, |data|);
    WriteRun(d, s, Plan(addr, |data|), addr, data, false, NumChunks(addr, |data|)).flash == Splice(d.flash, addr, data)
  }

  lemma CarriedStep(flash0: seq<Byte>, d: Device, addr: nat, data: seq<Byte>, c: Chunk, r: Reply, w: Reply)
    requires DeviceOk(d) && ChunkOk(c, addr, |data|) && |flash0| == ROM_SIZE && addr + |data| <= ROM_SIZE
    requires WrotePrefix(flash0, d.flash, addr, data, c.from) && Carried(r) && Carried(w)
    ensures WrotePrefix(flash0, Step(d, c, data, false, r, w).flash, addr, data, c.from + c.count)
  {
    CarriedTurn(d, c.addr, c.at, data[c.from..c.from + c.count], r, w);
    CleanTurn(flash0, d.flash, Step(d, c, data, false, r, w).flash, addr, data, c, w);
  }

  /** The first n turns have written their pieces. */
  ghost predicate WritesPrefix(d: Device, s: Script, plan: seq<Chunk>, addr: nat, data: seq<Byte>, n: nat)
    requires DeviceOk(d) && PlanOk(plan, addr, |data|) && n <= |plan|
  {
    WrotePrefix(d.flash, WriteRun(d, s, plan, addr, data, false, n).flash, addr, data, Done(plan, n))
  }

  lemma CarriedWriteGrows(d: Device, s: Script, plan: seq<Chunk>, addr: nat, data: seq<Byte>, n: nat)
    requires DeviceOk(d) && PlanOk(plan, addr, |data|) && n < |plan| && addr + |data| <= ROM_SIZE
    requires Carried(s.read(n)) && Carried(s.write(n)) && WritesPrefix(d, s, plan, addr, data, n)
    ensures WritesPrefix(d, s, plan, addr, data, n + 1)
  {
    WriteRunStep(d, s, plan, addr, data, false, n);
    var d' := WriteRun(d, s, plan, addr, data, false, n);
    CarriedStep(d.flash, d', addr, data, plan[n], s.read(n), s.write(n));
  }

  lemma {:induction false} CarriedWritesArePrefix(
    d: Device, s: Script, plan: seq<Chunk>, addr: nat, data: seq<Byte>, n: nat)
    requires DeviceOk(d) && PlanOk(plan, addr, |data|) && n <= |plan| && addr + |data| <= ROM_SIZE
    requires forall m :: 0 <= m < n ==> Carried(s.read(m)) && Carried(s.write(m))
    ensures WritesPrefix(d, s, plan, addr, data, n)
  {
    if n == 0 {
      assert Splice(d.flash, addr, data[..0]) == d.flash;
    } else {
      CarriedWritesArePrefix(d, s, plan, addr, data, n - 1);
      CarriedWriteGrows(d, s, plan, addr, data, n - 1);
    }
  }

  /** A store to another chunk leaves x alone. */
  lemma TurnSpares(d: Device, chunkAddr: nat, at: nat, part: seq<Byte>, r: Reply, w: Reply, x: nat)
    requires DeviceOk(d) && chunkAddr + CHUNK <= ROM_SIZE && at + |part| <= CHUNK && x < ROM_SIZE
    requires !Carried(w) || Misses(if Carried(r) then chunkAddr else d.lastRead, x)
    ensures var d' := Turn(d, chunkAddr, at, part, false, r, w);
            d'.flash[x] == d.flash[x] && d'.lastRead == if Carried(r) then chunkAddr else d.lastRead
  {
  }

  /** A message of the chunk that covers x is refused. */
  predicate Spoilt(s: Script, n: nat, k: nat) {
    s.read(k).Refused? || (s.write(k).Refused? && forall m :: 0 <= m < n ==> Carried(s.read(m)))
  }

  /** A byte that only the k-th chunk covers keeps its value if a message of that chunk is refused. */
  lemma {:induction false} RefusedChunkStays(
    d: Device, s: Script, plan: seq<Chunk>, addr: nat, data: seq<Byte>, k: nat, n: nat, x: nat)
    requires DeviceOk(d) && PlanOk(plan, addr, |data|) && k < |plan| && n <= |plan| && x < ROM_SIZE
    requires Misses(d.lastRead, x) && OthersMiss(plan, k, x)
    requires Spoilt(s, |plan|, k)
    ensures WriteRun(d, s, plan, addr, data, false, n).flash[x] == d.flash[x]
    ensures s.read(k).Refused? ==> Misses(WriteRun(d, s, plan, addr, data, false, n).lastRead, x)
  {
    if n > 0 {
      RefusedChunkStays(d, s, plan, addr, data, k, n - 1, x);
      WriteRunStep(d, s, plan, addr, data, false, n - 1);
      var c, before := plan[n - 1], WriteRun(d, s, plan, addr, data, false, n - 1);
      assert Carried(s.read(n - 1)) && Carried(s.write(n - 1)) ==> n - 1 != k && Misses(c.addr, x);
      TurnSpares(before, c.addr, c.at, data[c.from..c.from + c.count], s.read(n - 1), s.write(n - 1), x);
    }
  }

  /** Some device and data on which a refused message spoils the write. */
  lemma RefusedWriteIsWrong(s: Script, addr: nat, size: nat, k: nat) returns (d: Device, data: seq<Byte>)
    requires InRom(addr, size) && k < NumChunks(addr, size)
    requires Spoilt(s, NumChunks(addr, size), k)
    ensures DeviceOk(d) && |data| == size && !WritesRight(d, s, addr, data)
  {
    var plan := Plan(addr, size);
    PlanIsOk(addr, size);
    assert Follows(plan, addr, size, k);
    var x := plan[k].addr + plan[k].at;
    data := seq(size, i => 1);
    d := Device(Zeros(ROM_SIZE), Zeros(CHUNK), if x < CHUNK then CHUNK else 0);
    PlanOthersMiss(addr, size, k);
    RefusedChunkStays(d, s, plan, addr, data, k, |plan|, x);
    assert Splice(d.flash, addr, data)[x] == data[x - addr] == 1;
  }

  ghost predicate AlwaysWritesRight(s: Script, addr: nat, size: nat)
    requires InRom(addr, size)
  {
    forall d, data: seq<Byte> :: DeviceOk(d) && |data| == size ==> WritesRight(d, s, addr, data)
  }

  /** Where nothing throws, a write changes exactly its slice on every device exactly if no chunk message is refused. */
  lemma WritesRightIffNotRefused(s: Script, addr: nat, size: nat)
    requires InRom(addr, size) && NoThrows(s, NumChunks(addr, size))
    ensures AlwaysWritesRight(s, addr, size) <==> NoRefusals(s, NumChunks(addr, size))
  {
    var count := NumChunks(addr, size);
    PlanIsOk(addr, size);
    if NoRefusals(s, count) {
      forall d, data: seq<Byte> | DeviceOk(d) && |data| == size
        ensures WritesRight(d, s, addr, data)
      {
        CarriedWritesArePrefix(d, s, Plan(addr, size), addr, data, count);
        assert data[..size] == data;
      }
    } else {
      var k :| 0 <= k < count && (s.read(k).Refused? || s.write(k).Refused?);
      if !NoReadRefused(s, count) {
        k :| 0 <= k < count && s.read(k).Refused?;
      }
      var d, data := RefusedWriteIsWrong(s, addr, size, k);
      assert !WritesRight(d, s, addr, data);
    }
  }

  lemma StoredElsewhere(flash: seq<Byte>, lastRead: nat, buf: seq<Byte>, chunkAddr: nat, at: nat, count: nat)
    requires |buf| == CHUNK && lastRead + CHUNK <= |flash| && chunkAddr + CHUNK <= |flash| && at + count <= CHUNK
    requires lastRead + CHUNK <= chunkAddr || chunkAddr + CHUNK <= lastRead
    ensures Splice(flash, lastRead, buf)[chunkAddr..chunkAddr + CHUNK] == flash[chunkAddr..chunkAddr + CHUNK]
    ensures Splice(flash, lastRead, buf)[lastRead + at..lastRead + at + count] == buf[at..at + count]
  {
  }

  /**
   A refused SPI_READ followed by an accepted SPI_WRITE: the stale dump buffer, modified,
   goes to the chunk that was read before, and the requested bytes keep their old values.
   */
  lemma RefusedReadWritesElsewhere(d: Device, chunkAddr: nat, at: nat, part: seq<Byte>, r: Reply, w: Reply)
    requires DeviceOk(d) && chunkAddr + CHUNK <= ROM_SIZE && at + |part| <= CHUNK
    requires r.Refused? && w.Success? && d.dump[at..at + |part|] != part
    requires d.lastRead + CHUNK <= chunkAddr || chunkAddr + CHUNK <= d.lastRead
    ensures var flash := Turn(d, chunkAddr, at, part, false, r, w).flash;
            && flash == Splice(d.flash, d.lastRead, Splice(d.dump, at, part))
            && flash[chunkAddr..chunkAddr + CHUNK] == d.flash[chunkAddr..chunkAddr + CHUNK]
            && flash[d.lastRead + at..d.lastRead + at + |part|] == part
  {
    var buf := Splice(d.dump, at, part);
    assert buf[at..at + |part|] == part;
    StoredElsewhere(d.flash, d.lastRead, buf, chunkAddr, at, |part|);
  }
}
