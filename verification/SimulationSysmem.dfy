/** Mapping, unmapping and accessing host buffers of a simulated device. */
module SimulationSysmem {
  import opened Wrappers
  import opened Bytes
  import opened SysmemArena

  class SimulationSysmemManager {
    const pcieBase: nat
    const channelBytes: nat
    const page: nat
    const host: array<Byte>
    var nextArenaOffset: nat
    var buffers: seq<Mapped>

    /** Live device ranges are disjoint, behind the channels, and stand for memory of the host. */
    ghost predicate Valid()
      reads this
    {
      && page > 0 && channelBytes <= nextArenaOffset
      && Ordered(buffers, pcieBase + channelBytes, pcieBase + nextArenaOffset, page)
      && InHost(buffers, host.Length)
    }

    /** The arena starts behind the hugepage channels. */
    constructor (pcieBase: nat, channelBytes: nat, page: nat, host: array<Byte>)
      requires page > 0
      ensures Valid() && buffers == [] && this.host == host && this.page == page
      ensures this.pcieBase == pcieBase && this.channelBytes == channelBytes
    {
      this.pcieBase, this.channelBytes, this.page, this.host := pcieBase, channelBytes, page, host;
      nextArenaOffset, buffers := channelBytes, [];
    }

    method MapSysmemBuffer(va: nat, size: nat, mapToNoc: bool) returns (b: SysmemBuffer)
      requires Valid() && va + size <= host.Length
      modifies this
      ensures Valid() && |buffers| == |old(buffers)| + 1 && buffers[..|old(buffers)|] == old(buffers)
      ensures buffers[|old(buffers)|] == Mapped(b.ioAddr, va, size)
      ensures b == BufferOf(Mapped(b.ioAddr, va, size), page, mapToNoc)
      ensures b.ioAddr == pcieBase + ArenaOffset(old(nextArenaOffset), page) >= pcieBase + old(nextArenaOffset)
      ensures nextArenaOffset == NextOffset(old(nextArenaOffset), size, page)
      ensures b.nocAddr == if mapToNoc then Some(b.ioAddr) else None
    {
      var mappedSize := AlignUp(size, page);
      var arenaOffset := AlignUp(nextArenaOffset, page);
      nextArenaOffset := arenaOffset + mappedSize;
      var entry := Mapped(pcieBase + arenaOffset, va, size);
      buffers := buffers + [entry];
      b := BufferOf(entry, page, mapToNoc);
    }

    /** The callback that a buffer runs when it is destroyed. */
    method Unmap(addr: nat)
      requires Valid()
      modifies this`buffers
      ensures Valid() && buffers == Without(old(buffers), addr)
    {
      OrderedWithout(buffers, pcieBase + channelBytes, pcieBase + nextArenaOffset, page, addr);
      var bs, kept := buffers, [];
      for i := 0 to |bs|
        invariant kept == Without(bs[..i], addr)
      {
        WithoutSnoc(bs, i, addr);
        if bs[i].addr != addr {
          kept := kept + [bs[i]];
        }
      }
      assert bs[..|bs|] == bs;
      WithoutInHost(bs, addr, host.Length);
      buffers := kept;
    }

    method FindMappedBuffer(addr: nat, size: nat) returns (r: Option<Mapped>)
      ensures r == Find(buffers, addr, size)
    {
      var i := 0;
      while i < |buffers|
        invariant i <= |buffers| && Find(buffers, addr, size) == Find(buffers[i..], addr, size)
      {
        if buffers[i].addr <= addr && addr + size <= buffers[i].addr + buffers[i].size {
          return Some(buffers[i]);
        }
        i := i + 1;
      }
      r := None;
    }

    method WriteMappedBuffer(addr: nat, src: seq<Byte>) returns (ok: bool)
      requires Valid()
      modifies host
      ensures Valid() && ok == Find(buffers, addr, |src|).Some?
      ensures !ok ==> host[..] == old(host[..])
      ensures ok ==>
                var b := Find(buffers, addr, |src|).value;
                && b.addr <= addr && b.va + (addr - b.addr) + |src| <= host.Length
                && host[..] == Splice(old(host[..]), b.va + (addr - b.addr), src)
    {
      var found := FindMappedBuffer(addr, |src|);
      if found.None? {
        return false;
      }
      FindCovers(buffers, addr, |src|);
      var start := found.value.va + (addr - found.value.addr);
      for i := 0 to |src|
        invariant forall k :: 0 <= k < host.Length ==>
                    host[k] == if start <= k < start + i then src[k - start] else old(host[k])
      {
        host[start + i] := src[i];
      }
      ok := true;
    }

    method ReadMappedBuffer(addr: nat, size: nat) returns (r: Option<seq<Byte>>)
      requires Valid()
      ensures r.Some? <==> Find(buffers, addr, size).Some?
      ensures r.Some? ==>
                var b := Find(buffers, addr, size).value;
                && b.addr <= addr && b.va + (addr - b.addr) + size <= host.Length
                && r.value == host[b.va + (addr - b.addr)..b.va + (addr - b.addr) + size]
    {
      var found := FindMappedBuffer(addr, size);
      if found.None? {
        return None;
      }
      FindCovers(buffers, addr, size);
      var start := found.value.va + (addr - found.value.addr);
      r := Some(host[start..start + size]);
    }

    method GetMappedHostPtr(addr: nat) returns (r: Option<nat>)
      requires Valid()
      ensures r == HostPtr(buffers, addr)
      ensures r.Some? ==> r.value < host.Length
    {
      var found := FindMappedBuffer(addr, 1);
      if found.None? {
        return None;
      }
      FindCovers(buffers, addr, 1);
      r := Some(found.value.va + (addr - found.value.addr));
    }
  }

  /** A page-aligned buffer, written through its device addresses, holds the data at the offset written. */
  method WriteThroughDevice(m: SimulationSysmemManager, ghost i: nat, b: SysmemBuffer, offset: nat, src: seq<Byte>)
    requires m.Valid() && i < |m.buffers| && b == BufferOf(m.buffers[i], m.page, b.nocAddr.Some?)
    requires m.buffers[i].va % m.page == 0 && src != [] && offset + |src| <= b.size
    modifies m.host
    ensures GetBufferVa(b) + b.size <= m.host.Length
    ensures m.host[..] == Splice(old(m.host[..]), GetBufferVa(b) + offset, src)
  {
    AlignedTarget(m.buffers, m.pcieBase + m.channelBytes, m.pcieBase + m.nextArenaOffset, m.page, i, b.nocAddr.Some?,
                  offset, |src|);
    var addr := GetDeviceIoAddr(b, offset);
    var _ := m.WriteMappedBuffer(addr.value, src);
  }
}
