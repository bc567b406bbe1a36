/** The arena of host buffers mapped into the simulated device address space. */
module SysmemArena {
  import opened Wrappers
  import opened Modular

  /** A live mapping: device range and the host address of its first byte. */
  datatype Mapped = Mapped(addr: nat, va: nat, size: nat)

  /** `va` is rounded down to a page; `offset` is what was cut off. */
  datatype SysmemBuffer = SysmemBuffer(
    va: nat, offset: nat, size: nat, mappedSize: nat, ioAddr: nat, nocAddr: Option<nat>)

  function AlignUp(v: nat, page: nat): (r: nat)
    requires page > 0
    ensures v <= r < v + page
    ensures v % page == 0 ==> r == v
  {
    if v % page == 0 then v else v + page - v % page
  }

  /** Rounding up as the source does it, clearing the low bits of v + page - 1. */
  lemma AlignUpIsMultiple(v: nat, page: nat)
    requires page > 0
    ensures AlignUp(v, page) == ((v + page - 1) / page) * page && AlignUp(v, page) % page == 0
  {
    var q, m := v / page, v % page;
    assert v == q * page + m;
    if m == 0 {
      ModUnique(v + page - 1, page, q, page - 1);
    } else {
      assert v + page - 1 == (q + 1) * page + (m - 1);
      ModUnique(v + page - 1, page, q + 1, m - 1);
      ModUnique((q + 1) * page, page, q + 1, 0);
    }
  }

  lemma SumOfMultiples(a: nat, b: nat, page: nat)
    requires page > 0 && a % page == 0 && b % page == 0
    ensures (a + b) % page == 0
  {
    assert a + b == (a / page + b / page) * page;
    ModUnique(a + b, page, a / page + b / page, 0);
  }

  /** Where the next buffer goes, and where the arena continues after it. */
  function ArenaOffset(next: nat, page: nat): nat
    requires page > 0
  {
    AlignUp(next, page)
  }

  function NextOffset(next: nat, size: nat, page: nat): nat
    requires page > 0
  {
    ArenaOffset(next, page) + AlignUp(size, page)
  }

  /** The buffer mapped after an empty one, and only that, gets the same address. */
  lemma SameAddressIffEmpty(next: nat, size: nat, page: nat)
    requires page > 0
    ensures ArenaOffset(NextOffset(next, size, page), page) == ArenaOffset(next, page) <==> size == 0
  {
    AlignUpIsMultiple(next, page);
    AlignUpIsMultiple(size, page);
    SumOfMultiples(ArenaOffset(next, page), AlignUp(size, page), page);
    assert 0 % page == 0 by {
      ModUnique(0, page, 0, 0);
    }
  }

  function Extent(b: Mapped, page: nat): (e: nat)
    requires page > 0
    ensures e >= b.addr + b.size
  {
    b.addr + AlignUp(b.size, page)
  }

  /** Live buffers lie in order between two bounds, each on pages of its own. */
  ghost predicate Ordered(bs: seq<Mapped>, lo: nat, hi: nat, page: nat)
    requires page > 0
  {
    && (forall i :: 0 <= i < |bs| ==> lo <= bs[i].addr && Extent(bs[i], page) <= hi)
    && (forall i, j :: 0 <= i < j < |bs| ==> Extent(bs[i], page) <= bs[j].addr)
  }

  /** First live buffer that covers the range. */
  function Find(bs: seq<Mapped>, addr: nat, size: nat): Option<Mapped> {
    if bs == [] then None
    else if bs[0].addr <= addr && addr + size <= bs[0].addr + bs[0].size then Some(bs[0])
    else Find(bs[1..], addr, size)
  }

  /** The host byte behind a device address. */
  function HostPtr(bs: seq<Mapped>, addr: nat): Option<nat> {
    match Find(bs, addr, 1)
    case None => None
    case Some(b) => if addr >= b.addr then Some(b.va + (addr - b.addr)) else None
  }

  lemma {:induction false} FindCovers(bs: seq<Mapped>, addr: nat, size: nat)
    ensures match Find(bs, addr, size)
            case None => forall i :: 0 <= i < |bs| ==> !(bs[i].addr <= addr && addr + size <= bs[i].addr + bs[i].size)
            case Some(b) => b in bs && b.addr <= addr && addr + size <= b.addr + b.size
  {
    if bs != [] {
      FindCovers(bs[1..], addr, size);
      forall i | 0 < i < |bs|
        ensures bs[i] == bs[1..][i - 1]
      {
      }
    }
  }

  /** A nonempty range inside a live buffer finds that buffer. */
  lemma FindHitsOwner(bs: seq<Mapped>, lo: nat, hi: nat, page: nat, i: nat, o: nat, n: nat)
    requires page > 0 && Ordered(bs, lo, hi, page) && i < |bs| && n > 0 && o + n <= bs[i].size
    ensures Find(bs, bs[i].addr + o, n) == Some(bs[i])
  {
    FindCovers(bs, bs[i].addr + o, n);
    var b := Find(bs, bs[i].addr + o, n).value;
    var j :| 0 <= j < |bs| && bs[j] == b;
    assert j < i ==> Extent(bs[j], page) <= bs[i].addr;
    assert i < j ==> Extent(bs[i], page) <= bs[j].addr;
  }

  /** The unmap callback drops every entry with the buffer's address. */
  function Without(bs: seq<Mapped>, addr: nat): seq<Mapped> {
    if bs == [] then []
    else (if bs[0].addr == addr then [] else [bs[0]]) + Without(bs[1..], addr)
  }

  lemma {:induction false} WithoutAbsent(bs: seq<Mapped>, addr: nat)
    requires forall i :: 0 <= i < |bs| ==> bs[i].addr != addr
    ensures Without(bs, addr) == bs
  {
    if bs != [] {
      WithoutAbsent(bs[1..], addr);
    }
  }

  lemma {:induction false} WithoutKeeps(bs: seq<Mapped>, addr: nat, b: Mapped)
    ensures b in Without(bs, addr) <==> b in bs && b.addr != addr
  {
    if bs != [] {
      WithoutKeeps(bs[1..], addr, b);
      assert b in bs <==> b == bs[0] || b in bs[1..];
    }
  }

  lemma {:induction false} UnmapDropsOne(bs: seq<Mapped>, i: nat)
    requires i < |bs| && forall j :: 0 <= j < |bs| && j != i ==> bs[j].addr != bs[i].addr
    ensures Without(bs, bs[i].addr) == bs[..i] + bs[i + 1..]
  {
    var rest := bs[1..];
    if i == 0 {
      WithoutAbsent(rest, bs[i].addr);
    } else {
      UnmapDropsOne(rest, i - 1);
      assert bs[..i] == [bs[0]] + rest[..i - 1] && bs[i + 1..] == rest[i..];
    }
  }

  lemma {:induction false} WithoutOther(bs: seq<Mapped>, addr: nat, k: nat)
    requires k < |Without(bs, addr)|
    ensures Without(bs, addr)[k].addr != addr
  {
    if bs[0].addr == addr {
      WithoutOther(bs[1..], addr, k);
    } else if k > 0 {
      WithoutOther(bs[1..], addr, k - 1);
    }
  }

  lemma UnmapDropsTwo(bs: seq<Mapped>, i: nat, j: nat)
    requires i < |bs| && j < |bs| && j != i && bs[j].addr == bs[i].addr
    ensures Without(bs, bs[i].addr) != bs[..i] + bs[i + 1..]
  {
    var rest, k := bs[..i] + bs[i + 1..], if j < i then j else j - 1;
    assert rest[k] == bs[j];
    if k < |Without(bs, bs[i].addr)| {
      WithoutOther(bs, bs[i].addr, k);
    }
  }

  /** Unmapping drops exactly the buffer's own entry, if and only if no other entry has its address. */
  lemma UnmapDropsOneIff(bs: seq<Mapped>, i: nat)
    requires i < |bs|
    ensures Without(bs, bs[i].addr) == bs[..i] + bs[i + 1..] <==>
            forall j :: 0 <= j < |bs| && j != i ==> bs[j].addr != bs[i].addr
  {
    if forall j :: 0 <= j < |bs| && j != i ==> bs[j].addr != bs[i].addr {
      UnmapDropsOne(bs, i);
    } else {
      var j :| 0 <= j < |bs| && j != i && bs[j].addr == bs[i].addr;
      UnmapDropsTwo(bs, i, j);
    }
  }

  lemma {:induction false} WithoutSplit(bs: seq<Mapped>, i: nat, addr: nat)
    requires i <= |bs|
    ensures Without(bs, addr) == Without(bs[..i], addr) + Without(bs[i..], addr)
  {
    if i == 0 {
      assert bs[..0] == [] && bs[0..] == bs;
    } else {
      WithoutSplit(bs[1..], i - 1, addr);
      assert bs[..i] == [bs[0]] + bs[1..][..i - 1];
      assert bs[1..][i - 1..] == bs[i..];
    }
  }

  lemma WithoutSnoc(bs: seq<Mapped>, i: nat, addr: nat)
    requires i < |bs|
    ensures Without(bs[..i + 1], addr) == Without(bs[..i], addr) + if bs[i].addr == addr then [] else [bs[i]]
  {
    var front := bs[..i + 1];
    WithoutSplit(front, i, addr);
    assert front[..i] == bs[..i] && front[i..] == [bs[i]];
  }

  /** Live buffers that are not empty have addresses of their own. */
  lemma NonemptyAddressesDiffer(bs: seq<Mapped>, lo: nat, hi: nat, page: nat, i: nat, j: nat)
    requires page > 0 && Ordered(bs, lo, hi, page) && i < j < |bs| && bs[i].addr == bs[j].addr
    ensures bs[i].size == 0
  {
    assert Extent(bs[i], page) <= bs[j].addr;
  }

  /** All entries start at or after x. */
  ghost predicate StartAfter(bs: seq<Mapped>, x: nat) {
    forall i :: 0 <= i < |bs| ==> x <= bs[i].addr
  }

  /** The order, one entry at a time. */
  lemma OrderedCons(b: Mapped, rest: seq<Mapped>, lo: nat, hi: nat, page: nat)
    requires page > 0
    ensures Ordered([b] + rest, lo, hi, page) <==>
            lo <= b.addr && Extent(b, page) <= hi && StartAfter(rest, Extent(b, page)) && Ordered(rest, lo, hi, page)
  {
    var bs := [b] + rest;
    if Ordered(bs, lo, hi, page) {
      assert bs[0] == b && forall i :: 0 <= i < |rest| ==> bs[i + 1] == rest[i];
    }
  }

  lemma {:induction false} WithoutStartAfter(bs: seq<Mapped>, x: nat, addr: nat)
    requires StartAfter(bs, x)
    ensures StartAfter(Without(bs, addr), x)
  {
    if bs != [] {
      WithoutStartAfter(bs[1..], x, addr);
    }
  }

  lemma {:induction false} OrderedWithout(bs: seq<Mapped>, lo: nat, hi: nat, page: nat, addr: nat)
    requires page > 0 && Ordered(bs, lo, hi, page)
    ensures Ordered(Without(bs, addr), lo, hi, page)
  {
    if bs != [] {
      var rest := bs[1..];
      assert bs == [bs[0]] + rest;
      OrderedCons(bs[0], rest, lo, hi, page);
      OrderedWithout(rest, lo, hi, page, addr);
      WithoutStartAfter(rest, Extent(bs[0], page), addr);
      OrderedCons(bs[0], Without(rest, addr), lo, hi, page);
      assert bs[0].addr == addr ==> Without(bs, addr) == Without(rest, addr);
    }
  }

  /** The mapped bytes exist on the host. */
  ghost predicate InHost(bs: seq<Mapped>, length: nat) {
    forall i :: 0 <= i < |bs| ==> bs[i].va + bs[i].size <= length
  }

  lemma {:induction false} WithoutInHost(bs: seq<Mapped>, addr: nat, length: nat)
    requires InHost(bs, length)
    ensures InHost(Without(bs, addr), length)
  {
    if bs != [] {
      WithoutInHost(bs[1..], addr, length);
    }
  }

  lemma PageStart(va: nat, page: nat)
    requires page > 0
    ensures va % page <= va && (va - va % page) % page == 0
  {
    assert va == (va / page) * page + va % page;
    ModUnique(va - va % page, page, va / page, 0);
  }

  /** The buffer object of a mapping. */
  function BufferOf(m: Mapped, page: nat, noc: bool): (b: SysmemBuffer)
    requires page > 0
    ensures b.va + b.offset == m.va && b.va % page == 0 && b.offset < page
    ensures b.offset == 0 <==> m.va % page == 0
    ensures b.size == m.size && b.ioAddr == m.addr && b.nocAddr == (if noc then Some(m.addr) else None)
    ensures b.mappedSize % page == 0 && b.offset + b.size <= b.mappedSize < b.offset + b.size + page
  {
    PageStart(m.va, page);
    AlignUpIsMultiple(m.size + m.va % page, page);
    SysmemBuffer(m.va - m.va % page, m.va % page, m.size, AlignUp(m.size + m.va % page, page), m.addr,
                 if noc then Some(m.addr) else None)
  }

  /** None where the offset is refused. */
  function GetDeviceIoAddr(b: SysmemBuffer, offset: nat): Option<nat> {
    if offset >= b.size then None else Some(b.ioAddr + offset + b.offset)
  }

  function GetBufferVa(b: SysmemBuffer): nat {
    b.va + b.offset
  }

  /** Every in-range device address of the buffer leads to the right host byte. */
  ghost predicate Resolves(bs: seq<Mapped>, b: SysmemBuffer) {
    forall o :: 0 <= o < b.size ==>
      GetDeviceIoAddr(b, o).Some? && HostPtr(bs, GetDeviceIoAddr(b, o).value) == Some(GetBufferVa(b) + o)
  }

  lemma WholePage(size: nat, page: nat)
    requires page > 0 && size > 0
    ensures AlignUp(size, page) >= page
  {
    AlignUpIsMultiple(size, page);
    MultipleIsFar((size + page - 1) / page, page);
  }

  /** The first page of a nonempty buffer belongs to no other buffer. */
  lemma OthersMiss(bs: seq<Mapped>, lo: nat, hi: nat, page: nat, i: nat, j: nat, shift: nat)
    requires page > 0 && Ordered(bs, lo, hi, page) && i < |bs| && j < |bs| && i != j && bs[i].size > 0 && shift < page
    ensures !(bs[j].addr <= bs[i].addr + shift < bs[j].addr + bs[j].size)
  {
    WholePage(bs[i].size, page);
    if j < i {
      assert Extent(bs[j], page) <= bs[i].addr;
    } else {
      assert Extent(bs[i], page) <= bs[j].addr;
    }
  }

  /** A shift within the page stays on the buffer's own pages, and so on its own bytes or on none. */
  lemma ShiftedMisses(bs: seq<Mapped>, lo: nat, hi: nat, page: nat, i: nat, shift: nat)
    requires page > 0 && Ordered(bs, lo, hi, page) && i < |bs| && bs[i].size > 0 && 0 < shift < page
    ensures HostPtr(bs, bs[i].addr + shift) != Some(bs[i].va)
  {
    var addr := bs[i].addr + shift;
    FindCovers(bs, addr, 1);
    forall j | 0 <= j < |bs| && j != i
      ensures !(bs[j].addr <= addr && addr + 1 <= bs[j].addr + bs[j].size)
    {
      OthersMiss(bs, lo, hi, page, i, j, shift);
    }
  }

  /** A live buffer resolves to its own bytes exactly if it is empty or starts on a page. */
  lemma ResolvesIffAligned(bs: seq<Mapped>, lo: nat, hi: nat, page: nat, i: nat, noc: bool)
    requires page > 0 && Ordered(bs, lo, hi, page) && i < |bs|
    ensures Resolves(bs, BufferOf(bs[i], page, noc)) <==> bs[i].size == 0 || bs[i].va % page == 0
  {
    var b := BufferOf(bs[i], page, noc);
    if b.offset == 0 {
      forall o: nat | GetDeviceIoAddr(b, o).Some?
        ensures HostPtr(bs, GetDeviceIoAddr(b, o).value) == Some(GetBufferVa(b) + o)
      {
        FindHitsOwner(bs, lo, hi, page, i, o, 1);
      }
    } else if b.size > 0 {
      ShiftedMisses(bs, lo, hi, page, i, b.offset);
      assert GetDeviceIoAddr(b, 0) == Some(bs[i].addr + b.offset);
    }
  }

  /** Where an access through an aligned buffer lands. */
  lemma AlignedTarget(bs: seq<Mapped>, lo: nat, hi: nat, page: nat, i: nat, noc: bool, offset: nat, n: nat)
    requires page > 0 && Ordered(bs, lo, hi, page) && i < |bs| && bs[i].va % page == 0
    requires n > 0 && offset + n <= bs[i].size
    ensures var b := BufferOf(bs[i], page, noc);
            && GetBufferVa(b) == bs[i].va && GetDeviceIoAddr(b, offset) == Some(bs[i].addr + offset)
            && Find(bs, bs[i].addr + offset, n) == Some(bs[i])
  {
    FindHitsOwner(bs, lo, hi, page, i, offset, n);
  }
}
