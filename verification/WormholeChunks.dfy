/** Which chunks a flash range touches, and which bytes of each belong to the range. */
module WormholeChunks {
  import opened Modular
  import opened Bytes

  const CHUNK := 0x1000
  const ROM_SIZE := 0x100_0000
  const U32_RANGE := 0x1_0000_0000

  function U32(x: int): (r: nat)
    ensures 0 <= x < U32_RANGE ==> r == x
  {
    x % U32_RANGE
  }

  /** The multiple of c at or below x. */
  method RoundDown(x: nat, c: nat) returns (b: nat)
    requires c > 0
    ensures b <= x < b + c && b % c == 0
  {
    assert x == (x / c) * c + x % c;
    ModUnique((x / c) * c, c, x / c, 0);
    b := (x / c) * c;
  }

  /** The difference of two multiples divides evenly. */
  method Divide(span: nat, c: nat) returns (n: nat)
    requires c > 0
    ensures forall a: nat, b: nat :: a % c == 0 && b % c == 0 && span == b - a ==> n * c == span
  {
    n := span / c;
    forall a: nat, b: nat | a % c == 0 && b % c == 0 && span == b - a
      ensures n * c == span
    {
      assert span == (b / c - a / c) * c;
      ModUnique(span, c, b / c - a / c, 0);
    }
  }

  /** Multiples of c are closed under addition and scaling. */
  lemma MultiplesCombine(a: int, b: int, k: int, c: nat)
    requires c > 0 && a % c == 0 && b % c == 0
    ensures (a + k * b) % c == 0
  {
    var p, q := a / c, b / c;
    assert a == p * c && b == q * c;
    assert a + k * b == (p + k * q) * c by {
      assert k * (q * c) == (k * q) * c;
    }
    ModUnique(a + k * b, c, p + k * q, 0);
  }

  /** Two multiples of c less than c apart are equal. */
  lemma CloseMultiples(a: int, b: int, c: int)
    requires c > 0 && a % c == 0 && b % c == 0 && -c < a - b < c
    ensures a == b
  {
    assert a - b == (a / c - b / c) * c;
    MultipleIsFar(a / c - b / c, c);
  }

  lemma U32Shift(x: int, k: int)
    ensures U32(x + k * U32_RANGE) == U32(x)
  {
  }

  /** Where the 32-bit sum wraps, the span from the start is still that of the cover, modulo the range. */
  lemma WrappedSpan(addr: nat, numBytes: nat, c: nat, start: nat, high: nat, t: nat)
    requires c > 0 && U32_RANGE % c == 0 && start % c == 0 && high % c == 0 && t % c == 0
    requires high <= U32(addr + numBytes + c - 1) < high + c
    requires addr + numBytes <= start + t < addr + numBytes + c
    ensures U32(high - start) == U32(t) && U32(t) % c == 0
  {
    var sum := addr + numBytes + c - 1;
    var k := -(sum / U32_RANGE);
    assert U32(sum) == sum + k * U32_RANGE;
    MultiplesCombine(start, t, 1, c);
    MultiplesCombine(start + t, U32_RANGE, k, c);
    CloseMultiples(high, start + t + k * U32_RANGE, c);
    U32Shift(t, k);
    MultiplesCombine(t, U32_RANGE, -(t / U32_RANGE), c);
  }

  /** Whole chunks from `startAddr` on that reach just past the range. */
  predicate IsCover(addr: nat, numBytes: nat, chunkSize: nat, startAddr: nat, cover: nat)
    requires chunkSize > 0
  {
    cover % chunkSize == 0 && addr + numBytes <= startAddr + cover < addr + numBytes + chunkSize
  }

  /**
   The chunks that cover a range: from the boundary at or below it to the one at or above.
   For chunk sizes that divide the 32-bit range the wrap-around of the sum cancels out, and
   only the size of the cover itself is taken modulo that range.
   */
  method GetAlignedParams(addr: nat, numBytes: nat, chunkSize: nat)
    returns (startAddr: nat, numChunks: nat, startOffset: nat)
    requires chunkSize > 0 && addr < U32_RANGE
    ensures startAddr % chunkSize == 0 && startAddr <= addr < startAddr + chunkSize && startOffset == addr - startAddr
    ensures addr + numBytes + chunkSize <= U32_RANGE ==>
              addr + numBytes <= startAddr + numChunks * chunkSize < addr + numBytes + chunkSize
    ensures U32_RANGE % chunkSize == 0 ==>
              forall cover: nat :: IsCover(addr, numBytes, chunkSize, startAddr, cover) ==>
                  numChunks * chunkSize == U32(cover)
  {
    var low := RoundDown(addr, chunkSize);
    startAddr := U32(low);
    var high := RoundDown(U32(addr + numBytes + chunkSize - 1), chunkSize);
    var endAddr := U32(high);
    var span := U32(endAddr - startAddr);
    numChunks := Divide(span, chunkSize);
    startOffset := U32(addr - startAddr);
    forall cover: nat | IsCover(addr, numBytes, chunkSize, startAddr, cover) && U32_RANGE % chunkSize == 0
      ensures numChunks * chunkSize == U32(cover)
    {
      WrappedSpan(addr, numBytes, chunkSize, startAddr, high, cover);
      assert 0 % chunkSize == 0 by {
        ModUnique(0, chunkSize, 0, 0);
      }
    }
  }

  /** A chunk's address, the place of its piece in the chunk and in the request, and the piece's length. */
  datatype Chunk = Chunk(addr: nat, at: nat, from: nat, count: nat)

  /** How many of the requested bytes lie in the first `offset` bytes of the covering chunks. */
  function Progress(offset: nat, startOffset: nat, size: nat): (n: nat)
    ensures n <= size
  {
    if offset <= startOffset then 0 else Min(offset - startOffset, size)
  }

  /** A turn of either loop: the chunk at `offset` and its piece. */
  function ChunkAt(startAddr: nat, offset: nat, startOffset: nat, size: nat): (c: Chunk)
    requires startOffset < CHUNK && Progress(offset, startOffset, size) < size
    requires offset < startOffset ==> offset == 0
    ensures c.from == Progress(offset, startOffset, size)
    ensures c.from + c.count == Progress(offset + CHUNK, startOffset, size) && c.count > 0
    ensures c.at + c.count <= CHUNK && offset + c.at == startOffset + c.from && c.addr == startAddr + offset
  {
    if offset < startOffset then
      var skip := startOffset - offset;
      Chunk(startAddr + offset, skip, 0, Min(CHUNK - skip, size))
    else
      Chunk(startAddr + offset, 0, offset - startOffset, Min(CHUNK, size - (offset - startOffset)))
  }

  predicate InRom(addr: nat, size: nat) {
    size > 0 && addr + size <= ROM_SIZE
  }

  function NumChunks(addr: nat, size: nat): nat {
    (addr % CHUNK + size + CHUNK - 1) / CHUNK
  }

  lemma TurnInRange(addr: nat, size: nat, n: nat)
    requires InRom(addr, size) && n < NumChunks(addr, size)
    ensures addr - addr % CHUNK + n * CHUNK + CHUNK <= ROM_SIZE
    ensures Progress(n * CHUNK, addr % CHUNK, size) < size && (n * CHUNK < addr % CHUNK ==> n == 0)
  {
  }

  /** The turns of both loops. */
  function Plan(addr: nat, size: nat): (plan: seq<Chunk>)
    requires InRom(addr, size)
    ensures |plan| == NumChunks(addr, size)
  {
    seq(NumChunks(addr, size), n requires 0 <= n < NumChunks(addr, size) =>
      TurnInRange(addr, size, n);
      ChunkAt(addr - addr % CHUNK, n * CHUNK, addr % CHUNK, size))
  }

  /** The bytes covered by the first n turns. */
  function Done(plan: seq<Chunk>, n: nat): nat
    requires n <= |plan|
  {
    if n == 0 then 0 else plan[n - 1].from + plan[n - 1].count
  }

  ghost predicate ChunkOk(c: Chunk, addr: nat, size: nat) {
    && c.addr + CHUNK <= ROM_SIZE && c.at + c.count <= CHUNK && c.count > 0
    && c.addr + c.at == addr + c.from && c.from + c.count <= size
  }

  ghost predicate Follows(plan: seq<Chunk>, addr: nat, size: nat, n: nat)
    requires n < |plan|
  {
    ChunkOk(plan[n], addr, size) && plan[n].from == Done(plan, n)
  }

  /** The pieces follow each other without gap or overlap and make up the request. */
  ghost predicate PlanOk(plan: seq<Chunk>, addr: nat, size: nat) {
    && (forall n {:trigger Follows(plan, addr, size, n)} :: 0 <= n < |plan| ==> Follows(plan, addr, size, n))
    && Done(plan, |plan|) == size
  }

  lemma PlanIsOk(addr: nat, size: nat)
    requires InRom(addr, size)
    ensures PlanOk(Plan(addr, size), addr, size)
  {
    var plan := Plan(addr, size);
    forall n | 0 <= n < |plan|
      ensures Follows(plan, addr, size, n)
    {
      TurnInRange(addr, size, n);
      assert n > 0 ==> (n - 1) * CHUNK + CHUNK == n * CHUNK;
    }
    assert Done(plan, |plan|) == Progress(|plan| * CHUNK, addr % CHUNK, size);
  }

  /** The chunks of a plan are distinct. */
  lemma ChunksApart(addr: nat, size: nat, m: nat, n: nat)
    requires InRom(addr, size) && m < n < NumChunks(addr, size)
    ensures Plan(addr, size)[m].addr + CHUNK <= Plan(addr, size)[n].addr
  {
  }

  lemma ParamsAreCover(addr: nat, size: nat, startAddr: nat, numChunks: nat)
    requires InRom(addr, size) && startAddr % CHUNK == 0 && startAddr <= addr < startAddr + CHUNK
    requires addr + size <= startAddr + numChunks * CHUNK < addr + size + CHUNK
    ensures startAddr == addr - addr % CHUNK && numChunks == NumChunks(addr, size)
  {
  }

  ghost predicate TurnIs(plan: seq<Chunk>, startAddr: nat, startOffset: nat, size: nat, n: nat)
    requires startOffset < CHUNK && n < |plan|
  {
    && Progress(n * CHUNK, startOffset, size) < size && (n * CHUNK < startOffset ==> n == 0)
    && plan[n] == ChunkAt(startAddr, n * CHUNK, startOffset, size)
  }

  /** The loops compute the plan's chunks one by one. */
  ghost predicate TurnsAre(plan: seq<Chunk>, startAddr: nat, startOffset: nat, size: nat) {
    && startOffset < CHUNK
    && forall n {:trigger TurnIs(plan, startAddr, startOffset, size, n)} ::
         0 <= n < |plan| ==> TurnIs(plan, startAddr, startOffset, size, n)
  }

  /** The parameters make the loops follow the plan. */
  lemma ParamsGivePlan(addr: nat, size: nat, startAddr: nat, numChunks: nat, startOffset: nat)
    requires InRom(addr, size) && startAddr % CHUNK == 0 && startAddr <= addr < startAddr + CHUNK
    requires addr + size <= startAddr + numChunks * CHUNK < addr + size + CHUNK && startOffset == addr - startAddr
    ensures PlanOk(Plan(addr, size), addr, size) && |Plan(addr, size)| == numChunks
    ensures TurnsAre(Plan(addr, size), startAddr, startOffset, size)
  {
    ParamsAreCover(addr, size, startAddr, numChunks);
    PlanIsOk(addr, size);
    forall n | 0 <= n < numChunks
      ensures TurnIs(Plan(addr, size), startAddr, startOffset, size, n)
    {
      TurnInRange(addr, size, n);
    }
  }
}
