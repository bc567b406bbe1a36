/** Copying device memory into a host buffer in phases of wide, word and byte loads. */
module MemcpyFromDevice {
  import opened Bytes
  import opened MmioLog

  class Reader {
    const variant: Variant
    const mem: seq<Byte>
    const src: nat
    const dest: array<Byte>
    const total: nat
    const expires: nat -> bool
    var d: nat
    var s: nat
    var size: nat
    var log: seq<Access>
    var ops: seq<nat>

    constructor (variant: Variant, mem: seq<Byte>, src: nat, dest: array<Byte>, total: nat, expires: nat -> bool)
      requires src + total <= |mem| && total <= dest.Length
      ensures this.variant == variant && this.mem == mem && this.src == src && this.dest == dest && this.total == total
      ensures this.expires == expires && Settled(dest[..]) && size == total && log == []
    {
      this.variant, this.mem, this.src, this.dest, this.total := variant, mem, src, dest, total;
      this.expires, d, s, size, log, ops := expires, 0, src, total, [], [];
    }

    /** The loads so far are exactly the first n device bytes, each as wide as it can be. */
    ghost predicate Loaded(n: nat)
      reads this`log
    {
      && n <= total && src + total <= |mem| && total <= dest.Length
      && Ascending(src, log) && Flat(log) == mem[src..src + n] && AllWidest(variant, src, total, log)
    }

    /** The first n bytes have been checked, and no check has expired. */
    ghost predicate Unexpired(n: nat)
      reads this`ops
    {
      Checked(variant, src, total, ops, n) && Quiet(expires, |ops|)
    }

    /** The host buffer holds the first n device bytes; the rest is as it was. */
    ghost predicate Filled(n: nat, before: seq<Byte>)
      reads dest
    {
      && n <= total && src + total <= |mem| && n <= |before| == dest.Length
      && (forall i :: 0 <= i < n ==> dest[i] == mem[src + i])
      && (forall i :: n <= i < dest.Length ==> dest[i] == before[i])
    }

    /** The cursors agree with what was loaded and delivered. */
    ghost predicate Placed(before: seq<Byte>)
      reads this, dest
    {
      size <= total && d == total - size && s == src + d && Loaded(d) && Filled(d, before)
    }

    ghost predicate Settled(before: seq<Byte>)
      reads this, dest
    {
      Placed(before) && Unexpired(d)
    }

    /** After a timeout exactly the reported progress is filled; the last operation, unless a byte, was loaded only. */
    ghost predicate Stopped(out: Outcome, before: seq<Byte>)
      requires out.TimedOut?
      reads this, dest
    {
      && out.remaining == size <= total && Decided(expires, ops, out) && Filled(total - size, before)
      && var n := total - size + if out.op == 1 then 0 else out.op;
         Loaded(n) && Checked(variant, src, total, ops, n)
    }

    method Load(addr: nat, width: nat, ghost n: nat) returns (bytes: seq<Byte>)
      requires Loaded(n) && addr == src + n && n + width <= total && Widest(variant, addr, total - n, width)
      modifies this`log
      ensures bytes == mem[addr..addr + width] && Loaded(n + width)
    {
      bytes := mem[addr..addr + width];
      Append(src, log, Access(addr, bytes));
      AppendWidest(variant, src, total, log, Access(addr, bytes));
      SliceJoins(mem, src, src + n, src + n + width);
      log := log + [Access(addr, bytes)];
    }

    method StoreToHost(at: nat, bytes: seq<Byte>, ghost before: seq<Byte>)
      requires Filled(at, before) && at + |bytes| <= total <= dest.Length && bytes == mem[src + at..src + at + |bytes|]
      modifies dest
      ensures Filled(at + |bytes|, before)
    {
      for i := 0 to |bytes|
        invariant Filled(at + i, before)
      {
        dest[at + i] := bytes[i];
      }
    }

    /** Host store of the bytes just loaded; then they are counted. */
    method Deliver(bytes: seq<Byte>, ghost before: seq<Byte>)
      requires |bytes| <= size <= total && d == total - size && s == src + d
      requires Loaded(d + |bytes|) && Filled(d, before) && bytes == mem[s..s + |bytes|]
      modifies this`d, this`s, this`size, dest
      ensures Placed(before) && d == old(d) + |bytes| && s == old(s) + |bytes| && size == old(size) - |bytes|
    {
      StoreToHost(d, bytes, before);
      d, s, size := d + |bytes|, s + |bytes|, size - |bytes|;
    }

    /** A check for an operation of this size on the bytes from n on is one that the loops make. */
    ghost predicate CheckFits(op: nat, n: nat)
      requires n <= total
    {
      if variant == WideVector then op == 1 || op == 4 else WidestOp(variant, src + n, total - n, op)
    }

    /** The guard, after an operation on the bytes from n on. */
    method Check(op: nat, ghost n: nat) returns (out: Outcome)
      requires Unexpired(n) && n <= total && CheckFits(op, n)
      modifies this`ops
      ensures Checked(variant, src, total, ops, n + op) && Decided(expires, ops, out)
      ensures out.TimedOut? ==> out == TimedOut(size, op)
      ensures out.Finished? ==> Unexpired(n + op)
    {
      AppendOp(variant, src, total, ops, op, n);
      out := if expires(|ops|) then TimedOut(size, op) else Finished;
      ops := ops + [op];
    }

    /** The byte loops store and count the byte before they check. */
    method LoadByte(ghost before: seq<Byte>) returns (out: Outcome)
      requires Settled(before) && size > 0 && (size < 4 || s % 4 != 0)
      modifies this, dest
      ensures s == old(s) + 1 && size == old(size) - 1
      ensures out.Finished? ==> Settled(before)
      ensures out.TimedOut? ==> out.op == 1 && Stopped(out, before)
    {
      LoopWidths(variant, s, size);
      var bytes := Load(s, 1, d);
      Deliver(bytes, before);
      out := Check(1, d - 1);
    }

    method LoadAligned(width: nat, ghost align: nat) returns (bytes: seq<Byte>)
      requires Loaded(d) && s == src + d && d + width <= total && MayUse(variant, width, align) && Multiple(s, align)
      requires Widest(variant, s, total - d, width)
      modifies this`log
      ensures |bytes| == width && s + width <= |mem| && bytes == mem[s..s + width]
      ensures Loaded(d + width) && Multiple(s + width, align)
    {
      StaysAligned(variant, s, width, align);
      bytes := Load(s, width, d);
    }

    /** The guard after a wider load, where there is one. */
    method CheckWide(width: nat, timed: bool) returns (out: Outcome)
      requires Unexpired(d) && d + size == total && s == src + d && Widest(variant, s, size, width)
      requires TimedAs(variant, width, timed, size)
      modifies this`ops
      ensures out.Finished? ==> Unexpired(d + width)
      ensures out.TimedOut? ==>
                && timed && out == TimedOut(size, width)
                && Checked(variant, src, total, ops, d + width) && Decided(expires, ops, out)
    {
      out := Finished;
      if timed {
        out := Check(width, d);
      }
    }

    /** Wider loads are checked, if at all, before the host buffer is written. */
    method LoadWide(width: nat, timed: bool, ghost align: nat, ghost before: seq<Byte>) returns (out: Outcome)
      requires Settled(before) && size >= width && MayUse(variant, width, align) && Multiple(s, align)
      requires Widest(variant, s, size, width) && TimedAs(variant, width, timed, size)
      modifies this, dest
      ensures !timed ==> out.Finished?
      ensures out.Finished? ==>
              Settled(before) && s == old(s) + width && size == old(size) - width && Multiple(s, align)
      ensures out.TimedOut? ==> out.op == width && Stopped(out, before)
    {
      var bytes := LoadAligned(width, align);
      out := CheckWide(width, timed);
      if out.Finished? {
        Deliver(bytes, before);
      }
    }

    /** Phases 0 and 5. */
    method Bytewise(untilAligned: bool, ghost before: seq<Byte>) returns (out: Outcome)
      requires Settled(before) && (untilAligned || size < 4)
      modifies this, dest
      ensures out.Finished? ==> Settled(before) && (size == 0 || (untilAligned && Multiple(s, 4)))
      ensures out.TimedOut? ==> Stopped(out, before)
    {
      while size > 0 && (!untilAligned || s % 4 != 0)
        invariant Settled(before) && (untilAligned || size < 4)
      {
        out := LoadByte(before);
        if out.TimedOut? {
          return;
        }
      }
      out := Finished;
    }

    /** Loops of 32-byte and 4-byte loads. */
    method Chunks(width: nat, timed: bool, ghost align: nat, ghost before: seq<Byte>) returns (out: Outcome)
      requires Settled(before) && MayUse(variant, width, align) && (size >= 4 ==> Multiple(s, align))
      requires width == 32 || (width == 4 && (variant == Plain || size < 16))
      requires TimedAs(variant, width, timed, size)
      modifies this, dest
      ensures !timed ==> out.Finished?
      ensures out.Finished? ==> Settled(before) && size < width && (size >= 4 ==> Multiple(s, align))
      ensures out.TimedOut? ==> Stopped(out, before)
    {
      while size >= width
        invariant Settled(before) && (size >= 4 ==> Multiple(s, align)) && size <= old(size)
      {
        LoopWidths(variant, s, size);
        out := LoadWide(width, timed, align, before);
        if out.TimedOut? {
          return;
        }
      }
      out := Finished;
    }

    method LoadBlock() returns (block: seq<Byte>)
      requires Loaded(d) && s == src + d && d + size == total && variant == X86 && size >= 256 && Multiple(s, 4)
      modifies this`log
      ensures Loaded(d + 256) && block == mem[s..s + 256]
    {
      block := [];
      for j := 0 to 8
        invariant Loaded(d + 32 * j) && block == mem[s..s + 32 * j]
      {
        BlockOffset(s, 4, j);
        LoopWidths(variant, s + 32 * j, size - 32 * j);
        var v := Load(s + 32 * j, 32, d + 32 * j);
        SliceJoins(mem, s, s + 32 * j, s + 32 * j + 32);
        block := block + v;
      }
    }

    method CheckBlock() returns (out: Outcome)
      requires Unexpired(d) && s == src + d && d + size == total && variant == X86 && size >= 256 && Multiple(s, 4)
      modifies this`ops
      ensures out.Finished? ==> Unexpired(d + 256)
      ensures out.TimedOut? ==>
                && out == TimedOut(size, 256)
                && Checked(variant, src, total, ops, d + 256) && Decided(expires, ops, out)
    {
      out := Check(256, d);
    }

    /** x86: eight loads of a 256-byte block, one check, then eight host stores. */
    method BlockX86(ghost before: seq<Byte>) returns (out: Outcome)
      requires Settled(before) && variant == X86 && size >= 256 && Multiple(s, 4)
      modifies this, dest
      ensures out.Finished? ==> Settled(before) && Multiple(s, 4) && size == old(size) - 256
      ensures out.TimedOut? ==> Stopped(out, before)
    {
      var block := LoadBlock();
      out := CheckBlock();
      if out.TimedOut? {
        return;
      }
      BlockOffset(s, 4, 8);
      Deliver(block, before);
      out := Finished;
    }

    /** Wide vectors: load and store 32 bytes at a time; the count follows after eight. */
    method BlockWide(ghost before: seq<Byte>)
      requires Settled(before) && variant == WideVector && size >= 256 && Multiple(s, 16)
      modifies this, dest
      ensures Settled(before) && Multiple(s, 16) && size == old(size) - 256
    {
      for j := 0 to 8
        invariant d == total - size + 32 * j && s == src + d && size == old(size) && Multiple(s, 16)
        invariant Loaded(d) && Filled(d, before) && unchanged(this`ops)
      {
        LoopWidths(variant, s, size - 32 * j);
        StaysAligned(variant, s, 32, 16);
        var chunk := Load(s, 32, d);
        StoreToHost(d, chunk, before);
        s, d := s + 32, d + 32;
      }
      size := size - 256;
    }

    method Blocks(ghost before: seq<Byte>) returns (out: Outcome)
      requires Settled(before) && variant != Plain
      requires size >= 4 ==> Multiple(s, if variant == X86 then 4 else 16)
      modifies this, dest
      ensures variant == WideVector ==> out.Finished?
      ensures out.Finished? ==> size < 256
      ensures out.Finished? ==> Settled(before) && (size >= 4 ==> Multiple(s, if variant == X86 then 4 else 16))
      ensures out.TimedOut? ==> Stopped(out, before)
    {
      while size >= 256
        invariant Settled(before) && (size >= 4 ==> Multiple(s, if variant == X86 then 4 else 16))
        decreases size
      {
        if variant == X86 {
          out := BlockX86(before);
          if out.TimedOut? {
            return;
          }
        } else {
          BlockWide(before);
        }
      }
      out := Finished;
    }

    method AlignTo16(ghost before: seq<Byte>)
      requires Settled(before) && variant == WideVector && (size >= 4 ==> Multiple(s, 4))
      modifies this, dest
      ensures Settled(before) && (size >= 4 ==> Multiple(s, 16))
    {
      while size >= 4 && s % 16 != 0
        invariant Settled(before) && (size >= 4 ==> Multiple(s, 4))
      {
        LoopWidths(variant, s, size);
        var _ := LoadWide(4, false, 4, before);
      }
    }

    /** Phases 1 to 3 of the two vector variants. */
    method Vectors(ghost before: seq<Byte>) returns (out: Outcome)
      requires Settled(before) && variant != Plain && (size >= 4 ==> Multiple(s, 4))
      modifies this, dest
      ensures out.Finished? ==> Settled(before) && size < 16 && (size >= 4 ==> Multiple(s, 4))
      ensures out.TimedOut? ==> Stopped(out, before)
    {
      var timed := variant == X86;
      ghost var align := if timed then 4 else 16;
      if !timed {
        AlignTo16(before);
      }
      out := Blocks(before);
      if out.TimedOut? {
        return;
      }
      out := Chunks(32, timed, align, before);
      if out.TimedOut? {
        return;
      }
      if size >= 16 {
        LoopWidths(variant, s, size);
        out := LoadWide(16, timed, align, before);
      }
      Weaken(s, align);
    }

    method Copy(ghost before: seq<Byte>) returns (out: Outcome)
      requires Settled(before) && size == total
      modifies this, dest
      ensures out.Finished? ==> Filled(total, before) && Loaded(total) && Unexpired(total)
      ensures out.TimedOut? ==> Stopped(out, before)
    {
      out := Bytewise(true, before);
      if out.TimedOut? {
        return;
      }
      if variant != Plain {
        out := Vectors(before);
        if out.TimedOut? {
          return;
        }
      }
      out := Chunks(4, true, 4, before);
      if out.TimedOut? {
        return;
      }
      out := Bytewise(false, before);
    }
  }

  /**
   The copy into a host buffer, its loads and the checks of the guard.  Each load is as wide
   as its place and the rest allow.  The first check that expires ends the copy; a finished
   one has filled the buffer with the device bytes, an aborted one exactly up to the
   reported progress; each device byte is loaded at most once.
   */
  method MemcpyFromDevice(
    variant: Variant, mem: seq<Byte>, src: nat, dest: array<Byte>, total: nat, expires: nat -> bool)
    returns (out: Outcome, log: seq<Access>, ops: seq<nat>)
    requires src + total <= |mem| && total <= dest.Length
    modifies dest
    ensures AllWidest(variant, src, total, log) && AllAligned(variant, log) && Ascending(src, log)
    ensures forall a: nat :: Touches(log, a) == if src <= a < src + |Flat(log)| then 1 else 0
    ensures Decided(expires, ops, out) && Checked(variant, src, total, ops, |Flat(log)|)
    ensures out.Finished? ==> dest[..] == Splice(old(dest[..]), 0, mem[src..src + total]) && |Flat(log)| == total
    ensures out.TimedOut? ==>
              && out.remaining <= total
              && dest[..] == Splice(old(dest[..]), 0, mem[src..src + (total - out.remaining)])
              && |Flat(log)| == total - out.remaining + if out.op == 1 then 0 else out.op
  {
    var r := new Reader(variant, mem, src, dest, total, expires);
    out := r.Copy(old(dest[..]));
    log, ops := r.log, r.ops;
    WidestIsAligned(variant, src, total, log);
    forall a: nat
      ensures Touches(log, a) == if src <= a < src + |Flat(log)| then 1 else 0
    {
      EachByteOnce(src, log, a);
    }
  }
}
