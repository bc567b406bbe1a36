/** Copying host bytes to device memory in phases of wide, word and byte stores. */
module MemcpyToDevice {
  import opened Bytes
  import opened MmioLog

  class Writer {
    const variant: Variant
    const dest: nat
    const src: seq<Byte>
    const expires: nat -> bool
    var d: nat
    var s: nat
    var size: nat
    var log: seq<Access>
    var ops: seq<nat>

    constructor (variant: Variant, dest: nat, src: seq<Byte>, expires: nat -> bool)
      ensures this.variant == variant && this.dest == dest && this.src == src && this.expires == expires
      ensures Settled() && size == |src| && log == []
    {
      this.variant, this.dest, this.src, this.expires := variant, dest, src, expires;
      d, s, size, log, ops := dest, 0, |src|, [], [];
    }

    /** The stores so far are exactly src[..n], each as wide as it can be. */
    ghost predicate Wrote(n: nat)
      reads this`log
    {
      n <= |src| && Ascending(dest, log) && Flat(log) == src[..n] && AllWidest(variant, dest, |src|, log)
    }

    /** The first n bytes have been checked, and no check has expired. */
    ghost predicate Unexpired(n: nat)
      reads this`ops
    {
      Checked(variant, dest, |src|, ops, n) && Quiet(expires, |ops|)
    }

    ghost predicate Settled()
      reads this
    {
      size <= |src| && s == |src| - size && d == dest + s && Wrote(s) && Unexpired(s)
    }

    /** After a timeout the stores run past the reported progress by the last operation, unless it was a byte. */
    ghost predicate Stopped(out: Outcome)
      requires out.TimedOut?
      reads this
    {
      && out.remaining == size <= |src| && Decided(expires, ops, out)
      && var n := |src| - size + if out.op == 1 then 0 else out.op;
         Wrote(n) && Checked(variant, dest, |src|, ops, n)
    }

    method Store(addr: nat, n: nat, width: nat)
      requires Wrote(n) && addr == dest + n && n + width <= |src| && Widest(variant, addr, |src| - n, width)
      modifies this`log
      ensures Wrote(n + width)
    {
      var bytes := src[n..n + width];
      Append(dest, log, Access(addr, bytes));
      AppendWidest(variant, dest, |src|, log, Access(addr, bytes));
      assert src[..n] + bytes == src[..n + width];
      log := log + [Access(addr, bytes)];
    }

    /** A check for an operation of this size on the bytes from n on is one that the loops make. */
    ghost predicate CheckFits(op: nat, n: nat)
      requires n <= |src|
    {
      if variant == WideVector then op == 1 || op == 4 else WidestOp(variant, dest + n, |src| - n, op)
    }

    /** The guard, after an operation on the bytes from n on. */
    method Check(op: nat, ghost n: nat) returns (out: Outcome)
      requires Unexpired(n) && n <= |src| && CheckFits(op, n)
      modifies this`ops
      ensures Checked(variant, dest, |src|, ops, n + op) && Decided(expires, ops, out)
      ensures out.TimedOut? ==> out == TimedOut(size, op)
      ensures out.Finished? ==> Unexpired(n + op)
    {
      AppendOp(variant, dest, |src|, ops, op, n);
      out := if expires(|ops|) then TimedOut(size, op) else Finished;
      ops := ops + [op];
    }

    /** The byte loops count the byte before they check. */
    method StoreByte() returns (out: Outcome)
      requires Settled() && size > 0 && (size < 4 || d % 4 != 0)
      modifies this
      ensures d == old(d) + 1 && size == old(size) - 1
      ensures out.Finished? ==> Settled()
      ensures out.TimedOut? ==> out.op == 1 && Stopped(out)
    {
      LoopWidths(variant, d, size);
      Store(d, s, 1);
      d, s, size := d + 1, s + 1, size - 1;
      out := Check(1, s - 1);
    }

    /** The guard after a wider store, where there is one. */
    method CheckWide(width: nat, timed: bool) returns (out: Outcome)
      requires Unexpired(s) && s + size == |src| && d == dest + s && Widest(variant, d, size, width)
      requires TimedAs(variant, width, timed, size)
      modifies this`ops
      ensures out.Finished? ==> Unexpired(s + width)
      ensures out.TimedOut? ==>
                && timed && out == TimedOut(size, width)
                && Checked(variant, dest, |src|, ops, s + width) && Decided(expires, ops, out)
    {
      out := Finished;
      if timed {
        out := Check(width, s);
      }
    }

    /** Counts bytes that are stored and checked. */
    method Count(width: nat)
      requires size <= |src| && s == |src| - size && d == dest + s && width <= size
      requires Wrote(s + width) && Unexpired(s + width)
      modifies this`d, this`s, this`size
      ensures Settled() && d == old(d) + width && size == old(size) - width
    {
      d, s, size := d + width, s + width, size - width;
    }

    /** Wider stores are checked, if at all, before they are counted. */
    method StoreWide(width: nat, timed: bool, ghost align: nat) returns (out: Outcome)
      requires Settled() && size >= width && MayUse(variant, width, align) && Multiple(d, align)
      requires Widest(variant, d, size, width) && TimedAs(variant, width, timed, size)
      modifies this
      ensures !timed ==> out.Finished?
      ensures out.Finished? ==> Settled() && d == old(d) + width && size == old(size) - width && Multiple(d, align)
      ensures out.TimedOut? ==> out.op == width && Stopped(out)
    {
      StaysAligned(variant, d, width, align);
      Store(d, s, width);
      out := CheckWide(width, timed);
      if out.Finished? {
        Count(width);
      }
    }

    /** Phases 0 and 5. */
    method Bytewise(untilAligned: bool) returns (out: Outcome)
      requires Settled() && (untilAligned || size < 4)
      modifies this
      ensures out.Finished? ==> Settled() && (size == 0 || (untilAligned && Multiple(d, 4)))
      ensures out.TimedOut? ==> Stopped(out)
    {
      while size > 0 && (!untilAligned || d % 4 != 0)
        invariant Settled() && (untilAligned || size < 4)
      {
        out := StoreByte();
        if out.TimedOut? {
          return;
        }
      }
      out := Finished;
    }

    /** Loops of 32-byte and 4-byte stores; each keeps the alignment it starts with. */
    method Chunks(width: nat, timed: bool, ghost align: nat) returns (out: Outcome)
      requires Settled() && MayUse(variant, width, align) && (size >= 4 ==> Multiple(d, align))
      requires width == 32 || (width == 4 && (variant == Plain || size < 16))
      requires TimedAs(variant, width, timed, size)
      modifies this
      ensures !timed ==> out.Finished?
      ensures out.Finished? ==> Settled() && size < width && (size >= 4 ==> Multiple(d, align))
      ensures out.TimedOut? ==> Stopped(out)
    {
      while size >= width
        invariant Settled() && (size >= 4 ==> Multiple(d, align)) && size <= old(size)
      {
        LoopWidths(variant, d, size);
        out := StoreWide(width, timed, align);
        if out.TimedOut? {
          return;
        }
      }
      out := Finished;
    }

    method StoreBlock()
      requires Settled() && variant == X86 && size >= 256 && Multiple(d, 4)
      modifies this`log
      ensures Wrote(s + 256)
    {
      for j := 0 to 8
        invariant Wrote(s + 32 * j)
      {
        BlockOffset(d, 4, j);
        LoopWidths(variant, d + 32 * j, size - 32 * j);
        Store(d + 32 * j, s + 32 * j, 32);
      }
    }

    /** x86: eight stores of a 256-byte block, checked together and then counted. */
    method BlockX86() returns (out: Outcome)
      requires Settled() && variant == X86 && size >= 256 && Multiple(d, 4)
      modifies this
      ensures out.Finished? ==> Settled() && Multiple(d, 4) && size == old(size) - 256
      ensures out.TimedOut? ==> Stopped(out)
    {
      StoreBlock();
      out := Check(256, s);
      if out.TimedOut? {
        return;
      }
      BlockOffset(d, 4, 8);
      Count(256);
      out := Finished;
    }

    /** Wide vectors: the pointers move with each store, the count after eight. */
    method BlockWide()
      requires Settled() && variant == WideVector && size >= 256 && Multiple(d, 16)
      modifies this
      ensures Settled() && Multiple(d, 16) && size == old(size) - 256
    {
      for j := 0 to 8
        invariant s == |src| - size + 32 * j && d == dest + s && size == old(size) && Multiple(d, 16) && Wrote(s)
        invariant unchanged(this`ops)
      {
        LoopWidths(variant, d, size - 32 * j);
        StaysAligned(variant, d, 32, 16);
        Store(d, s, 32);
        s, d := s + 32, d + 32;
      }
      size := size - 256;
    }

    method Blocks() returns (out: Outcome)
      requires Settled() && variant != Plain
      requires size >= 4 ==> Multiple(d, if variant == X86 then 4 else 16)
      modifies this
      ensures variant == WideVector ==> out.Finished?
      ensures out.Finished? ==> size < 256
      ensures out.Finished? ==> Settled() && (size >= 4 ==> Multiple(d, if variant == X86 then 4 else 16))
      ensures out.TimedOut? ==> Stopped(out)
    {
      while size >= 256
        invariant Settled() && (size >= 4 ==> Multiple(d, if variant == X86 then 4 else 16))
        decreases size
      {
        if variant == X86 {
          out := BlockX86();
          if out.TimedOut? {
            return;
          }
        } else {
          BlockWide();
        }
      }
      out := Finished;
    }

    method AlignTo16()
      requires Settled() && variant == WideVector && (size >= 4 ==> Multiple(d, 4))
      modifies this
      ensures Settled() && (size >= 4 ==> Multiple(d, 16))
    {
      while size >= 4 && d % 16 != 0
        invariant Settled() && (size >= 4 ==> Multiple(d, 4))
      {
        LoopWidths(variant, d, size);
        var _ := StoreWide(4, false, 4);
      }
    }

    /** Phases 1 to 3 of the two vector variants. */
    method Vectors() returns (out: Outcome)
      requires Settled() && variant != Plain && (size >= 4 ==> Multiple(d, 4))
      modifies this
      ensures out.Finished? ==> Settled() && size < 16 && (size >= 4 ==> Multiple(d, 4))
      ensures out.TimedOut? ==> Stopped(out)
    {
      var timed := variant == X86;
      ghost var align := if timed then 4 else 16;
      if !timed {
        AlignTo16();
      }
      out := Blocks();
      if out.TimedOut? {
        return;
      }
      out := Chunks(32, timed, align);
      if out.TimedOut? {
        return;
      }
      if size >= 16 {
        LoopWidths(variant, d, size);
        out := StoreWide(16, timed, align);
      }
      Weaken(d, align);
    }

    /** All phases: the stores are src, byte for byte, or the prefix that the timeout reports. */
    method Copy() returns (out: Outcome)
      requires Settled() && size == |src|
      modifies this
      ensures out.Finished? ==> size == 0 && Wrote(|src|) && Unexpired(|src|)
      ensures out.TimedOut? ==> Stopped(out)
    {
      out := Bytewise(true);
      if out.TimedOut? {
        return;
      }
      if variant != Plain {
        out := Vectors();
        if out.TimedOut? {
          return;
        }
      }
      out := Chunks(4, true, 4);
      if out.TimedOut? {
        return;
      }
      out := Bytewise(false);
    }
  }

  /**
   The copy on a device memory, its stores and the checks of the guard.  Each store is as
   wide as its place and the rest allow.  The first check that expires ends the copy; a
   finished copy equals one plain copy, an aborted one has stored a prefix of the source
   longer than the reported progress by the last operation.
   */
  method MemcpyToDevice(variant: Variant, mem: seq<Byte>, dest: nat, src: seq<Byte>, expires: nat -> bool)
    returns (out: Outcome, log: seq<Access>, ops: seq<nat>, mem': seq<Byte>)
    requires dest + |src| <= |mem|
    ensures AllWidest(variant, dest, |src|, log) && AllAligned(variant, log) && Ascending(dest, log)
    ensures forall a: nat :: Touches(log, a) == if dest <= a < dest + |Flat(log)| then 1 else 0
    ensures Decided(expires, ops, out) && Checked(variant, dest, |src|, ops, |Flat(log)|)
    ensures out.Finished? ==> mem' == Splice(mem, dest, src) && Flat(log) == src
    ensures out.TimedOut? ==>
              && out.remaining <= |src|
              && var n := |src| - out.remaining + if out.op == 1 then 0 else out.op;
                 n <= |src| && Flat(log) == src[..n] && mem' == Splice(mem, dest, src[..n])
  {
    var w := new Writer(variant, dest, src, expires);
    out := w.Copy();
    log, ops := w.log, w.ops;
    WidestIsAligned(variant, dest, |src|, log);
    forall a: nat
      ensures Touches(log, a) == if dest <= a < dest + |Flat(log)| then 1 else 0
    {
      EachByteOnce(dest, log, a);
    }
    assert src[..|src|] == src;
    ReplayIsCopy(mem, dest, log);
    mem' := Replay(mem, log);
  }
}
