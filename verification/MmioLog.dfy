/** Logs of accesses to device memory, and what a log of stores does to it. */
module MmioLog {
  import opened Bytes

  /** One access of `|bytes|` bytes at a device address. */
  datatype Access = Access(addr: nat, bytes: seq<Byte>)

  /** The three ways the copy loops are compiled. */
  datatype Variant = X86 | WideVector | Plain

  /** A guard that may expire after any operation; the error carries what it reports. */
  datatype Outcome = Finished | TimedOut(remaining: nat, op: nat)

  /** All accessed bytes in order. */
  function Flat(log: seq<Access>): seq<Byte> {
    if log == [] then [] else Flat(log[..|log| - 1]) + log[|log| - 1].bytes
  }

  /** Every access starts where the one before it ended. */
  ghost predicate Ascending(start: nat, log: seq<Access>) {
    log == [] || (Ascending(start, log[..|log| - 1]) && log[|log| - 1].addr == start + |Flat(log[..|log| - 1])|)
  }

  /** Words are 4-aligned; without x86's unaligned accesses wide ones are 16-aligned. */
  predicate Allowed(variant: Variant, addr: nat, width: nat) {
    match width
    case 1 => true
    case 4 => addr % 4 == 0
    case n => variant != Plain && n in {16, 32} && addr % (if variant == X86 then 4 else 16) == 0
  }

  /** With this many bytes left, no wider access is allowed here. */
  ghost predicate Widest(variant: Variant, addr: nat, left: nat, width: nat) {
    && width <= left && Allowed(variant, addr, width)
    && forall w :: width < w <= left ==> !Allowed(variant, addr, w)
  }

  /** Every access of a copy of `total` bytes is as wide as alignment and the bytes left allow. */
  ghost predicate AllWidest(variant: Variant, start: nat, total: nat, log: seq<Access>) {
    log == [] ||
    (var front, last := log[..|log| - 1], log[|log| - 1];
     && AllWidest(variant, start, total, front) && |Flat(front)| <= total
     && Widest(variant, start + |Flat(front)|, total - |Flat(front)|, |last.bytes|))
  }

  /** The sizes of the checked operations add up to this. */
  function Sum(ops: seq<nat>): nat {
    if ops == [] then 0 else Sum(ops[..|ops| - 1]) + ops[|ops| - 1]
  }

  /** What one check covers: on x86 a whole block of 256 bytes where it fits, otherwise one access. */
  ghost predicate WidestOp(variant: Variant, addr: nat, left: nat, op: nat) {
    if variant == X86 && addr % 4 == 0 && left >= 256 then op == 256 else Widest(variant, addr, left, op)
  }

  ghost predicate OpsWidest(variant: Variant, start: nat, total: nat, ops: seq<nat>) {
    ops == [] ||
    (var front := ops[..|ops| - 1];
     && OpsWidest(variant, start, total, front) && Sum(front) <= total
     && WidestOp(variant, start + Sum(front), total - Sum(front), ops[|ops| - 1]))
  }

  /** All n bytes so far are covered by checks, one per operation; the wide-vector loops check bytes and words only. */
  ghost predicate Checked(variant: Variant, start: nat, total: nat, ops: seq<nat>, n: nat) {
    if variant == WideVector then forall i :: 0 <= i < |ops| ==> ops[i] == 1 || ops[i] == 4
    else OpsWidest(variant, start, total, ops) && Sum(ops) == n
  }

  lemma AppendOp(variant: Variant, start: nat, total: nat, ops: seq<nat>, op: nat, n: nat)
    requires Checked(variant, start, total, ops, n) && n <= total
    requires if variant == WideVector then op == 1 || op == 4 else WidestOp(variant, start + n, total - n, op)
    ensures Checked(variant, start, total, ops + [op], n + op)
  {
    assert (ops + [op])[..|ops|] == ops;
  }

  /** Which operations have a check of their own: all but the words and vectors of the wide-vector loops. */
  predicate TimedAs(variant: Variant, width: nat, timed: bool, left: nat) {
    if variant == WideVector then timed ==> width == 4 else timed && (variant == X86 ==> left < 256)
  }

  /** No check so far has expired. */
  ghost predicate Quiet(expires: nat -> bool, n: nat) {
    forall k :: 0 <= k < n ==> !expires(k)
  }

  /** The outcome is that of the last check: the first that expires ends the copy. */
  ghost predicate Decided(expires: nat -> bool, ops: seq<nat>, out: Outcome) {
    match out
    case Finished => Quiet(expires, |ops|)
    case TimedOut(_, op) =>
      |ops| > 0 && ops[|ops| - 1] == op && expires(|ops| - 1) && Quiet(expires, |ops| - 1)
  }

  predicate AccessAligned(variant: Variant, a: Access) {
    Allowed(variant, a.addr, |a.bytes|)
  }

  ghost predicate AllAligned(variant: Variant, log: seq<Access>) {
    forall i :: 0 <= i < |log| ==> AccessAligned(variant, log[i])
  }

  lemma {:induction false} WidestIsAligned(variant: Variant, start: nat, total: nat, log: seq<Access>)
    requires AllWidest(variant, start, total, log) && Ascending(start, log)
    ensures AllAligned(variant, log)
  {
    if log != [] {
      WidestIsAligned(variant, start, total, log[..|log| - 1]);
    }
  }

  lemma Append(start: nat, log: seq<Access>, a: Access)
    ensures Flat(log + [a]) == Flat(log) + a.bytes
    ensures Ascending(start, log + [a]) <==> Ascending(start, log) && a.addr == start + |Flat(log)|
  {
    assert (log + [a])[..|log|] == log;
  }

  lemma AppendWidest(variant: Variant, start: nat, total: nat, log: seq<Access>, a: Access)
    requires AllWidest(variant, start, total, log) && |Flat(log)| <= total
    requires Widest(variant, start + |Flat(log)|, total - |Flat(log)|, |a.bytes|)
    ensures AllWidest(variant, start, total, log + [a])
  {
    assert (log + [a])[..|log|] == log;
  }

  predicate InRange(mem: seq<Byte>, log: seq<Access>) {
    forall i :: 0 <= i < |log| ==> log[i].addr + |log[i].bytes| <= |mem|
  }

  function Store(mem: seq<Byte>, a: Access): (r: seq<Byte>)
    requires a.addr + |a.bytes| <= |mem|
    ensures |r| == |mem|
  {
    Splice(mem, a.addr, a.bytes)
  }

  function Replay(mem: seq<Byte>, log: seq<Access>): (r: seq<Byte>)
    requires InRange(mem, log)
    ensures |r| == |mem|
  {
    if log == [] then mem
    else
      assert InRange(mem, log[..|log| - 1]);
      Store(Replay(mem, log[..|log| - 1]), log[|log| - 1])
  }

  /** How many accesses touch an address. */
  function Touches(log: seq<Access>, a: nat): nat {
    if log == [] then 0
    else
      var last := log[|log| - 1];
      Touches(log[..|log| - 1], a) + if last.addr <= a < last.addr + |last.bytes| then 1 else 0
  }

  /** An ascending log stays inside its range. */
  lemma {:induction false} AscendingInRange(start: nat, log: seq<Access>, i: nat)
    requires Ascending(start, log) && i < |log|
    ensures start <= log[i].addr && log[i].addr + |log[i].bytes| <= start + |Flat(log)|
  {
    if i < |log| - 1 {
      AscendingInRange(start, log[..|log| - 1], i);
    }
  }

  /** An ascending log touches each byte of its range exactly once and nothing else. */
  lemma {:induction false} EachByteOnce(start: nat, log: seq<Access>, a: nat)
    requires Ascending(start, log)
    ensures Touches(log, a) == if start <= a < start + |Flat(log)| then 1 else 0
  {
    if log != [] {
      EachByteOnce(start, log[..|log| - 1], a);
    }
  }

  lemma AscendingStaysInside(mem: seq<Byte>, start: nat, log: seq<Access>)
    requires Ascending(start, log) && start + |Flat(log)| <= |mem|
    ensures InRange(mem, log)
  {
    forall i | 0 <= i < |log|
      ensures log[i].addr + |log[i].bytes| <= |mem|
    {
      AscendingInRange(start, log, i);
    }
  }

  lemma CopyOneMore(mem: seq<Byte>, start: nat, done: seq<Byte>, a: Access)
    requires start + |done| + |a.bytes| <= |mem| && a.addr == start + |done|
    ensures Store(Splice(mem, start, done), a) == Splice(mem, start, done + a.bytes)
  {
    SpliceJoins(mem, start, done, a.bytes);
  }

  /** Replaying an ascending log is one plain copy. */
  lemma {:induction false} ReplayIsCopy(mem: seq<Byte>, start: nat, log: seq<Access>)
    requires Ascending(start, log) && start + |Flat(log)| <= |mem|
    ensures InRange(mem, log)
    ensures Replay(mem, log) == Splice(mem, start, Flat(log))
  {
    AscendingStaysInside(mem, start, log);
    if log == [] {
      assert Splice(mem, start, []) == mem;
    } else {
      var front := log[..|log| - 1];
      ReplayIsCopy(mem, start, front);
      CopyOneMore(mem, start, Flat(front), log[|log| - 1]);
    }
  }

  predicate Multiple(d: nat, align: nat) {
    align in {4, 16} && d % align == 0
  }

  /** The store widths each variant uses, and the alignment they need. */
  predicate MayUse(variant: Variant, width: nat, align: nat) {
    || (width == 4 && align == 4)
    || (width in {16, 32} && align == match variant case X86 => 4 case WideVector => 16 case Plain => 0)
  }

  lemma StaysAligned(variant: Variant, d: nat, width: nat, align: nat)
    requires MayUse(variant, width, align) && Multiple(d, align)
    ensures Allowed(variant, d, width) && Multiple(d + width, align)
  {
  }

  /** Where the loops use each width it is the widest. */
  lemma LoopWidths(variant: Variant, d: nat, left: nat)
    ensures left > 0 && (left < 4 || d % 4 != 0) ==> Widest(variant, d, left, 1)
    ensures left >= 4 && d % 4 == 0 && (variant == Plain || left < 16 || (variant == WideVector && d % 16 != 0)) ==>
              Widest(variant, d, left, 4)
    ensures 16 <= left < 32 && Multiple(d, if variant == X86 then 4 else 16) && variant != Plain ==>
              Widest(variant, d, left, 16)
    ensures left >= 32 && Multiple(d, if variant == X86 then 4 else 16) && variant != Plain ==>
              Widest(variant, d, left, 32)
  {
  }

  lemma BlockOffset(d: nat, align: nat, j: nat)
    requires Multiple(d, align)
    ensures Multiple(d + 32 * j, align)
  {
  }

  lemma Weaken(d: nat, align: nat)
    requires align in {4, 16}
    ensures Multiple(d, align) ==> Multiple(d, 4)
  {
  }
}
