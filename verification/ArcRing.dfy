/**
 One of the two circular queues inside a Blackhole ARC message queue: a producer and a
 consumer share a write pointer word, a read pointer word and n entry slots.  Both
 pointers wrap at 2n.  Every access to a shared word is its own step, so the two sides
 interleave between any two words of an entry.
 */
module ArcRing {
  import opened Modular

  const ENTRY_LEN := 8

  type Entry = e: seq<nat> | |e| == ENTRY_LEN witness [0, 0, 0, 0, 0, 0, 0, 0]

  /** Word offsets of the pointers and of the first entry slot. */
  datatype Layout = Layout(wptr: nat, rptr: nat, base: nat)

  /** `PWrite(e, w, j)` has stored the first j words of e; at j == ENTRY_LEN the pointer is next. */
  datatype Producer = PIdle | PPoll(entry: Entry, w: nat) | PWrite(entry: Entry, w: nat, j: nat)

  /** `CRead(r, buf)` has loaded `buf`; when `buf` is a whole entry the pointer is next. */
  datatype Consumer = CIdle | CPoll(r: nat) | CRead(r: nat, buf: seq<nat>)

  /** `sent` and `got` are the histories of published and of consumed entries. */
  datatype Ring = Ring(sent: seq<Entry>, got: seq<Entry>, prod: Producer, cons: Consumer)

  datatype Move =
    | ProdStart(entry: Entry) | ProdPoll | ProdAbort | ProdWord | ProdPublish
    | ConsStart | ConsPoll | ConsAbort | ConsWord | ConsPublish

  predicate LayoutFits(n: nat, lay: Layout, size: nat) {
    && lay.wptr < size && lay.rptr < size && lay.wptr != lay.rptr
    && lay.base + ENTRY_LEN * n <= size
    && !(lay.base <= lay.wptr < lay.base + ENTRY_LEN * n)
    && !(lay.base <= lay.rptr < lay.base + ENTRY_LEN * n)
  }

  function WordAt(lay: Layout, slot: nat, j: nat): nat {
    lay.base + slot * ENTRY_LEN + j
  }

  predicate Owns(n: nat, lay: Layout, a: nat) {
    a == lay.wptr || a == lay.rptr || lay.base <= a < lay.base + ENTRY_LEN * n
  }

  /** The fullness test as the driver writes it. */
  predicate TestsFull(n: nat, rptr: nat, wptr: nat)
    requires n > 0
  {
    AbsDiff(rptr, wptr) % (2 * n) == n
  }

  predicate Enabled(n: nat, lay: Layout, mem: seq<nat>, q: Ring, m: Move)
    requires n > 0 && LayoutFits(n, lay, |mem|)
  {
    match m
    case ProdStart(_) => q.prod.PIdle?
    case ProdPoll => q.prod.PPoll? && !TestsFull(n, mem[lay.rptr], q.prod.w)
    case ProdAbort => q.prod.PPoll? && TestsFull(n, mem[lay.rptr], q.prod.w)
    case ProdWord => q.prod.PWrite? && q.prod.j < ENTRY_LEN
    case ProdPublish => q.prod.PWrite? && q.prod.j == ENTRY_LEN
    case ConsStart => q.cons.CIdle?
    case ConsPoll => q.cons.CPoll? && q.cons.r != mem[lay.wptr]
    case ConsAbort => q.cons.CPoll? && q.cons.r == mem[lay.wptr]
    case ConsWord => q.cons.CRead? && |q.cons.buf| < ENTRY_LEN
    case ConsPublish => q.cons.CRead? && |q.cons.buf| == ENTRY_LEN
  }

  function Memory(n: nat, lay: Layout, mem: seq<nat>, q: Ring, m: Move): (mem': seq<nat>)
    requires n > 0 && LayoutFits(n, lay, |mem|) && Enabled(n, lay, mem, q, m)
    ensures |mem'| == |mem|
    ensures forall a :: 0 <= a < |mem| && !Owns(n, lay, a) ==> mem'[a] == mem[a]
    ensures (m.ProdStart? || m.ProdPoll? || m.ProdAbort?) ==> mem' == mem
    ensures (m.ConsStart? || m.ConsPoll? || m.ConsAbort? || m.ConsWord?) ==> mem' == mem
  {
    match m
    case ProdWord => mem[WordAt(lay, q.prod.w % n, q.prod.j) := q.prod.entry[q.prod.j]]
    case ProdPublish => mem[lay.wptr := (q.prod.w + 1) % (2 * n)]
    case ConsPublish => mem[lay.rptr := (q.cons.r + 1) % (2 * n)]
    case _ => mem
  }

  function Agents(n: nat, lay: Layout, mem: seq<nat>, q: Ring, m: Move): Ring
    requires n > 0 && LayoutFits(n, lay, |mem|) && Enabled(n, lay, mem, q, m)
  {
    match m
    case ProdStart(e) => q.(prod := PPoll(e, mem[lay.wptr]))
    case ProdPoll => q.(prod := PWrite(q.prod.entry, q.prod.w, 0))
    case ProdAbort => q.(prod := PIdle)
    case ProdWord => q.(prod := PWrite(q.prod.entry, q.prod.w, q.prod.j + 1))
    case ProdPublish => q.(prod := PIdle, sent := q.sent + [q.prod.entry])
    case ConsStart => q.(cons := CPoll(mem[lay.rptr]))
    case ConsPoll => q.(cons := CRead(q.cons.r, []))
    case ConsAbort => q.(cons := CIdle)
    case ConsWord => q.(cons := CRead(q.cons.r, q.cons.buf + [mem[WordAt(lay, q.cons.r % n, |q.cons.buf|)]]))
    case ConsPublish => q.(cons := CIdle, got := q.got + [q.cons.buf])
  }

  /** The first k words of a slot are those of `e`. */
  ghost predicate SlotHolds(n: nat, lay: Layout, mem: seq<nat>, slot: nat, e: Entry, k: nat)
    requires LayoutFits(n, lay, |mem|) && slot < n && k <= ENTRY_LEN
  {
    forall j :: 0 <= j < k ==> mem[WordAt(lay, slot, j)] == e[j]
  }

  ghost predicate ProducerInv(n: nat, lay: Layout, mem: seq<nat>, q: Ring)
    requires n > 0 && LayoutFits(n, lay, |mem|)
  {
    match q.prod
    case PIdle => true
    case PPoll(_, w) => w == |q.sent| % (2 * n)
    case PWrite(e, w, j) =>
      && w == |q.sent| % (2 * n)
      && j <= ENTRY_LEN
      && |q.sent| < |q.got| + n
      && SlotHolds(n, lay, mem, |q.sent| % n, e, j)
  }

  ghost predicate ConsumerInv(n: nat, q: Ring)
    requires n > 0
  {
    match q.cons
    case CIdle => true
    case CPoll(r) => r == |q.got| % (2 * n)
    case CRead(r, buf) =>
      && r == |q.got| % (2 * n)
      && |q.got| < |q.sent|
      && |buf| <= ENTRY_LEN
      && buf == q.sent[|q.got|][..|buf|]
  }

  /** Published and unconsumed entries sit intact in their slots. */
  ghost predicate EntriesIntact(n: nat, lay: Layout, mem: seq<nat>, q: Ring)
    requires n > 0 && LayoutFits(n, lay, |mem|)
  {
    forall i :: |q.got| <= i < |q.sent| ==> SlotHolds(n, lay, mem, i % n, q.sent[i], ENTRY_LEN)
  }

  ghost predicate CountsInv(n: nat, lay: Layout, mem: seq<nat>, q: Ring)
    requires n > 0 && LayoutFits(n, lay, |mem|)
  {
    && |q.got| <= |q.sent| <= |q.got| + n
    && q.got == q.sent[..|q.got|]
    && mem[lay.wptr] == |q.sent| % (2 * n)
    && mem[lay.rptr] == |q.got| % (2 * n)
  }

  ghost predicate RingInv(n: nat, lay: Layout, mem: seq<nat>, q: Ring)
    requires n > 0 && LayoutFits(n, lay, |mem|)
  {
    && CountsInv(n, lay, mem, q)
    && EntriesIntact(n, lay, mem, q)
    && ProducerInv(n, lay, mem, q)
    && ConsumerInv(n, q)
  }

  lemma SlotFrame(n: nat, lay: Layout, mem: seq<nat>, mem': seq<nat>, slot: nat, e: Entry, k: nat)
    requires |mem'| == |mem| && LayoutFits(n, lay, |mem|) && slot < n && k <= ENTRY_LEN
    requires SlotHolds(n, lay, mem, slot, e, k)
    requires forall a :: WordAt(lay, slot, 0) <= a < WordAt(lay, slot, ENTRY_LEN) ==> mem'[a] == mem[a]
    ensures SlotHolds(n, lay, mem', slot, e, k)
  {
  }

  /** The invariant reads only the ring's own words. */
  lemma RingInvFrame(n: nat, lay: Layout, mem: seq<nat>, mem': seq<nat>, q: Ring)
    requires n > 0 && |mem'| == |mem| && LayoutFits(n, lay, |mem|)
    requires RingInv(n, lay, mem, q)
    requires forall a :: 0 <= a < |mem| && Owns(n, lay, a) ==> mem'[a] == mem[a]
    ensures RingInv(n, lay, mem', q)
  {
    forall i | |q.got| <= i < |q.sent|
      ensures SlotHolds(n, lay, mem', i % n, q.sent[i], ENTRY_LEN)
    {
      SlotFrame(n, lay, mem, mem', i % n, q.sent[i], ENTRY_LEN);
    }
  }

  /** The pointer tests decide exactly "full" and "empty" of the unbounded counts. */
  lemma PointerTestsExact(n: nat, lay: Layout, mem: seq<nat>, q: Ring)
    requires n > 0 && LayoutFits(n, lay, |mem|) && CountsInv(n, lay, mem, q)
    ensures TestsFull(n, mem[lay.rptr], mem[lay.wptr]) <==> |q.sent| == |q.got| + n
    ensures mem[lay.rptr] == mem[lay.wptr] <==> |q.sent| == |q.got|
  {
    WrappedDistance(|q.got|, |q.sent|, n);
  }

  /** A word store into the free slot leaves every unconsumed entry alone. */
  lemma StoreMissesLiveEntries(n: nat, lay: Layout, mem: seq<nat>, q: Ring)
    requires n > 0 && LayoutFits(n, lay, |mem|) && RingInv(n, lay, mem, q)
    requires Enabled(n, lay, mem, q, ProdWord)
    ensures var mem' := Memory(n, lay, mem, q, ProdWord);
            EntriesIntact(n, lay, mem', q) && SlotHolds(n, lay, mem', |q.sent| % n, q.prod.entry, q.prod.j + 1)
  {
    var mem' := Memory(n, lay, mem, q, ProdWord);
    ModOfDoubleWrap(|q.sent|, n);
    forall i | |q.got| <= i < |q.sent|
      ensures SlotHolds(n, lay, mem', i % n, q.sent[i], ENTRY_LEN)
    {
      ModDistinct(i, |q.sent|, n);
      SlotFrame(n, lay, mem, mem', i % n, q.sent[i], ENTRY_LEN);
    }
  }

  lemma ProducerStepKeeps(n: nat, lay: Layout, mem: seq<nat>, q: Ring, m: Move)
    requires n > 0 && LayoutFits(n, lay, |mem|) && RingInv(n, lay, mem, q) && Enabled(n, lay, mem, q, m)
    requires m.ProdStart? || m.ProdPoll? || m.ProdAbort? || m.ProdWord? || m.ProdPublish?
    ensures RingInv(n, lay, Memory(n, lay, mem, q, m), Agents(n, lay, mem, q, m))
  {
    var mem', q' := Memory(n, lay, mem, q, m), Agents(n, lay, mem, q, m);
    match m
    case ProdStart(_) =>
    case ProdPoll => PointerTestsExact(n, lay, mem, q);
    case ProdAbort =>
    case ProdWord => StoreMissesLiveEntries(n, lay, mem, q);
    case ProdPublish =>
      ModStep(|q.sent|, 2 * n);
      assert q'.got == q'.sent[..|q'.got|];
      forall i | |q'.got| <= i < |q'.sent|
        ensures SlotHolds(n, lay, mem', i % n, q'.sent[i], ENTRY_LEN)
      {
        if i < |q.sent| {
          SlotFrame(n, lay, mem, mem', i % n, q.sent[i], ENTRY_LEN);
        } else {
          SlotFrame(n, lay, mem, mem', i % n, q.prod.entry, ENTRY_LEN);
        }
      }
  }

  lemma ConsumerStepKeeps(n: nat, lay: Layout, mem: seq<nat>, q: Ring, m: Move)
    requires n > 0 && LayoutFits(n, lay, |mem|) && RingInv(n, lay, mem, q) && Enabled(n, lay, mem, q, m)
    requires m.ConsStart? || m.ConsPoll? || m.ConsAbort? || m.ConsWord? || m.ConsPublish?
    ensures RingInv(n, lay, Memory(n, lay, mem, q, m), Agents(n, lay, mem, q, m))
  {
    var mem', q' := Memory(n, lay, mem, q, m), Agents(n, lay, mem, q, m);
    match m
    case ConsStart =>
    case ConsPoll => PointerTestsExact(n, lay, mem, q);
    case ConsAbort =>
    case ConsWord =>
      ModOfDoubleWrap(|q.got|, n);
      assert SlotHolds(n, lay, mem, |q.got| % n, q.sent[|q.got|], ENTRY_LEN);
      assert q'.cons.buf == q.sent[|q.got|][..|q'.cons.buf|];
    case ConsPublish =>
      ModStep(|q.got|, 2 * n);
      assert q.cons.buf == q.sent[|q.got|];
      assert q'.got == q'.sent[..|q'.got|];
      forall i | |q'.got| <= i < |q'.sent|
        ensures SlotHolds(n, lay, mem', i % n, q'.sent[i], ENTRY_LEN)
      {
        SlotFrame(n, lay, mem, mem', i % n, q.sent[i], ENTRY_LEN);
      }
      if q.prod.PWrite? {
        SlotFrame(n, lay, mem, mem', |q.sent| % n, q.prod.entry, q.prod.j);
      }
  }

  /** Every step of either side keeps the ring invariant. */
  lemma RingStepKeeps(n: nat, lay: Layout, mem: seq<nat>, q: Ring, m: Move)
    requires n > 0 && LayoutFits(n, lay, |mem|) && RingInv(n, lay, mem, q) && Enabled(n, lay, mem, q, m)
    ensures RingInv(n, lay, Memory(n, lay, mem, q, m), Agents(n, lay, mem, q, m))
  {
    if m.ProdStart? || m.ProdPoll? || m.ProdAbort? || m.ProdWord? || m.ProdPublish? {
      ProducerStepKeeps(n, lay, mem, q, m);
    } else {
      ConsumerStepKeeps(n, lay, mem, q, m);
    }
  }
}
