/**
 Where Blackhole puts its 2k DRAM banks, p ports each, in translated coordinates: two
 columns of k banks.  The half of the harvested bank becomes the second column with that
 bank last; its mirror bank is last in the first column.
 */
module DramSlots {
  import opened Modular
  import opened HarvestMask

  datatype Harvest = NoBank | Bank(bank: nat)

  datatype Slot = Slot(col: nat, idx: nat)

  function InHalf(k: nat, b: nat): (i: nat)
    requires b < 2 * k
    ensures i < k
  {
    if b < k then b else b - k
  }

  /** The bank at the same height in the other half. */
  function Mirror(k: nat, b: nat): (m: nat)
    requires b < 2 * k
    ensures m < 2 * k && m != b && InHalf(k, m) == InHalf(k, b)
  {
    if b < k then b + k else b - k
  }

  predicate HarvestFits(k: nat, h: Harvest) {
    h.Bank? ==> h.bank < 2 * k
  }

  function BankSlot(k: nat, h: Harvest, b: nat): (s: Slot)
    requires HarvestFits(k, h) && b < 2 * k
    ensures s.col < 2 && s.idx < k
  {
    match h
    case NoBank => Slot(if b < k then 0 else 1, InHalf(k, b))
    case Bank(hb) =>
      var i, r := InHalf(k, b), InHalf(k, hb);
      Slot(if (b < k) == (hb < k) then 1 else 0, if i == r then k - 1 else if i < r then i else i - 1)
  }

  /** The bank that takes a given slot. */
  function BankAt(k: nat, h: Harvest, s: Slot): (b: nat)
    requires HarvestFits(k, h) && s.col < 2 && s.idx < k
    ensures b < 2 * k && BankSlot(k, h, b) == s
  {
    match h
    case NoBank => s.idx + (if s.col == 0 then 0 else k)
    case Bank(hb) =>
      var r := InHalf(k, hb);
      var i := if s.idx == k - 1 then r else if s.idx < r then s.idx else s.idx + 1;
      i + (if (s.col == 1) == (hb < k) then 0 else k)
  }

  lemma BankSlotsInvert(k: nat, h: Harvest, b: nat)
    requires HarvestFits(k, h) && b < 2 * k
    ensures BankAt(k, h, BankSlot(k, h, b)) == b
  {
  }

  lemma HarvestedBankIsLast(k: nat, hb: nat)
    requires hb < 2 * k
    ensures BankSlot(k, Bank(hb), hb) == Slot(1, k - 1)
    ensures BankSlot(k, Bank(hb), Mirror(k, hb)) == Slot(0, k - 1)
  {
  }

  /** Row of a port below the first row of its column. */
  function PortRow(p: nat, idx: nat, port: nat): nat {
    idx * p + port
  }

  lemma PortRowUnique(p: nat, i: nat, q: nat, j: nat, r: nat)
    requires q < p && r < p && PortRow(p, i, q) == PortRow(p, j, r)
    ensures i == j && q == r
  {
    ModUnique(PortRow(p, i, q), p, i, q);
    ModUnique(PortRow(p, j, r), p, j, r);
  }

  /** Ports of all banks fill the two columns of k*p rows, each cell exactly once. */
  lemma PortsFillRectangle(k: nat, p: nat, h: Harvest, b: nat, q: nat)
    requires HarvestFits(k, h) && b < 2 * k && q < p
    ensures PortRow(p, BankSlot(k, h, b).idx, q) < k * p
    ensures forall c, r :: 0 <= c < 2 * k && 0 <= r < p
              && BankSlot(k, h, c).col == BankSlot(k, h, b).col
              && PortRow(p, BankSlot(k, h, c).idx, r) == PortRow(p, BankSlot(k, h, b).idx, q)
              ==> c == b && r == q
  {
    var i := BankSlot(k, h, b).idx;
    MulAtLeast(k - i, p);
    assert k * p == i * p + (k - i) * p;
    forall c: nat, r: nat | c < 2 * k && r < p
              && BankSlot(k, h, c).col == BankSlot(k, h, b).col
              && PortRow(p, BankSlot(k, h, c).idx, r) == PortRow(p, i, q)
      ensures c == b && r == q
    {
      PortRowUnique(p, i, q, BankSlot(k, h, c).idx, r);
      BankSlotsInvert(k, h, b);
      BankSlotsInvert(k, h, c);
    }
  }

  lemma RectangleIsCovered(k: nat, p: nat, h: Harvest, col: nat, row: nat) returns (b: nat, q: nat)
    requires HarvestFits(k, h) && col < 2 && row < k * p
    ensures b < 2 * k && q < p && BankSlot(k, h, b).col == col && PortRow(p, BankSlot(k, h, b).idx, q) == row
  {
    var idx := row / p;
    q := row % p;
    assert row == idx * p + q;
    MultipleIsFar(idx - k, p);
    assert (idx - k) * p == idx * p - k * p;
    b := BankAt(k, h, Slot(col, idx));
  }

  /** The harvested bank a mask with at most one bit names. */
  function HarvestOf(mask: nat, n: nat): (h: Harvest)
    ensures h.NoBank? <==> Harvested(mask, n) == 0
    ensures h.Bank? ==> h.bank < n && Bit(mask, h.bank)
  {
    if Harvested(mask, n) == 0 then NoBank
    else
      IndicesAreTheSetBits(mask, n);
      assert Indices(mask, n)[0] in Indices(mask, n);
      Bank(Indices(mask, n)[0])
  }

  /** With at most one harvested bank, banks above it move down by one logical number. */
  lemma LogicalBank(mask: nat, n: nat, b: nat)
    requires Harvested(mask, n) <= 1 && b < n
    ensures match HarvestOf(mask, n)
            case NoBank => !Bit(mask, b) && Working(mask, b) == b
            case Bank(hb) => hb < n && (Bit(mask, b) <==> b == hb) && Working(mask, b) == if b <= hb then b else b - 1
  {
    IndicesAreTheSetBits(mask, n);
    HarvestedMonotone(mask, b, n);
    HarvestedMonotone(mask, b + 1, n);
    if Harvested(mask, n) == 1 {
      var hb := Indices(mask, n)[0];
      assert hb in Indices(mask, n);
      if b <= hb {
        HarvestedMonotone(mask, b, hb);
        HarvestedMonotone(mask, hb + 1, n);
      } else {
        HarvestedMonotone(mask, hb + 1, b);
      }
      if Bit(mask, b) {
        assert b in Indices(mask, n);
      }
    }
  }

  /** The physical bank behind a logical one. */
  function PhysicalBank(h: Harvest, l: nat): nat {
    if h.Bank? && h.bank <= l then l + 1 else l
  }
}
