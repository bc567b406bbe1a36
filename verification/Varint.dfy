/** Base-128 varints: the encoding, and the reader that stops after five bytes. */
module Varint {
  import opened Wrappers
  import opened Bytes

  const U32_RANGE := 0x1_0000_0000
  const MAX_BYTES := 5
  const FIVE_BYTE_RANGE := 0x8_0000_0000

  /** Protocol Buffers Encoding, section "Base 128 Varints". */
  function Encode(v: nat): (bytes: seq<Byte>)
    ensures |bytes| > 0
  {
    if v < 128 then [v] else [128 + v % 128] + Encode(v / 128)
  }

  /** Where reading stopped, and the unbounded value if a last byte came within `budget` bytes. */
  datatype Parsed = Parsed(value: Option<nat>, pos: nat)

  function Parse(data: seq<Byte>, pos: nat, budget: nat): (p: Parsed)
    ensures pos <= p.pos && (pos <= |data| ==> p.pos <= |data|)
    ensures pos < |data| && budget > 0 ==> pos < p.pos
    decreases |data| - pos
  {
    if pos >= |data| || budget == 0 then Parsed(None, pos)
    else if data[pos] < 128 then Parsed(Some(data[pos]), pos + 1)
    else
      var rest := Parse(data, pos + 1, budget - 1);
      if rest.value.None? then rest
      else Parsed(Some(data[pos] - 128 + 128 * rest.value.value), rest.pos)
  }

  /** Parsing an encoding gives the value back if it fits the budget, and stops inside it otherwise. */
  lemma {:induction false} ParseOfEncoding(data: seq<Byte>, pos: nat, v: nat, budget: nat)
    requires StandAt(data, pos, Encode(v))
    ensures Parse(data, pos, budget) ==
            if |Encode(v)| <= budget then Parsed(Some(v), pos + |Encode(v)|) else Parsed(None, pos + budget)
    decreases budget
  {
    assert data[pos] == Encode(v)[0];
    if budget > 0 && v >= 128 {
      StandSplit(data, pos, [128 + v % 128], Encode(v / 128));
      ParseOfEncoding(data, pos + 1, v / 128, budget - 1);
    }
  }

  function Range(budget: nat): (r: nat)
    ensures r > 0
  {
    if budget == 0 then 1 else 128 * Range(budget - 1)
  }

  lemma {:induction false} LengthOfEncoding(v: nat, budget: nat)
    requires budget > 0
    ensures |Encode(v)| <= budget <==> v < Range(budget)
  {
    if budget > 1 {
      if v >= 128 {
        LengthOfEncoding(v / 128, budget - 1);
      }
    }
  }

  function Low(p: Parsed): Parsed {
    if p.value.None? then p else Parsed(Some(p.value.value % U32_RANGE), p.pos)
  }

  /** What the reader returns: the low 32 bits of a value of at most five bytes. */
  function ReadSpec(data: seq<Byte>, pos: nat): (p: Parsed)
    ensures pos <= p.pos && (pos <= |data| ==> p.pos <= |data|) && (pos < |data| ==> pos < p.pos)
  {
    Low(Parse(data, pos, MAX_BYTES))
  }

  /** Exactly the values below 2^35 are read back, modulo 2^32. */
  lemma ReadOfEncoding(data: seq<Byte>, pos: nat, v: nat)
    requires StandAt(data, pos, Encode(v))
    ensures ReadSpec(data, pos) ==
            if v < FIVE_BYTE_RANGE then Parsed(Some(v % U32_RANGE), pos + |Encode(v)|)
            else Parsed(None, pos + MAX_BYTES)
  {
    ParseOfEncoding(data, pos, v, MAX_BYTES);
    LengthOfEncoding(v, MAX_BYTES);
    assert Range(5) == FIVE_BYTE_RANGE by {
      assert Range(1) == 128 && Range(2) == 16384 && Range(3) == 2097152;
    }
  }

  function Scale(i: nat): (s: nat)
    requires i < MAX_BYTES
    ensures s > 0
  {
    match i
    case 0 => 1
    case 1 => 128
    case 2 => 16384
    case 3 => 2097152
    case _ => 268435456
  }

  /** The bits that a byte adds at its shift do not overlap the ones below, so `|=` is addition. */
  function OrShifted(value: nat, low: nat, i: nat): (v: nat)
    requires i < MAX_BYTES && value < Scale(i) && low < 128
    ensures v == (value + low * Scale(i)) % U32_RANGE
    ensures i + 1 < MAX_BYTES ==> v == value + low * Scale(i) && v < Scale(i + 1)
  {
    value + (low * Scale(i)) % U32_RANGE
  }

  /** The bytes so far contribute `value` below the rest. */
  function Joined(value: nat, i: nat, rest: Parsed): Parsed
    requires i <= MAX_BYTES
  {
    if rest.value.None? || i == MAX_BYTES then Parsed(None, rest.pos)
    else Parsed(Some(value + Scale(i) * rest.value.value), rest.pos)
  }

  lemma JoinLast(data: seq<Byte>, pos: nat, i: nat, value: nat)
    requires pos < |data| && i < MAX_BYTES && data[pos] < 128
    ensures Joined(value, i, Parse(data, pos, MAX_BYTES - i)) ==
            Parsed(Some(value + (data[pos] % 128) * Scale(i)), pos + 1)
  {
    assert Scale(i) * data[pos] == data[pos] * Scale(i);
  }

  lemma JoinStep(data: seq<Byte>, pos: nat, i: nat, value: nat)
    requires pos < |data| && i < MAX_BYTES && data[pos] >= 128
    ensures Joined(value, i, Parse(data, pos, MAX_BYTES - i)) ==
            Joined(value + (data[pos] % 128) * Scale(i), i + 1, Parse(data, pos + 1, MAX_BYTES - i - 1))
  {
    var rest := Parse(data, pos + 1, MAX_BYTES - i - 1);
    assert i == MAX_BYTES - 1 ==> rest.value.None?;
    if rest.value.Some? {
      var x := rest.value.value;
      assert Scale(i + 1) == 128 * Scale(i);
      assert Scale(i) * (data[pos] - 128 + 128 * x) == (data[pos] % 128) * Scale(i) + Scale(i + 1) * x;
    }
  }

  /** `value |= (byte & 0x7F) << shift` in 32 bits. */
  method AddByte(data: seq<Byte>, pos: nat, i: nat, value: nat) returns (v: nat)
    requires pos < |data| && i < MAX_BYTES && value < Scale(i)
    ensures data[pos] < 128 ==> Low(Joined(value, i, Parse(data, pos, MAX_BYTES - i))) == Parsed(Some(v), pos + 1)
    ensures data[pos] >= 128 ==>
              && Joined(value, i, Parse(data, pos, MAX_BYTES - i)) ==
                 Joined(v, i + 1, Parse(data, pos + 1, MAX_BYTES - (i + 1)))
              && (i + 1 < MAX_BYTES ==> v < Scale(i + 1))
  {
    if data[pos] < 128 {
      JoinLast(data, pos, i, value);
    } else {
      JoinStep(data, pos, i, value);
    }
    v := OrShifted(value, data[pos] % 128, i);
  }

  method ReadVarint(data: seq<Byte>, start: nat) returns (r: Option<nat>, pos: nat)
    ensures Parsed(r, pos) == ReadSpec(data, start)
  {
    var value: nat, i: nat := 0, 0;
    pos := start;
    while pos < |data| && i < MAX_BYTES
      invariant i <= MAX_BYTES && pos == start + i
      invariant i < MAX_BYTES ==> value < Scale(i)
      invariant Parse(data, start, MAX_BYTES) == Joined(value, i, Parse(data, pos, MAX_BYTES - i))
    {
      var byte := data[pos];
      value := AddByte(data, pos, i, value);
      pos := pos + 1;
      if byte < 128 {
        return Some(value), pos;
      }
      i := i + 1;
    }
    r := None;
  }
}
