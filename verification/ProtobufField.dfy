/**
 Extracting a varint field from a Protocol Buffers message.  The reader takes the length of
 a length-delimited field from a single byte, so it finds its way exactly past payloads of
 fewer than 128 bytes.
 */
module ProtobufField {
  import opened Wrappers
  import opened Bytes
  import opened Varint

  /** Protocol Buffers Encoding, section "Message Structure"; groups are left out. */
  datatype Field =
    | VarintField(num: nat, value: nat)
    | Fixed64(num: nat, bytes: seq<Byte>)
    | Delimited(num: nat, payload: seq<Byte>)
    | Fixed32(num: nat, bytes: seq<Byte>)

  const FIELD_NUMBERS := 0x2000_0000

  predicate WellFormed(f: Field) {
    f.num < FIELD_NUMBERS && (f.Fixed64? ==> |f.bytes| == 8) && (f.Fixed32? ==> |f.bytes| == 4)
  }

  predicate AllWellFormed(fields: seq<Field>) {
    forall i :: 0 <= i < |fields| ==> WellFormed(fields[i])
  }

  function WireType(f: Field): (w: nat)
    ensures w < 8
  {
    match f
    case VarintField(_, _) => 0
    case Fixed64(_, _) => 1
    case Delimited(_, _) => 2
    case Fixed32(_, _) => 5
  }

  function Body(f: Field): seq<Byte> {
    match f
    case VarintField(_, value) => Encode(value)
    case Fixed64(_, bytes) => bytes
    case Delimited(_, payload) => Encode(|payload|) + payload
    case Fixed32(_, bytes) => bytes
  }

  function EncodeField(f: Field): (bytes: seq<Byte>)
    ensures |bytes| > 0
  {
    Encode(8 * f.num + WireType(f)) + Body(f)
  }

  function EncodeMessage(fields: seq<Field>): seq<Byte> {
    if fields == [] then [] else EncodeField(fields[0]) + EncodeMessage(fields[1..])
  }

  /** Where the reader continues after skipping a field; None where it gives up. */
  function Skip(data: seq<Byte>, pos: nat, wire: nat): (next: Option<nat>)
    ensures next.Some? ==> next.value >= pos
  {
    match wire
    case 0 => var p := ReadSpec(data, pos); if p.value.None? then None else Some(p.pos)
    case 1 => Some(pos + 8)
    case 2 => if pos >= |data| then None else Some(pos + 1 + data[pos])
    case 5 => Some(pos + 4)
    case _ => None
  }

  function Extract(data: seq<Byte>, pos: nat, num: nat): Option<nat>
    decreases |data| - pos
  {
    if pos >= |data| then None
    else
      var key := ReadSpec(data, pos);
      if key.value.None? then None
      else if key.value.value / 8 == num && key.value.value % 8 == 0 then ReadSpec(data, key.pos).value
      else
        var next := Skip(data, key.pos, key.value.value % 8);
        if next.None? then None else Extract(data, next.value, num)
  }

  method SkipField(data: seq<Byte>, start: nat, wire: nat) returns (next: Option<nat>)
    ensures next == Skip(data, start, wire)
  {
    match wire {
      case 0 =>
        var skipped, pos := ReadVarint(data, start);
        next := if skipped.None? then None else Some(pos);
      case 1 => next := Some(start + 8);
      case 2 =>
        if start >= |data| {
          return None;
        }
        next := Some(start + 1 + data[start]);
      case 5 => next := Some(start + 4);
      case _ => next := None;
    }
  }

  /** The loop of the source; every index is checked to be in bounds. */
  method ExtractProtobufUint32Field(data: seq<Byte>, num: nat) returns (r: Option<nat>)
    ensures r == Extract(data, 0, num)
  {
    var pos := 0;
    while pos < |data|
      invariant Extract(data, 0, num) == Extract(data, pos, num)
      decreases |data| - pos
    {
      var key;
      key, pos := ReadVarint(data, pos);
      if key.None? {
        break;
      }
      var wire, fieldNum := key.value % 8, key.value / 8;
      if fieldNum == num && wire == 0 {
        r, pos := ReadVarint(data, pos);
        return;
      }
      var next := SkipField(data, pos, wire);
      if next.None? {
        return None;
      }
      pos := next.value;
    }
    r := None;
  }

  /** Skipping lands on the end of the field. */
  predicate Skippable(f: Field) {
    (f.VarintField? ==> f.value < FIVE_BYTE_RANGE) && (f.Delimited? ==> |f.payload| < 128)
  }

  lemma {:induction false} EncodingIsLong(v: nat)
    requires v >= 128
    ensures |Encode(v)| >= 2 && Encode(v)[0] == 128 + v % 128
    ensures v < 16384 ==> |Encode(v)| == 2
  {
  }

  /** The body is skipped exactly if the field is skippable. */
  lemma SkipLandsOnEnd(data: seq<Byte>, pos: nat, f: Field)
    requires WellFormed(f) && StandAt(data, pos, Body(f))
    ensures Skip(data, pos, WireType(f)) == Some(pos + |Body(f)|) <==> Skippable(f)
  {
    match f
    case VarintField(_, value) => ReadOfEncoding(data, pos, value);
    case Fixed64(_, _) =>
    case Fixed32(_, _) =>
    case Delimited(_, payload) =>
      var n := |payload|;
      StandSplit(data, pos, Encode(n), payload);
      assert data[pos] == Encode(n)[0];
      if n >= 128 {
        EncodingIsLong(n);
        assert n == 128 * (n / 128) + n % 128;
      }
  }

  lemma KeyParts(num: nat, wire: nat)
    requires num < FIELD_NUMBERS && wire < 8
    ensures 8 * num + wire < U32_RANGE && (8 * num + wire) % U32_RANGE == 8 * num + wire
    ensures (8 * num + wire) / 8 == num && (8 * num + wire) % 8 == wire
  {
  }

  /** The key and the body of a field. */
  lemma KeyOfField(data: seq<Byte>, pos: nat, f: Field)
    requires WellFormed(f) && StandAt(data, pos, EncodeField(f))
    ensures var key := 8 * f.num + WireType(f);
            && ReadSpec(data, pos) == Parsed(Some(key), pos + |Encode(key)|)
            && key / 8 == f.num && key % 8 == WireType(f)
            && StandAt(data, pos + |Encode(key)|, Body(f))
            && |EncodeField(f)| == |Encode(key)| + |Body(f)|
  {
    var key := 8 * f.num + WireType(f);
    StandSplit(data, pos, Encode(key), Body(f));
    ReadOfEncoding(data, pos, key);
    KeyParts(f.num, WireType(f));
  }

  predicate Matches(f: Field, num: nat) {
    f.VarintField? && f.num == num
  }

  /** A matching field yields the low 32 bits of its value, if that was written in at most five bytes. */
  lemma MatchingField(data: seq<Byte>, pos: nat, f: Field)
    requires WellFormed(f) && f.VarintField? && StandAt(data, pos, EncodeField(f))
    ensures Extract(data, pos, f.num) == if f.value < FIVE_BYTE_RANGE then Some(f.value % U32_RANGE) else None
  {
    KeyOfField(data, pos, f);
    ReadOfEncoding(data, pos + |Encode(8 * f.num)|, f.value);
  }

  /** Any other skippable field is passed over. */
  lemma OtherField(data: seq<Byte>, pos: nat, f: Field, num: nat)
    requires WellFormed(f) && !Matches(f, num) && Skippable(f) && StandAt(data, pos, EncodeField(f))
    ensures Extract(data, pos, num) == Extract(data, pos + |EncodeField(f)|, num)
  {
    KeyOfField(data, pos, f);
    SkipLandsOnEnd(data, pos + |Encode(8 * f.num + WireType(f))|, f);
  }

  function FirstValue(fields: seq<Field>, num: nat): Option<nat> {
    if fields == [] then None
    else if Matches(fields[0], num) then
      if fields[0].value < FIVE_BYTE_RANGE then Some(fields[0].value % U32_RANGE) else None
    else FirstValue(fields[1..], num)
  }

  /** Everything before the first match can be skipped; what follows it does not matter. */
  predicate Reachable(fields: seq<Field>, num: nat) {
    fields == [] || Matches(fields[0], num) || (Skippable(fields[0]) && Reachable(fields[1..], num))
  }

  /** Reading the message at this place gives the first value of the requested field, or none. */
  ghost predicate Finds(data: seq<Byte>, pos: nat, fields: seq<Field>, num: nat) {
    Extract(data, pos, num) == FirstValue(fields, num)
  }

  lemma FindsInFirst(data: seq<Byte>, pos: nat, f: Field, rest: seq<Field>, num: nat)
    requires WellFormed(f) && StandAt(data, pos, EncodeField(f)) && (Matches(f, num) || Skippable(f))
    requires !Matches(f, num) ==> Finds(data, pos + |EncodeField(f)|, rest, num)
    ensures Finds(data, pos, [f] + rest, num)
  {
    assert ([f] + rest)[1..] == rest;
    if Matches(f, num) {
      MatchingField(data, pos, f);
    } else {
      OtherField(data, pos, f, num);
    }
  }

  /** Extraction returns the first value of the requested field, or none. */
  lemma {:induction false} ExtractFindsFirst(data: seq<Byte>, pos: nat, fields: seq<Field>, num: nat)
    requires AllWellFormed(fields) && Reachable(fields, num)
    requires StandAt(data, pos, EncodeMessage(fields)) && pos + |EncodeMessage(fields)| == |data|
    ensures Finds(data, pos, fields, num)
    decreases |fields|
  {
    if fields != [] {
      var f, rest := fields[0], fields[1..];
      StandSplit(data, pos, EncodeField(f), EncodeMessage(rest));
      assert fields == [f] + rest;
      if !Matches(f, num) {
        ExtractFindsFirst(data, pos + |EncodeField(f)|, rest, num);
      }
      FindsInFirst(data, pos, f, rest, num);
    }
  }

  /** Equal up to the contents of fixed-width fields and payloads. */
  predicate SameShape(f: Field, g: Field) {
    match f
    case VarintField(_, _) => g == f
    case Fixed64(num, bytes) => g.Fixed64? && g.num == num && |g.bytes| == |bytes|
    case Delimited(num, payload) => g.Delimited? && g.num == num && |g.payload| == |payload|
    case Fixed32(num, bytes) => g.Fixed32? && g.num == num && |g.bytes| == |bytes|
  }

  predicate SameShapes(fields: seq<Field>, others: seq<Field>) {
    |fields| == |others| && forall i :: 0 <= i < |fields| ==> SameShape(fields[i], others[i])
  }

  /** Payload sizes fit the source's 64-bit lengths. */
  predicate AllSized(fields: seq<Field>) {
    forall i :: 0 <= i < |fields| && fields[i].Delimited? ==> |fields[i].payload| < 0x1_0000_0000_0000_0000
  }

  /** Extraction is right whatever the fixed-width fields and payloads hold. */
  ghost predicate RightForAllContents(fields: seq<Field>, num: nat) {
    forall others :: SameShapes(fields, others) ==> Finds(EncodeMessage(others), 0, others, num)
  }

  /** Place in a payload of n bytes where a reader that takes the first length byte for the length continues. */
  function Landing(n: nat): int {
    129 + n % 128 - |Encode(n)|
  }

  lemma LandsInPayload(n: nat)
    requires 128 <= n < 0x1_0000_0000_0000_0000
    ensures 0 <= Landing(n) < n
  {
    EncodingIsLong(n);
    LengthOfEncoding(n, 10);
  }

  /** A payload that stops the reader: wire type 7 does not exist. */
  function Spoil(f: Field): (g: Field)
    ensures SameShape(f, g)
  {
    if f.Delimited? then
      var n := |f.payload|;
      f.(payload := seq(n, i => if i == Landing(n) then 7 else 0))
    else f
  }

  /** The first field that cannot be skipped is spoilt. */
  function SpoilFirst(fields: seq<Field>): seq<Field> {
    if fields == [] then []
    else if Skippable(fields[0]) then [fields[0]] + SpoilFirst(fields[1..])
    else [Spoil(fields[0])] + fields[1..]
  }

  lemma {:induction false} SpoilFirstKeepsShapes(fields: seq<Field>)
    ensures SameShapes(fields, SpoilFirst(fields))
  {
    if fields != [] && Skippable(fields[0]) {
      SpoilFirstKeepsShapes(fields[1..]);
    }
  }

  lemma MessageStands(data: seq<Byte>, pos: nat, f: Field, rest: seq<Field>)
    requires StandAt(data, pos, EncodeMessage([f] + rest))
    ensures StandAt(data, pos, EncodeField(f)) && StandAt(data, pos + |EncodeField(f)|, EncodeMessage(rest))
  {
    assert ([f] + rest)[1..] == rest;
    StandSplit(data, pos, EncodeField(f), EncodeMessage(rest));
  }

  lemma SpoiltPayloadStops(data: seq<Byte>, pos: nat, f: Field, num: nat)
    requires f.Delimited? && 128 <= |f.payload| < 0x1_0000_0000_0000_0000
    requires StandAt(data, pos, Body(Spoil(f)))
    ensures Skip(data, pos, 2).Some? && Extract(data, Skip(data, pos, 2).value, num) == None
  {
    var n, payload := |f.payload|, Spoil(f).payload;
    LandsInPayload(n);
    EncodingIsLong(n);
    StandSplit(data, pos, Encode(n), payload);
    assert data[pos] == Encode(n)[0];
    var next := pos + |Encode(n)| + Landing(n);
    assert data[next] == payload[Landing(n)] == 7;
    assert Parse(data, next, 5) == Parsed(Some(7), next + 1);
  }

  /** The reader gives up at a spoilt field, or at a value that is too long to skip. */
  lemma SpoiltFieldStops(data: seq<Byte>, pos: nat, f: Field, num: nat)
    requires WellFormed(f) && AllSized([f]) && !Skippable(f) && !Matches(f, num)
    requires StandAt(data, pos, EncodeField(Spoil(f)))
    ensures Extract(data, pos, num) == None
  {
    var g := Spoil(f);
    KeyOfField(data, pos, g);
    var next := pos + |Encode(8 * g.num + WireType(g))|;
    if f.VarintField? {
      ReadOfEncoding(data, next, f.value);
    } else {
      assert [f][0] == f;
      SpoiltPayloadStops(data, next, f, num);
    }
  }

  lemma {:induction false} SpoiltMessageStops(data: seq<Byte>, pos: nat, fields: seq<Field>, num: nat)
    requires AllWellFormed(fields) && AllSized(fields) && !Reachable(fields, num)
    requires StandAt(data, pos, EncodeMessage(SpoilFirst(fields)))
    ensures Extract(data, pos, num) == None
    decreases |fields|
  {
    var f, rest := fields[0], fields[1..];
    if Skippable(f) {
      MessageStands(data, pos, f, SpoilFirst(rest));
      OtherField(data, pos, f, num);
      SpoiltMessageStops(data, pos + |EncodeField(f)|, rest, num);
    } else {
      MessageStands(data, pos, Spoil(f), rest);
      assert AllSized([f]);
      SpoiltFieldStops(data, pos, f, num);
    }
  }

  /** The first value and whether the reader gets there depend on the shapes only. */
  lemma {:induction false} ShapeDecides(fields: seq<Field>, others: seq<Field>, num: nat)
    requires SameShapes(fields, others)
    ensures FirstValue(fields, num) == FirstValue(others, num) && Reachable(fields, num) == Reachable(others, num)
    ensures AllWellFormed(fields) == AllWellFormed(others)
  {
    if fields != [] {
      assert SameShape(fields[0], others[0]);
      ShapeDecides(fields[1..], others[1..], num);
      assert forall i :: 0 <= i < |fields| ==> SameShape(fields[i], others[i]);
    }
  }

  /**
   A field that is there is found for all contents of the other fields exactly if everything
   before its first occurrence can be skipped: no payload of 128 bytes or more, and no value
   of 2^35 or more.
   */
  lemma RightForAllContentsIff(fields: seq<Field>, num: nat)
    requires AllWellFormed(fields) && AllSized(fields) && FirstValue(fields, num).Some?
    ensures RightForAllContents(fields, num) <==> Reachable(fields, num)
  {
    if Reachable(fields, num) {
      forall others | SameShapes(fields, others)
        ensures Finds(EncodeMessage(others), 0, others, num)
      {
        ShapeDecides(fields, others, num);
        ExtractFindsFirst(EncodeMessage(others), 0, others, num);
      }
    } else {
      var others := SpoilFirst(fields);
      SpoilFirstKeepsShapes(fields);
      ShapeDecides(fields, others, num);
      SpoiltMessageStops(EncodeMessage(others), 0, fields, num);
      assert !Finds(EncodeMessage(others), 0, others, num);
    }
  }

  lemma LongPayloadBytes(long: Field, wanted: Field)
    requires long == Delimited(2, Zeros(128)) && wanted == VarintField(1, 7)
    ensures EncodeMessage([long, wanted]) == [18, 128, 1] + Zeros(128) + [8, 7]
  {
    assert Encode(18) == [18] && Encode(8) == [8] && Encode(7) == [7];
    assert Encode(128) == [128, 1];
    assert [long, wanted][1..] == [wanted] && [wanted][1..] == [];
    assert EncodeMessage([wanted]) == [8, 7];
  }

  /** The length byte 128 leads one byte too few ahead, so the reader is out of step from there on. */
  lemma ShortReads(data: seq<Byte>)
    requires data == [18, 128, 1] + Zeros(128) + [8, 7]
    ensures Extract(data, 0, 1) == None
  {
    assert data[0] == 18 && data[1] == 128 && data[130] == 0 && data[131] == 8 && data[132] == 7;
    assert Parse(data, 0, 5) == Parsed(Some(18), 1);
    assert Extract(data, 0, 1) == Extract(data, 130, 1);
    assert Parse(data, 130, 5) == Parsed(Some(0), 131) && Parse(data, 131, 5) == Parsed(Some(8), 132);
    assert Extract(data, 130, 1) == Extract(data, 132, 1);
    assert Parse(data, 132, 5) == Parsed(Some(7), 133);
  }

  /** A 128-byte payload misleads the reader: it misses a field that is there. */
  lemma LongPayloadHidesField(long: Field, wanted: Field)
    requires long == Delimited(2, Zeros(128)) && wanted == VarintField(1, 7)
    ensures AllWellFormed([long, wanted])
    ensures FirstValue([long, wanted], 1) == Some(7) && Extract(EncodeMessage([long, wanted]), 0, 1) == None
  {
    LongPayloadBytes(long, wanted);
    ShortReads(EncodeMessage([long, wanted]));
    assert [long, wanted][1..] == [wanted];
  }
}
