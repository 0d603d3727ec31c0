/** What any bytes decode to (nanopb's pb_decode.c): the decoder as a function of
    its input. */
module PbParse {
  import opened Options
  import opened Coding
  import opened PbFormat
  import opened PbMessages
  import opened PbRequired

  // ---- varints and tags ----

  // x | y
  function Or(x: nat, y: nat): nat {
    if x == 0 then y else if y == 0 then x
    else 2 * Or(x / 2, y / 2) + (if x % 2 == 1 || y % 2 == 1 then 1 else 0)
  }

  // x << k
  function ShiftLeft(x: nat, k: nat): nat {
    if k == 0 then x else 2 * ShiftLeft(x, k - 1)
  }

  /** pb_decode_varint32. Past the fifth byte only a repeated sign is let through;
      the place is kept in eight bits. */
  function Varint32(b: Bytes): (r: Option<Rest<nat>>)
    ensures r.Some? ==> r.value.value < LIMIT32 && |r.value.rest| < |b|
  {
    if b == [] then None
    else if b[0] < 128 then Some(Rest(b[0], b[1..]))
    else Longer32(b[1..], 7, b[0] - 128)
  }

  function Longer32(b: Bytes, bitpos: nat, result: nat): (r: Option<Rest<nat>>)
    requires result < LIMIT32
    ensures r.Some? ==> r.value.value < LIMIT32 && |r.value.rest| < |b|
    decreases |b|
  {
    if b == [] || (bitpos >= 32 && !RepeatsSign(b[0], bitpos, result)) then None
    else
      var x := if bitpos >= 32 then result else Or(result, ShiftLeft(b[0] % 128, bitpos)) % LIMIT32;
      var next := (bitpos + 7) % 256;
      if b[0] >= 128 then Longer32(b[1..], next, x)
      else if next == 35 && b[0] / 16 % 8 != 0 then None
      else Some(Rest(x, b[1..]))
  }

  predicate RepeatsSign(byte: Byte, bitpos: nat, result: nat) {
    byte % 128 == 0 || (result / TWO31 != 0 && byte == if bitpos < 63 then 0xFF else 0x01)
  }

  /** pb_decode_tag: the input is at its end, or a zero ends the message, or a
      field comes, or it is broken. */
  datatype TagRead = Ended(rest: Bytes) | Tag(tag: nat, wireType: nat, rest: Bytes) | Broken

  function ReadTag(b: Bytes): (r: TagRead)
    ensures r.Tag? ==> |r.rest| < |b| && r.wireType < 8
  {
    if b == [] then Ended(b)
    else match Varint32(b)
      case None => Broken
      case Some(k) => if k.value == 0 then Ended(k.rest) else Tag(k.value / 8, k.value % 8, k.rest)
  }

  // pb_skip_varint
  function SkipVarint(b: Bytes): (r: Option<Bytes>)
    ensures r.Some? ==> |r.value| < |b|
  {
    if b == [] then None else if b[0] < 128 then Some(b[1..]) else SkipVarint(b[1..])
  }

  // pb_skip_field
  function Skip(wireType: nat, b: Bytes): (r: Option<Bytes>)
    ensures r.Some? ==> |r.value| < |b|
  {
    match wireType
    case 0 => SkipVarint(b)
    case 1 => if |b| < 8 then None else Some(b[8..])
    case 2 => (match Delimited(b)
      case None => None
      case Some(c) => Some(c.rest))
    case 5 => if |b| < 4 then None else Some(b[4..])
    case _ => None
  }

  // A length and that many bytes.
  function Delimited(b: Bytes): (r: Option<Rest<Bytes>>)
    ensures r.Some? ==> |r.value.rest| < |b| && |r.value.value| < |b|
  {
    match Varint32(b)
    case None => None
    case Some(n) => if |n.rest| < n.value then None else Some(Rest(n.rest[..n.value], n.rest[n.value..]))
  }

  // ---- values ----

  // The 64 bits as a signed number, and the low 32 bits as one.
  function Signed64(x: nat): int {
    if x >= TWO63 then x - LIMIT64 else x
  }

  function Signed32(x: nat): int {
    var y := x % 0x1_0000_0000;
    if y >= TWO31 then y - LIMIT32 else y
  }

  function UnZigZag(x: nat): int {
    var half: int := x / 2;
    if x % 2 == 1 then -half - 1 else half
  }

  predicate InRange(lt: LType, i: int)
    requires Packable(lt)
  {
    ValueOk(InBounds, lt, Int(i))
  }

  // The number in a 64-bit varint, for the types that have one.
  function FromVarint(lt: LType, x: nat): int {
    match lt
    case Varint(w) => if w == W64 then Signed64(x) else Signed32(x)
    case Svarint(_) => UnZigZag(x)
    case _ => x
  }

  /** pb_dec_bool, pb_dec_varint, pb_dec_uvarint, pb_dec_svarint, pb_dec_fixed32,
      pb_dec_fixed64: out of range is refused. */
  function ScalarFrom(lt: LType, b: Bytes): (r: Option<Rest<int>>)
    requires Packable(lt)
    ensures r.Some? ==> |r.value.rest| < |b| && InRange(lt, r.value.value)
  {
    match lt
    case Bool => (match Varint32(b)
      case None => None
      case Some(v) => Some(Rest(if v.value != 0 then 1 else 0, v.rest)))
    case Fixed32 => if |b| < 4 then None else Some(Rest(DecodeFixed32(b[..4]), b[4..]))
    case Fixed64 => if |b| < 8 then None else
      FixedBound(b[..8]);
      Some(Rest(DecodeFixed64(b[..8]), b[8..]))
    case _ => (match GetVarint64(b)
      case None => None
      case Some(v) => if InRange(lt, FromVarint(lt, v.value)) then Some(Rest(FromVarint(lt, v.value), v.rest))
        else None)
  }

  lemma FixedBound(b: Bytes)
    requires |b| == 8
    ensures DecodeFixed64(b) < LIMIT64
  {
    LittleEndianBound(b);
    assert Power256(2) == 256 * (256 * Power256(0)) && Power256(4) == 256 * (256 * Power256(2));
    assert Power256(6) == 256 * (256 * Power256(4)) && Power256(8) == 256 * (256 * Power256(6));
  }

  lemma {:induction false} LittleEndianBound(b: Bytes)
    ensures FromLittleEndian(b) < Power256(|b|)
  {
    if b != [] {
      LittleEndianBound(b[1..]);
    }
  }

  // What the text of a buffer is: up to the first zero.
  function Text(b: Bytes): (r: Bytes)
    ensures 0 !in r && |r| <= |b| && (0 !in b ==> r == b)
  {
    if b == [] || b[0] == 0 then [] else [b[0]] + Text(b[1..])
  }

  /** The content of a length-delimited value: too much is refused, and no bytes
      at all stand for zeros in a fixed-length field. */
  function BlobFrom(lt: LType, c: Bytes): (r: Option<Bytes>)
    requires lt.BytesOf? || lt.CString? || lt.FixedBytes?
    ensures r.Some? ==> ValueOk(InBounds, lt, Blob(r.value))
  {
    match lt
    case BytesOf(capacity) => if |c| > capacity then None else Some(c)
    case CString(size) => if |c| + 1 > size then None else Some(Text(c))
    case FixedBytes(size) => if |c| == 0 then Some(Zeros(size)) else if |c| != size then None else Some(c)
  }

  /** A packed array's items onto those there, up to a limit. */
  function ItemsFrom(lt: LType, limit: nat, items: seq<Value>, b: Bytes): (r: Option<seq<Value>>)
    requires Packable(lt) && |items| <= limit && ValuesOk(InBounds, lt, items)
    ensures r.Some? ==> |r.value| <= limit && ValuesOk(InBounds, lt, r.value)
    decreases limit - |items|
  {
    if b == [] then Some(items)
    else if |items| == limit then None
    else match ScalarFrom(lt, b)
      case None => None
      case Some(i) =>
        OneOk(InBounds, lt, Int(i.value));
        Join(lt, items, [Int(i.value)]);
        ItemsFrom(lt, limit, items + [Int(i.value)], i.rest)
  }

  // ---- messages ----

  /** A value decoded onto `dest`: only submessages keep anything of it. */
  ghost function ValueFrom(lt: LType, dest: Value, b: Bytes): (r: Option<Rest<Value>>)
    requires TypeOk(lt) && ValueOk(InBounds, lt, dest)
    ensures r.Some? ==> |r.value.rest| < |b| && ValueOk(InBounds, lt, r.value.value)
    decreases lt, 0, 0
  {
    if Packable(lt) then
      match ScalarFrom(lt, b)
      case None => None
      case Some(i) => Some(Rest(Int(i.value), i.rest))
    else match Delimited(b)
      case None => None
      case Some(c) =>
        if lt.Submessage? then
          match MessageFrom(lt.sub, dest.m, c.value)
          case None => None
          case Some(m) => Some(Rest(Message(m), c.rest))
        else match BlobFrom(lt, c.value)
          case None => None
          case Some(x) => Some(Rest(Blob(x), c.rest))
  }

  // A packed array onto the elements there.
  function PackedFrom(f: Field, slot: Slot, b: Bytes): (r: Option<Rest<Slot>>)
    requires f.ht.Repeated? && Packable(f.lt) && SlotOk(InBounds, f, slot)
    ensures r.Some? ==> |r.value.rest| < |b| && SlotOk(InBounds, f, r.value.value)
  {
    match Delimited(b)
    case None => None
    case Some(c) => match ItemsFrom(f.lt, f.ht.arraySize, slot.vs, c.value)
      case None => None
      case Some(vs) => Some(Rest(Many(vs), c.rest))
  }

  /** decode_static_field, for the field's own slot: a packed array, one more
      element, or the one value; a union's field starts over. */
  ghost function SlotFrom(f: Field, wireType: nat, slot: Slot, b: Bytes): (r: Option<Rest<Slot>>)
    requires FieldOfType(f) && SlotOk(InBounds, f, slot)
    ensures r.Some? ==> |r.value.rest| < |b| && SlotOk(InBounds, f, r.value.value)
    decreases f, 0, 0
  {
    DefaultValueOk(f.lt, f.init);
    var default := DefaultValue(f.lt, f.init);
    if f.ht.Repeated? then
      if wireType == 2 && Packable(f.lt) then PackedFrom(f, slot, b)
      else if |slot.vs| >= f.ht.arraySize then None
      else match ValueFrom(f.lt, default, b)
        case None => None
        case Some(v) =>
          OneOk(InBounds, f.lt, v.value);
          Join(f.lt, slot.vs, [v.value]);
          Some(Rest(Many(slot.vs + [v.value]), v.rest))
    else match ValueFrom(f.lt, if slot.Single? && !f.ht.OneOf? then slot.v else default, b)
      case None => None
      case Some(v) => Some(Rest(Single(v.value), v.rest))
  }

  /** What reading fields leads to: the structure, the fields whose tags were read,
      and the input after the end. */
  datatype Decoded = Decoded(m: Msg, seen: set<nat>, rest: Bytes)

  /** The loop of pb_decode_noinit. */
  ghost function FieldsFrom(d: Desc, dest: Msg, seen: set<nat>, b: Bytes): (r: Option<Decoded>)
    requires DescOk(d) && MsgOk(InBounds, d, dest)
    ensures r.Some? ==> MsgOk(InBounds, d, r.value.m) && seen <= r.value.seen
    decreases d, 1, |b|
  {
    match ReadTag(b)
    case Broken => None
    case Ended(rest) => Some(Decoded(dest, seen, rest))
    case Tag(tag, wireType, rest) =>
      if d.fields == [] && tag == 0 then
        // The terminator of an empty description is taken for a field.
        match Varint32(rest)
        case None => None
        case Some(v) => FieldsFrom(d, dest, seen, v.rest)
      else if !HasTag(d, tag) then
        match Skip(wireType, rest)
        case None => None
        case Some(after) => FieldsFrom(d, dest, seen, after)
      else
        var i := IndexOf(d, tag);
        assert FieldTypeOk(d, i) && FieldOk(InBounds, d, dest, i);
        match SlotFrom(d.fields[i], wireType, dest.slots[i], rest)
        case None => None
        case Some(s) =>
          PutOk(d, dest, i, s.value);
          FieldsFrom(d, PutField(d, dest, i, s.value), seen + {i}, s.rest)
  }

  /** pb_decode_noinit: accepted when its fields are and the counted required ones
      are among them. */
  ghost function MessageFrom(d: Desc, dest: Msg, b: Bytes): (r: Option<Msg>)
    requires DescOk(d) && MsgOk(InBounds, d, dest)
    ensures r.Some? ==> MsgOk(InBounds, d, r.value)
    decreases d, 2, 0
  {
    match FieldsFrom(d, dest, {}, b)
    case None => None
    case Some(x) => if AllSeen(d, x.seen) then Some(x.m) else None
  }
}
