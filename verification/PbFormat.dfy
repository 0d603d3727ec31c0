/** Messages, their descriptions, and the bytes they stand for (nanopb's pb.h and
    the Protocol Buffers encoding).

    A structure in memory is a sequence of slots, one for each field of its
    description. */
module PbFormat {
  import opened Coding

  const TWO31: nat := 0x8000_0000
  const TWO63: nat := 0x8000_0000_0000_0000

  // An integer's width in bytes, as data_size gives it.
  datatype Width = W8 | W16 | W32 | W64

  /** What a field holds (PB_LTYPE). */
  datatype LType =
    | Bool | Varint(w: Width) | Uvarint(w: Width) | Svarint(w: Width) | Fixed32 | Fixed64
    | BytesOf(capacity: nat) | CString(size: nat) | Submessage(sub: Desc) | FixedBytes(size: nat)

  /** How often it may occur (PB_HTYPE): an optional field has its own `has`
      flag, or else its presence is implicit; a repeated one has its count, and a
      union's fields share one tag. */
  datatype HType = Required | Optional | Implicit | Repeated(arraySize: nat) | OneOf(union: nat)

  datatype Field = Field(tag: nat, lt: LType, ht: HType, init: Value)

  datatype Desc = Desc(fields: seq<Field>)

  datatype Value = Int(i: int) | Blob(b: Bytes) | Message(m: Msg)

  /** Absent: the has flag is unset, or the union's tag is another field's. */
  datatype Slot = Absent | Single(v: Value) | Many(vs: seq<Value>)

  datatype Msg = Msg(slots: seq<Slot>)

  // ---- which structures a description allows ----

  function Half(w: Width): nat {
    match w
    case W8 => 0x80
    case W16 => 0x8000
    case W32 => TWO31
    case W64 => TWO63
  }

  /** Shaped: the C types allow the value. Encodable: the encoder's own checks
      pass too. InBounds: each string also leaves room for its terminator. */
  datatype Level = Shaped | Encodable | InBounds

  predicate ValueOk(level: Level, lt: LType, v: Value)
    decreases lt, 0
  {
    match lt
    case Bool => v == Int(0) || v == Int(1)
    case Varint(w) => v.Int? && 0 <= v.i + Half(w) < 2 * Half(w)
    case Uvarint(w) => v.Int? && 0 <= v.i < 2 * Half(w)
    case Svarint(w) => v.Int? && 0 <= v.i + Half(w) < 2 * Half(w)
    case Fixed32 => v.Int? && 0 <= v.i < LIMIT32
    case Fixed64 => v.Int? && 0 <= v.i < LIMIT64
    case BytesOf(capacity) => v.Blob? && (level.Shaped? || |v.b| <= capacity)
    case CString(size) => v.Blob? && 0 !in v.b && |v.b| <= size && (level.InBounds? ==> |v.b| < size)
    case Submessage(sub) => v.Message? && MsgOk(level, sub, v.m)
    case FixedBytes(size) => v.Blob? && |v.b| == size
  }

  predicate ValuesOk(level: Level, lt: LType, vs: seq<Value>)
    decreases lt, 2
  {
    forall j | 0 <= j < |vs| :: ElementOk(level, lt, vs, j)
  }

  predicate ElementOk(level: Level, lt: LType, vs: seq<Value>, j: nat)
    requires j < |vs|
    decreases lt, 1
  {
    ValueOk(level, lt, vs[j])
  }

  predicate SlotOk(level: Level, f: Field, s: Slot)
    decreases f, 0
  {
    match f.ht
    case Required => s.Single? && ValueOk(level, f.lt, s.v)
    case Implicit => s.Single? && ValueOk(level, f.lt, s.v)
    case Optional => s.Absent? || (s.Single? && ValueOk(level, f.lt, s.v))
    case OneOf(_) => s.Absent? || (s.Single? && ValueOk(level, f.lt, s.v))
    case Repeated(arraySize) => s.Many? && (level.Shaped? || |s.vs| <= arraySize) && ValuesOk(level, f.lt, s.vs)
  }

  predicate MsgOk(level: Level, d: Desc, m: Msg)
    decreases d, 1
  {
    && |m.slots| == |d.fields| && Exclusive(d, m)
    && forall i | 0 <= i < |d.fields| :: FieldOk(level, d, m, i)
  }

  predicate FieldOk(level: Level, d: Desc, m: Msg, i: nat)
    requires i < |d.fields| == |m.slots|
    decreases d, 0
  {
    SlotOk(level, d.fields[i], m.slots[i])
  }

  // At most one field of a union is set.
  predicate Exclusive(d: Desc, m: Msg) {
    |m.slots| == |d.fields| && forall i, j | 0 <= i < j < |d.fields| :: Apart(d, m, i, j)
  }

  predicate Apart(d: Desc, m: Msg, i: nat, j: nat)
    requires i < j < |d.fields| == |m.slots|
  {
    d.fields[i].ht.OneOf? && d.fields[j].ht == d.fields[i].ht && m.slots[i].Single? ==> m.slots[j].Absent?
  }

  // ---- the wire format ----

  // PB_WT_VARINT, PB_WT_64BIT, PB_WT_STRING, PB_WT_32BIT
  function WireType(lt: LType): (w: nat)
    ensures w <= 5
  {
    match lt
    case Fixed64 => 1
    case Fixed32 => 5
    case BytesOf(_) => 2
    case CString(_) => 2
    case Submessage(_) => 2
    case FixedBytes(_) => 2
    case _ => 0
  }

  predicate Packable(lt: LType) {
    lt.Bool? || lt.Varint? || lt.Uvarint? || lt.Svarint? || lt.Fixed32? || lt.Fixed64?
  }

  // A signed number as the unsigned 64-bit one with the same bits.
  function Unsigned64(i: int): (x: nat)
    requires 0 <= i + TWO63 && i < LIMIT64
    ensures x < LIMIT64
  {
    if i < 0 then i + LIMIT64 else i
  }

  function ZigZag(i: int): (x: nat)
    requires 0 <= i + TWO63 < LIMIT64
    ensures x < LIMIT64
  {
    if i < 0 then -2 * i - 1 else 2 * i
  }

  // A number that stands for a tagged field: field number and wire type.
  function Key(tag: nat, wt: nat): nat {
    tag * 8 + wt
  }

  /** One record on the wire: the field's place, and its value, or the values of
      a packed array. */
  datatype Record = Record(i: nat, packed: bool, vs: seq<Value>)

  predicate RecordOk(d: Desc, r: Record) {
    r.i < |d.fields| && ValuesOk(Shaped, d.fields[r.i].lt, r.vs)
  }

  predicate RecordsOk(d: Desc, rs: seq<Record>) {
    forall n | 0 <= n < |rs| :: RecordOk(d, rs[n])
  }

  /** pb_check_proto3_default_value: without a flag, a value that is zero all through
      is not written. Of a union each field answers for itself. */
  predicate ZeroSlot(f: Field, s: Slot)
    decreases f, 0
  {
    match s
    case Absent => true
    case Many(vs) => vs == []
    case Single(v) => f.ht.Implicit? && ZeroValue(f.lt, v)
  }

  predicate ZeroValue(lt: LType, v: Value)
    decreases lt, 0
  {
    match v
    case Int(i) => i == 0
    case Blob(b) => b == []
    case Message(m) => lt.Submessage? && ZeroMsg(lt.sub, m)
  }

  predicate ZeroMsg(d: Desc, m: Msg)
    decreases d, 1
  {
    |m.slots| == |d.fields| && forall i | 0 <= i < |d.fields| :: ZeroField(d, m, i)
  }

  predicate ZeroField(d: Desc, m: Msg, i: nat)
    requires i < |d.fields| == |m.slots|
    decreases d, 0
  {
    ZeroSlot(d.fields[i], m.slots[i])
  }

  /** The records of a slot: none when absent or implicitly so, one for each element of an array,
      or one for the whole array when its elements can be packed. */
  function SlotRecords(f: Field, i: nat, s: Slot): (rs: seq<Record>) {
    match s
    case Absent => []
    case Single(v) => if ZeroSlot(f, s) then [] else [Record(i, false, [v])]
    case Many(vs) =>
      if vs == [] then [] else if Packable(f.lt) then [Record(i, true, vs)]
      else seq(|vs|, j requires 0 <= j < |vs| => Record(i, false, [vs[j]]))
  }

  function RecordsFrom(d: Desc, m: Msg, i: nat): (rs: seq<Record>)
    requires |m.slots| == |d.fields| && i <= |d.fields|
    decreases |d.fields| - i
  {
    if i == |d.fields| then [] else SlotRecords(d.fields[i], i, m.slots[i]) + RecordsFrom(d, m, i + 1)
  }

  lemma SlotRecordsOk(d: Desc, i: nat, s: Slot)
    requires i < |d.fields| && SlotOk(Shaped, d.fields[i], s)
    ensures RecordsOk(d, SlotRecords(d.fields[i], i, s))
  {
    SlotRecordsShaped(d.fields[i], i, s);
  }

  lemma SlotRecordsShaped(f: Field, i: nat, s: Slot)
    requires SlotOk(Shaped, f, s)
    ensures forall n | 0 <= n < |SlotRecords(f, i, s)| ::
      ValuesOk(Shaped, f.lt, SlotRecords(f, i, s)[n].vs) && SlotRecords(f, i, s)[n].i == i
  {
    if s.Many? && !Packable(f.lt) {
      forall n | 0 <= n < |s.vs| ensures ValuesOk(Shaped, f.lt, [s.vs[n]]) {
        assert ElementOk(Shaped, f.lt, s.vs, n);
      }
    }
  }

  lemma {:induction false} RecordsFromOk(d: Desc, m: Msg, i: nat)
    requires MsgOk(Shaped, d, m) && i <= |d.fields|
    ensures RecordsOk(d, RecordsFrom(d, m, i))
    decreases |d.fields| - i
  {
    if i < |d.fields| {
      assert FieldOk(Shaped, d, m, i);
      SlotRecordsOk(d, i, m.slots[i]);
      RecordsFromOk(d, m, i + 1);
    }
  }

  function EncodeScalar(lt: LType, i: int): Bytes
    requires Packable(lt) && ValueOk(Shaped, lt, Int(i))
  {
    match lt
    case Bool => EncodeVarint(i)
    case Varint(_) => EncodeVarint(Unsigned64(i))
    case Uvarint(_) => EncodeVarint(i)
    case Svarint(_) => EncodeVarint(ZigZag(i))
    case Fixed32 => EncodeFixed32(i)
    case Fixed64 => EncodeFixed64(i)
  }

  function EncodeValue(lt: LType, v: Value): (b: Bytes)
    requires ValueOk(Shaped, lt, v)
    decreases lt, 0, 0
  {
    match lt
    case BytesOf(_) => Prefixed(v.b)
    case CString(_) => Prefixed(v.b)
    case FixedBytes(_) => Prefixed(v.b)
    case Submessage(sub) => Prefixed(EncodeMsg(sub, v.m))
    case _ => EncodeScalar(lt, v.i)
  }

  function EncodeAll(lt: LType, vs: seq<Value>): Bytes
    requires ValuesOk(Shaped, lt, vs)
    decreases lt, 2, 0
  {
    EncodeFirst(lt, vs, |vs|)
  }

  // The first n values.
  function EncodeFirst(lt: LType, vs: seq<Value>, n: nat): Bytes
    requires ValuesOk(Shaped, lt, vs) && n <= |vs|
    decreases lt, 1, n
  {
    if n == 0 then [] else EncodeFirst(lt, vs, n - 1) + EncodeNth(lt, vs, n - 1)
  }

  function EncodeNth(lt: LType, vs: seq<Value>, i: nat): Bytes
    requires ValuesOk(Shaped, lt, vs) && i < |vs|
    decreases lt, 0, 1
  {
    assert ElementOk(Shaped, lt, vs, i);
    EncodeValue(lt, vs[i])
  }

  function RecordWireType(f: Field, r: Record): nat {
    if r.packed then 2 else WireType(f.lt)
  }

  function Payload(f: Field, r: Record): Bytes
    requires ValuesOk(Shaped, f.lt, r.vs)
    decreases f, 0, 0
  {
    if r.packed then Prefixed(EncodeAll(f.lt, r.vs)) else EncodeAll(f.lt, r.vs)
  }

  function EncodeRecord(f: Field, r: Record): (b: Bytes)
    requires ValuesOk(Shaped, f.lt, r.vs)
    ensures |b| >= 1
    decreases f, 1, 0
  {
    EncodeVarint(Key(f.tag, RecordWireType(f, r))) + Payload(f, r)
  }

  /** Records one after another. */
  function Wire(d: Desc, rs: seq<Record>): Bytes
    requires RecordsOk(d, rs)
    decreases d, 1, |rs|
  {
    if rs == [] then [] else EncodeRecord(d.fields[rs[0].i], rs[0]) + Wire(d, rs[1..])
  }

  // The records of the fields from the i-th on.
  function Tail(d: Desc, m: Msg, i: nat): Bytes
    requires MsgOk(Shaped, d, m) && i <= |d.fields|
    decreases d, 2, 0
  {
    RecordsFromOk(d, m, i);
    Wire(d, RecordsFrom(d, m, i))
  }

  /** The encoding of a message: its records in field order. */
  function EncodeMsg(d: Desc, m: Msg): Bytes
    requires MsgOk(Shaped, d, m)
    decreases d, 3, 0
  {
    Tail(d, m, 0)
  }

  // ---- facts about encodings ----

  /** One field's records, one after another. */
  function FieldWire(f: Field, rs: seq<Record>): Bytes
    requires forall n | 0 <= n < |rs| :: ValuesOk(Shaped, f.lt, rs[n].vs)
  {
    FirstWire(f, rs, |rs|)
  }

  function FirstWire(f: Field, rs: seq<Record>, k: nat): Bytes
    requires (forall n | 0 <= n < |rs| :: ValuesOk(Shaped, f.lt, rs[n].vs)) && k <= |rs|
  {
    if k == 0 then [] else FirstWire(f, rs, k - 1) + EncodeRecord(f, rs[k - 1])
  }

  lemma {:induction false} WireSplit(d: Desc, i: nat, rs: seq<Record>, rest: seq<Record>)
    requires i < |d.fields| && RecordsOk(d, rs) && RecordsOk(d, rest) && forall n | 0 <= n < |rs| :: rs[n].i == i
    ensures RecordsOk(d, rs + rest)
    ensures forall n | 0 <= n < |rs| :: ValuesOk(Shaped, d.fields[i].lt, rs[n].vs)
    ensures Wire(d, rs + rest) == FieldWire(d.fields[i], rs) + Wire(d, rest)
  {
    forall n | 0 <= n < |rs| ensures ValuesOk(Shaped, d.fields[i].lt, rs[n].vs) {
      assert RecordOk(d, rs[n]);
    }
    WireSplitAt(d, i, rs, |rs|, rest);
    assert rs[..|rs|] == rs;
  }

  lemma {:induction false} WireSplitAt(d: Desc, i: nat, rs: seq<Record>, k: nat, rest: seq<Record>)
    requires i < |d.fields| && RecordsOk(d, rs) && RecordsOk(d, rest) && (forall n | 0 <= n < |rs| :: rs[n].i == i)
      && k <= |rs|
    requires forall n | 0 <= n < |rs| :: ValuesOk(Shaped, d.fields[i].lt, rs[n].vs)
    ensures RecordsOk(d, rs[..k] + rest) && Wire(d, rs[..k] + rest) == FirstWire(d.fields[i], rs, k) + Wire(d, rest)
    decreases k
  {
    if k == 0 {
      assert rs[..k] + rest == rest;
    } else {
      var last := rs[k - 1];
      assert RecordOk(d, last);
      LastFirst(rs, k, rest);
      WireSplitAt(d, i, rs, k - 1, [last] + rest);
      Reassociate(FirstWire(d.fields[i], rs, k - 1), EncodeRecord(d.fields[i], last), Wire(d, rest));
    }
  }

  lemma LastFirst(rs: seq<Record>, k: nat, rest: seq<Record>)
    requires 0 < k <= |rs|
    ensures rs[..k - 1] + ([rs[k - 1]] + rest) == rs[..k] + rest
    ensures ([rs[k - 1]] + rest)[1..] == rest && ([rs[k - 1]] + rest)[0] == rs[k - 1]
  {}

  /** What a field adds to the encoding of its message. */
  lemma FieldOfMessage(d: Desc, m: Msg, i: nat)
    requires MsgOk(Shaped, d, m) && i < |d.fields|
    ensures forall n | 0 <= n < |SlotRecords(d.fields[i], i, m.slots[i])| ::
      ValuesOk(Shaped, d.fields[i].lt, SlotRecords(d.fields[i], i, m.slots[i])[n].vs)
    ensures Tail(d, m, i) == FieldWire(d.fields[i], SlotRecords(d.fields[i], i, m.slots[i])) + Tail(d, m, i + 1)
  {
    RecordsFromOk(d, m, i);
    RecordsFromOk(d, m, i + 1);
    assert FieldOk(Shaped, d, m, i);
    SlotRecordsShaped(d.fields[i], i, m.slots[i]);
    SlotRecordsOk(d, i, m.slots[i]);
    WireSplit(d, i, SlotRecords(d.fields[i], i, m.slots[i]), RecordsFrom(d, m, i + 1));
  }

  lemma {:induction false} FixedSize(lt: LType, vs: seq<Value>, n: nat)
    requires ValuesOk(Shaped, lt, vs) && n <= |vs|
    ensures lt.Fixed32? ==> |EncodeFirst(lt, vs, n)| == 4 * n
    ensures lt.Fixed64? ==> |EncodeFirst(lt, vs, n)| == 8 * n
  {
    if n > 0 {
      FixedSize(lt, vs, n - 1);
      assert ElementOk(Shaped, lt, vs, n - 1);
    }
  }

  /** Stricter levels imply the looser ones. */
  ghost predicate AtLeast(a: Level, b: Level) {
    a == b || b.Shaped? || a.InBounds?
  }

  lemma {:induction false} WeakerValue(a: Level, b: Level, lt: LType, v: Value)
    requires AtLeast(a, b) && ValueOk(a, lt, v)
    ensures ValueOk(b, lt, v)
    decreases lt, 0
  {
    if lt.Submessage? {
      WeakerMsg(a, b, lt.sub, v.m);
    }
  }

  lemma {:induction false} WeakerSlot(a: Level, b: Level, f: Field, s: Slot)
    requires AtLeast(a, b) && SlotOk(a, f, s)
    ensures SlotOk(b, f, s)
    decreases f, 0
  {
    if s.Single? {
      WeakerValue(a, b, f.lt, s.v);
    } else if s.Many? {
      forall j | 0 <= j < |s.vs| ensures ElementOk(b, f.lt, s.vs, j) {
        assert ElementOk(a, f.lt, s.vs, j);
        WeakerValue(a, b, f.lt, s.vs[j]);
      }
    }
  }

  lemma {:induction false} WeakerMsg(a: Level, b: Level, d: Desc, m: Msg)
    requires AtLeast(a, b) && MsgOk(a, d, m)
    ensures MsgOk(b, d, m)
    decreases d, 0
  {
    forall i | 0 <= i < |d.fields| ensures FieldOk(b, d, m, i) {
      assert FieldOk(a, d, m, i);
      WeakerSlot(a, b, d.fields[i], m.slots[i]);
    }
  }

  /** What is zero breaks no bound. */
  lemma {:induction false} ZeroEncodable(lt: LType, v: Value)
    requires ZeroValue(lt, v) && ValueOk(Shaped, lt, v)
    ensures ValueOk(Encodable, lt, v)
    decreases lt, 0
  {
    if lt.Submessage? {
      forall i | 0 <= i < |lt.sub.fields| ensures FieldOk(Encodable, lt.sub, v.m, i) {
        assert ZeroField(lt.sub, v.m, i) && FieldOk(Shaped, lt.sub, v.m, i);
        ZeroSlotEncodable(lt.sub.fields[i], v.m.slots[i]);
      }
    }
  }

  lemma {:induction false} ZeroSlotEncodable(f: Field, s: Slot)
    requires ZeroSlot(f, s) && SlotOk(Shaped, f, s)
    ensures SlotOk(Encodable, f, s)
    decreases f, 0
  {
    if s.Single? {
      ZeroEncodable(f.lt, s.v);
    }
  }

  lemma OneValue(lt: LType, v: Value)
    requires ValueOk(Shaped, lt, v)
    ensures ValuesOk(Shaped, lt, [v]) && EncodeAll(lt, [v]) == EncodeValue(lt, v)
  {
    assert EncodeFirst(lt, [v], 0) == [] && EncodeNth(lt, [v], 0) == EncodeValue(lt, v);
  }
}
