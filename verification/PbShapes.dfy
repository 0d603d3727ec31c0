/** What the bytes of a field look like to any reader of Protocol Buffers, whether
    it knows the field or not (the encoding's wire types). */
module PbShapes {
  import opened Options
  import opened Coding
  import opened WireLaws
  import opened PbFormat
  import opened PbMessages
  import opened PbParse
  import opened PbVarints
  import opened PbStore

  // ---- payloads ----

  // l is a varint that says n.
  ghost predicate LengthIs(l: Bytes, n: nat) {
    Varint32(l) == Some(Rest(n, []))
  }

  /** What a field of each wire type is made of: 0 a varint, 1 eight bytes, 2 a
      length and that many bytes, 5 four bytes. There are no others. */
  ghost predicate Filled(wireType: nat, p: Bytes) {
    match wireType
    case 0 => IsVarint(p)
    case 1 => |p| == 8
    case 2 => exists l, c: Bytes :: p == l + c && LengthIs(l, |c|)
    case 5 => |p| == 4
    case _ => false
  }

  lemma {:induction false} VarintSkipped(p: Bytes, tail: Bytes)
    requires IsVarint(p)
    ensures SkipVarint(p + tail) == Some(tail)
  {
    assert (p + tail)[1..] == p[1..] + tail;
    if |p| > 1 {
      ShorterVarint(p);
      VarintSkipped(p[1..], tail);
    } else {
      assert p[1..] + tail == tail;
    }
  }

  lemma ShorterVarint(p: Bytes)
    requires IsVarint(p) && |p| > 1
    ensures IsVarint(p[1..])
  {
    forall j | 0 <= j < |p| - 2 ensures p[1..][j] >= 128 {
      assert p[j + 1] >= 128;
    }
  }

  lemma LengthExtends(l: Bytes, c: Bytes, tail: Bytes)
    requires LengthIs(l, |c|)
    ensures Delimited(l + c + tail) == Some(Rest(c, tail))
  {
    Varint32Extends(l, c + tail);
    Reassociate(l, c, tail);
    NoneBefore(c + tail);
    After(c, tail);
  }

  /** A field of any of these shapes is passed over, whatever follows it. */
  lemma FilledSkipped(wireType: nat, p: Bytes, tail: Bytes)
    requires Filled(wireType, p)
    ensures Skip(wireType, p + tail) == Some(tail)
  {
    match wireType
    case 0 => VarintSkipped(p, tail);
    case 1 => assert (p + tail)[8..] == tail;
    case 2 =>
      var l, c :| p == l + c && LengthIs(l, |c|);
      LengthExtends(l, c, tail);
    case 5 => assert (p + tail)[4..] == tail;
    case _ =>
  }

  lemma {:induction false} SkippedVarint(p: Bytes)
    requires SkipVarint(p) == Some([])
    ensures IsVarint(p)
  {
    if p[0] >= 128 {
      SkippedVarint(p[1..]);
      LongerVarint(p, p[1..]);
    }
  }

  /** And nothing else is. */
  lemma SkippedFilled(wireType: nat, p: Bytes)
    requires Skip(wireType, p) == Some([])
    ensures Filled(wireType, p)
  {
    match wireType
    case 0 => SkippedVarint(p);
    case 1 => assert p[8..] == [];
    case 2 =>
      var n := Varint32(p).value;
      var l, c := p[..|p| - |n.rest|], n.rest;
      LengthAlone(p);
      assert n.rest[n.value..] == [];
      assert p == l + c;
    case 5 => assert p[4..] == [];
    case _ =>
  }

  lemma HeadCut(b: Bytes, n: nat)
    requires 0 < n <= |b|
    ensures b[..n][1..] == b[1..][..n - 1] && b[..n][0] == b[0]
  {}

  // A length reads the same without what follows it.
  lemma LengthAlone(p: Bytes)
    requires Varint32(p).Some?
    ensures var r := Varint32(p).value; p == p[..|p| - |r.rest|] + r.rest && LengthIs(p[..|p| - |r.rest|], r.value)
  {
    if p[0] >= 128 {
      Longer32Alone(p[1..], 7, p[0] - 128);
      var rest := Varint32(p).value.rest;
      HeadCut(p, |p| - |rest|);
    } else {
      assert p[..1][1..] == [];
    }
  }

  lemma {:induction false} Longer32Alone(b: Bytes, bitpos: nat, result: nat)
    requires result < LIMIT32 && Longer32(b, bitpos, result).Some?
    ensures var r := Longer32(b, bitpos, result).value;
      b == b[..|b| - |r.rest|] + r.rest && Longer32(b[..|b| - |r.rest|], bitpos, result) == Some(Rest(r.value, []))
    decreases |b|
  {
    var r := Longer32(b, bitpos, result).value;
    var x := if bitpos >= 32 then result else Or(result, ShiftLeft(b[0] % 128, bitpos)) % LIMIT32;
    if b[0] >= 128 {
      Longer32Alone(b[1..], (bitpos + 7) % 256, x);
      HeadCut(b, |b| - |r.rest|);
    } else {
      assert b[..1][1..] == [];
    }
  }

  lemma PrefixedFilled(c: Bytes)
    requires |c| < LIMIT32
    ensures Filled(2, Prefixed(c))
  {
    Varint32Back(|c|, []);
    NoneAfter(EncodeVarint(|c|));
    assert LengthIs(EncodeVarint(|c|), |c|);
  }

  // ---- the numbers sent ----

  /** A number is sent as a varint x or in its fixed width: unsigned as it is, signed
      modulo 2^64; and with zigzag even numbers stand for i >= 0 and odd ones for
      i < 0, with half of x, rounded down, i or -i - 1. */
  lemma NumberSent(lt: LType, i: int) returns (x: nat)
    requires Packable(lt) && ValueOk(Shaped, lt, Int(i))
    ensures x < LIMIT64
    ensures EncodeScalar(lt, i) == if lt.Fixed32? then LittleEndian(x, 4) else if lt.Fixed64? then LittleEndian(x, 8)
      else EncodeVarint(x)
    ensures lt.Bool? || lt.Uvarint? || lt.Fixed32? || lt.Fixed64? ==> x == i
    ensures lt.Varint? ==> (x - i) % LIMIT64 == 0
    ensures lt.Svarint? ==> (x % 2 == 0 <==> i >= 0) && x / 2 == if i >= 0 then i else -i - 1
  {
    match lt
    case Varint(_) => x := Unsigned64(i);
    case Svarint(_) => x := ZigZag(i);
    case Fixed32 =>
      Fixed32Digits(i);
      x := i;
    case Bool => x := i;
    case Uvarint(_) => x := i;
    case Fixed64 => x := i;
  }

  // ---- records ----

  lemma ScalarFilled(lt: LType, i: int)
    requires Packable(lt) && ValueOk(Shaped, lt, Int(i))
    ensures Filled(WireType(lt), EncodeScalar(lt, i))
  {
    var x := NumberSent(lt, i);
    VarintDigits(x, 0);
  }

  lemma ValueFilled(lt: LType, v: Value)
    requires ValueOk(Shaped, lt, v) && ValueSmall(lt, v)
    ensures Filled(WireType(lt), EncodeValue(lt, v))
  {
    if Packable(lt) {
      ScalarFilled(lt, v.i);
    } else if lt.Submessage? {
      PrefixedFilled(EncodeMsg(lt.sub, v.m));
    } else {
      PrefixedFilled(v.b);
    }
  }

  lemma RecordFilled(f: Field, r: Record)
    requires ValuesOk(Shaped, f.lt, r.vs) && FieldSmall(f, r) && (if r.packed then Packable(f.lt) else |r.vs| == 1)
    ensures Filled(RecordWireType(f, r), Payload(f, r))
  {
    if r.packed {
      PrefixedFilled(EncodeAll(f.lt, r.vs));
    } else {
      assert ElementOk(Shaped, f.lt, r.vs, 0) && ElementSmall(f.lt, r.vs, 0) && r.vs == [r.vs[0]];
      OneValue(f.lt, r.vs[0]);
      ValueFilled(f.lt, r.vs[0]);
    }
  }

  /** Every record begins with its field's number times eight and a wire type, and
      goes on as that wire type asks: a reader need not know the field. */
  lemma RecordShape(f: Field, r: Record) returns (wireType: nat, payload: Bytes)
    requires ValuesOk(Shaped, f.lt, r.vs) && FieldSmall(f, r) && (if r.packed then Packable(f.lt) else |r.vs| == 1)
    ensures EncodeRecord(f, r) == EncodeVarint(8 * f.tag + wireType) + payload
    ensures wireType in {0, 1, 2, 5} && Filled(wireType, payload)
  {
    wireType, payload := RecordWireType(f, r), Payload(f, r);
    RecordFilled(f, r);
  }

  // ---- numbers read ----

  predicate Fits(lt: LType, i: int)
    requires lt.Varint? || lt.Uvarint? || lt.Svarint?
  {
    if lt.Uvarint? then 0 <= i < 2 * Half(lt.w) else 0 <= i + Half(lt.w) < 2 * Half(lt.w)
  }

  lemma Meant(lt: LType, x: nat) returns (i: int)
    requires (lt.Varint? || lt.Uvarint? || lt.Svarint?) && x < LIMIT64
    ensures i == FromVarint(lt, x)
    ensures lt.Uvarint? ==> i == x
    ensures lt.Varint? && lt.w == W64 ==> (i - x) % LIMIT64 == 0 && 0 <= i + TWO63 < LIMIT64
    ensures lt.Varint? && lt.w != W64 ==> (i - x) % LIMIT32 == 0 && 0 <= i + TWO31 < LIMIT32
    ensures lt.Svarint? ==> (x % 2 == 0 <==> i >= 0) && x / 2 == if i >= 0 then i else -i - 1
  {
    i := FromVarint(lt, x);
  }

  /** Which number any varint stands for, and that it is accepted exactly when it fits:
      unsigned the varint itself, signed the number with its low 64 bits, or its low 32
      bits in a narrower field, and with zigzag as it is sent. */
  lemma NumberRead(lt: LType, x: nat, tail: Bytes) returns (i: int)
    requires (lt.Varint? || lt.Uvarint? || lt.Svarint?) && x < LIMIT64
    ensures lt.Uvarint? ==> i == x
    ensures lt.Varint? && lt.w == W64 ==> (i - x) % LIMIT64 == 0 && 0 <= i + TWO63 < LIMIT64
    ensures lt.Varint? && lt.w != W64 ==> (i - x) % LIMIT32 == 0 && 0 <= i + TWO31 < LIMIT32
    ensures lt.Svarint? ==> (x % 2 == 0 <==> i >= 0) && x / 2 == if i >= 0 then i else -i - 1
    ensures ScalarFrom(lt, EncodeVarint(x) + tail) == if Fits(lt, i) then Some(Rest(i, tail)) else None
  {
    Varint64RoundTrip(x, tail);
    i := Meant(lt, x);
  }

  /** Of a bool only whether it is zero counts. */
  lemma BoolRead(x: nat, tail: Bytes)
    requires x < LIMIT32
    ensures ScalarFrom(Bool, EncodeVarint(x) + tail) == Some(Rest(if x == 0 then 0 else 1, tail))
  {
    Varint32Back(x, tail);
  }

  // ---- which records a field has ----

  // Zero as proto3 means it, of a number or a string.
  predicate IsZeroScalar(v: Value) {
    v == Int(0) || v == Blob([])
  }

  /** A field that is absent, an empty array, or zero without a flag is not sent. */
  lemma NothingSent(f: Field, i: nat, s: Slot)
    requires SlotOk(Shaped, f, s)
    requires s.Absent? || s == Many([]) || (s.Single? && f.ht.Implicit? && IsZeroScalar(s.v))
    ensures SlotRecords(f, i, s) == [] && FieldWire(f, []) == []
  {
    if s.Single? {
      ZeroMeans(f, s.v);
    }
  }

  lemma ZeroMeans(f: Field, v: Value)
    ensures IsZeroScalar(v) ==> ZeroValue(f.lt, v) && (f.ht.Implicit? ==> ZeroSlot(f, Single(v)))
    ensures !v.Message? && !IsZeroScalar(v) ==> !ZeroValue(f.lt, v) && !ZeroSlot(f, Single(v))
    ensures !f.ht.Implicit? ==> !ZeroSlot(f, Single(v))
  {}

  /** Any other single value is sent as one record. */
  lemma SingleSent(f: Field, i: nat, s: Slot)
    requires SlotOk(Shaped, f, s) && s.Single? && ValueOk(Shaped, f.lt, s.v)
    requires f.ht.Implicit? ==> !s.v.Message? && !IsZeroScalar(s.v)
    ensures var rs := SlotRecords(f, i, s);
      |rs| == 1 && ValuesOk(Shaped, f.lt, rs[0].vs)
      && FieldWire(f, rs) == EncodeVarint(8 * f.tag + WireType(f.lt)) + EncodeValue(f.lt, s.v)
  {
    ZeroMeans(f, s.v);
    OneValue(f.lt, s.v);
    OneRecord(f, SlotRecords(f, i, s));
  }

  /** The numbers of an array are sent in one record, one after another. */
  lemma ArrayPacked(f: Field, i: nat, s: Slot)
    requires s.Many? && s.vs != [] && Packable(f.lt) && ValuesOk(Shaped, f.lt, s.vs)
    ensures var rs := SlotRecords(f, i, s);
      |rs| == 1 && ValuesOk(Shaped, f.lt, rs[0].vs)
      && FieldWire(f, rs) == EncodeVarint(8 * f.tag + 2) + Prefixed(EncodeAll(f.lt, s.vs))
  {
    OneRecord(f, SlotRecords(f, i, s));
  }

  /** The elements of any other array are sent in a record each, in order. */
  lemma ArrayUnpacked(f: Field, i: nat, s: Slot, n: nat)
    requires s.Many? && n < |s.vs| && !Packable(f.lt) && ValuesOk(Shaped, f.lt, s.vs)
    ensures var rs := SlotRecords(f, i, s);
      |rs| == |s.vs| && ValuesOk(Shaped, f.lt, rs[n].vs)
      && EncodeRecord(f, rs[n]) == EncodeVarint(8 * f.tag + WireType(f.lt)) + EncodeNth(f.lt, s.vs, n)
  {
    assert ElementOk(Shaped, f.lt, s.vs, n);
    OneValue(f.lt, s.vs[n]);
  }

  lemma OneRecord(f: Field, rs: seq<Record>)
    requires |rs| == 1 && ValuesOk(Shaped, f.lt, rs[0].vs)
    ensures FieldWire(f, rs) == EncodeRecord(f, rs[0])
  {
    assert FirstWire(f, rs, 0) == [];
    NoneBefore(EncodeRecord(f, rs[0]));
  }
}
