/** The encoder (nanopb's pb_encode.c): every method either adds exactly the
    bytes of its argument to the stream or fails because they do not fit or break
    a bound; a sizing stream only counts them. */
module PbEncode {
  import opened Options
  import opened Coding
  import opened PbFormat
  import opened PbCommon

  ghost predicate Grown(before: Bytes, after: Bytes, n: nat) {
    before <= after && |after| == |before| + n
  }

  datatype Error = StreamFull | ArrayMaxSizeExceeded | BytesSizeExceeded

  class OStream {
    // False for a stream that only counts.
    const callback: bool
    var state: Bytes
    var maxSize: nat
    var bytesWritten: nat
    var errmsg: Option<Error>

    ghost predicate Valid()
      reads this
    {
      callback ==> bytesWritten <= maxSize
    }

    constructor (callback: bool, state: Bytes, maxSize: nat)
      ensures Valid() && this.callback == callback && this.state == state && this.maxSize == maxSize
        && bytesWritten == 0
    {
      this.callback, this.state, this.maxSize, bytesWritten, errmsg := callback, state, maxSize, 0, None;
    }

    /** e was added to the stream. */
    twostate predicate Added(e: Bytes)
      reads this
    {
      && Valid() && maxSize == old(maxSize) && bytesWritten == old(bytesWritten) + |e|
      && state == if callback then old(state) + e else old(state)
    }

    /** Nothing written before was touched, every byte added since was counted, and
        the limit was kept. */
    twostate predicate Kept()
      reads this
    {
      && Valid() && maxSize == old(maxSize) && old(bytesWritten) <= bytesWritten
      && if callback then Grown(old(state), state, bytesWritten - old(bytesWritten)) else state == old(state)
    }

    /** The outcome of writing e when `can` says whether its bounds hold. */
    twostate predicate Wrote(ok: bool, can: bool, e: Bytes)
      reads this
    {
      && Valid() && maxSize == old(maxSize)
      && (ok <==> can && (callback ==> old(bytesWritten) + |e| <= maxSize))
      && if ok then Added(e) else Kept()
    }

    /** So whatever the outcome, nothing is written past the limit. */
    twostate lemma WroteKeeps(ok: bool, can: bool, e: Bytes)
      requires Wrote(ok, can, e)
      ensures Kept()
    {}

    // PB_RETURN_ERROR
    method Fail(e: Error)
      requires Valid()
      modifies this`errmsg
      ensures Valid()
    {
      errmsg := if errmsg.Some? then errmsg else Some(e);
    }

    /** A sizing stream is given no bytes, only their number. */
    method Write(buf: Bytes, count: nat, ghost e: Bytes) returns (ok: bool)
      requires Valid() && |e| == count && (callback ==> buf == e)
      modifies this
      ensures Wrote(ok, true, e)
      ensures !ok ==> state == old(state) && bytesWritten == old(bytesWritten)
    {
      if count > 0 && callback {
        if bytesWritten + count > maxSize {
          Fail(StreamFull);
          return false;
        }
        state := state + buf;
      }
      bytesWritten := bytesWritten + count;
      return true;
    }

    method EncodeVarint(value: nat) returns (ok: bool)
      requires Valid()
      modifies this
      ensures Wrote(ok, true, Coding.EncodeVarint(value))
    {
      if value <= 0x7F {
        ok := Write([value], 1, [value]);
        return;
      }
      var buffer := VarintBytes(value);
      ok := Write(buffer, |buffer|, buffer);
    }

    static method VarintBytes(value: nat) returns (buffer: Bytes)
      requires value > 0
      ensures buffer == Coding.EncodeVarint(value)
    {
      var x: nat := value;
      buffer := [];
      ghost var last: Byte := 0;
      while x > 0
        invariant x > 0 ==> Coding.EncodeVarint(value) == buffer + Coding.EncodeVarint(x)
        invariant x == 0 ==> buffer != [] && buffer[|buffer| - 1] == last + 128 && last < 128
        invariant x == 0 ==> Coding.EncodeVarint(value) == buffer[..|buffer| - 1] + [last]
      {
        last := x % 128;
        Unroll(buffer, x);
        buffer := buffer + [x % 128 + 128];
        x := x / 128;
      }
      buffer := buffer[..|buffer| - 1] + [buffer[|buffer| - 1] - 128];
    }

    method EncodeSvarint(value: int) returns (ok: bool)
      requires Valid() && 0 <= value + TWO63 < LIMIT64
      modifies this
      ensures Wrote(ok, true, Coding.EncodeVarint(if value >= 0 then 2 * value else -2 * value - 1))
    {
      // ~(value << 1) and value << 1, in 64 bits
      var zigzagged := if value < 0 then LIMIT64 - 1 - (Unsigned64(value) * 2) % LIMIT64 else value * 2;
      ok := EncodeVarint(zigzagged);
    }

    method EncodeTag(wireType: nat, tag: nat) returns (ok: bool)
      requires Valid()
      modifies this
      ensures Wrote(ok, true, Coding.EncodeVarint(Key(tag, wireType)))
    {
      ok := EncodeVarint(tag * 8 + wireType);
    }

    // pb_encode_string
    method EncodeString(b: Bytes) returns (ok: bool)
      requires Valid()
      modifies this
      ensures Wrote(ok, true, Prefixed(b))
    {
      ok := EncodeVarint(|b|);
      if ok {
        ok := Write(b, |b|, b);
      }
    }
  }

  lemma Unroll(buffer: Bytes, x: nat)
    requires x > 0
    ensures x / 128 > 0 ==> buffer + Coding.EncodeVarint(x) == buffer + [x % 128 + 128] + Coding.EncodeVarint(x / 128)
    ensures x / 128 == 0 ==> Coding.EncodeVarint(x) == [x % 128]
    ensures (buffer + [x % 128 + 128])[..|buffer|] == buffer
  {
    var b: Bytes := [x % 128 + 128];
    Reassociate(buffer, b, Coding.EncodeVarint(x / 128));
    Front(buffer, b);
  }

  lemma Front(a: Bytes, b: Bytes)
    ensures (a + b)[..|a|] == a
  {}

  // pb_enc_bool, pb_enc_varint, pb_enc_uvarint, pb_enc_svarint, pb_enc_fixed32
  // and pb_enc_fixed64
  method EncodeScalarTo(s: OStream, lt: LType, i: int) returns (ok: bool)
    requires s.Valid() && Packable(lt) && ValueOk(Shaped, lt, Int(i))
    modifies s
    ensures s.Wrote(ok, true, EncodeScalar(lt, i))
  {
    match lt
    case Bool => ok := s.EncodeVarint(if i != 0 then 1 else 0);
    case Varint(_) => ok := s.EncodeVarint(Unsigned64(i));
    case Uvarint(_) => ok := s.EncodeVarint(i);
    case Svarint(_) => ok := s.EncodeSvarint(i);
    case Fixed32 => ok := s.Write(EncodeFixed32(i), 4, EncodeFixed32(i));
    case Fixed64 => ok := s.Write(EncodeFixed64(i), 8, EncodeFixed64(i));
  }

  /** The encoder of a field's type. */
  method EncodeValueTo(s: OStream, lt: LType, v: Value) returns (ok: bool)
    requires s.Valid() && ValueOk(Shaped, lt, v)
    modifies s
    ensures s.Wrote(ok, ValueOk(Encodable, lt, v), EncodeValue(lt, v))
    decreases lt, 0, 0
  {
    match lt
    case BytesOf(capacity) =>
      if |v.b| > capacity {
        s.Fail(BytesSizeExceeded);
        return false;
      }
      ok := s.EncodeString(v.b);
    case CString(size) =>
      ok := EncodeCString(s, v.b, size);
    case Submessage(sub) =>
      ok := EncodeSubmessage(s, sub, v.m);
    case FixedBytes(_) =>
      ok := s.EncodeString(v.b);
    case _ =>
      ok := EncodeScalarTo(s, lt, v.i);
  }

  // pb_enc_string: the buffer holds b, and a terminator when b does not fill it.
  method EncodeCString(s: OStream, b: Bytes, maxSize: nat) returns (ok: bool)
    requires s.Valid() && 0 !in b && |b| <= maxSize
    modifies s
    ensures s.Wrote(ok, true, Prefixed(b))
  {
    var buffer: Bytes := if |b| < maxSize then b + [0] else b;
    var size := 0;
    while size < maxSize && buffer[size] != 0
      invariant size <= |b|
    {
      assert size < |b|;
      size := size + 1;
    }
    assert size == |b| && buffer[..size] == b;
    ok := s.EncodeString(buffer[..size]);
  }

  /** Sizes the message on a counting stream, writes the size, then the message
      through a substream limited to it. The two passes agree on the size. */
  method EncodeSubmessage(s: OStream, d: Desc, m: Msg) returns (ok: bool)
    requires s.Valid() && MsgOk(Shaped, d, m)
    modifies s
    ensures s.Wrote(ok, MsgOk(Encodable, d, m), Prefixed(EncodeMsg(d, m)))
    decreases d, 3
  {
    var sizing := new OStream(false, [], 0);
    ok := Encode(sizing, d, m);
    if !ok {
      s.errmsg := sizing.errmsg;
      return;
    }
    var size := sizing.bytesWritten;
    ok := s.EncodeVarint(size);
    if !ok {
      return;
    }
    Reassociate(old(s.state), Coding.EncodeVarint(size), EncodeMsg(d, m));
    if !s.callback {
      ok := s.Write([], size, EncodeMsg(d, m));
      return;
    }
    if s.bytesWritten + size > s.maxSize {
      s.Fail(StreamFull);
      return false;
    }
    var substream := new OStream(true, s.state, size);
    var status := Encode(substream, d, m);
    s.bytesWritten := s.bytesWritten + substream.bytesWritten;
    s.state := substream.state;
    s.errmsg := substream.errmsg;
    // "submsg size changed" cannot happen, nor any other failure.
    assert status && substream.bytesWritten == size;
    return status;
  }

  lemma {:induction false} ShorterValues(lt: LType, vs: seq<Value>, k: nat)
    requires ValuesOk(Shaped, lt, vs) && k <= |vs|
    ensures |EncodeFirst(lt, vs, k)| <= |EncodeAll(lt, vs)|
    decreases |vs| - k
  {
    if k < |vs| {
      ShorterValues(lt, vs, k + 1);
      assert EncodeFirst(lt, vs, k + 1) == EncodeFirst(lt, vs, k) + EncodeNth(lt, vs, k);
    }
  }

  // The encoding of each prefix.
  lemma Partials(lt: LType, vs: seq<Value>) returns (ps: seq<Bytes>)
    requires ValuesOk(Shaped, lt, vs)
    ensures ArePartials(lt, vs, ps) && ps[0] == [] && ps[|vs|] == EncodeAll(lt, vs)
  {
    ps := seq(|vs| + 1, n requires 0 <= n <= |vs| => EncodeFirst(lt, vs, n));
    assert forall n | 0 <= n <= |vs| :: PartialAt(lt, vs, ps, n);
  }

  ghost predicate ArePartials(lt: LType, vs: seq<Value>, ps: seq<Bytes>) {
    ValuesOk(Shaped, lt, vs) && |ps| == |vs| + 1 && forall n | 0 <= n <= |vs| :: PartialAt(lt, vs, ps, n)
  }

  ghost predicate PartialAt(lt: LType, vs: seq<Value>, ps: seq<Bytes>, n: nat)
    requires ValuesOk(Shaped, lt, vs) && n <= |vs| && |ps| == |vs| + 1
  {
    ps[n] == EncodeFirst(lt, vs, n)
  }

  // Encodes values one after another.
  method EncodeEach(s: OStream, lt: LType, vs: seq<Value>) returns (ok: bool)
    requires s.Valid() && ValuesOk(Shaped, lt, vs)
    modifies s
    ensures s.Wrote(ok, ValuesOk(Encodable, lt, vs), EncodeAll(lt, vs))
    decreases lt, 1
  {
    ghost var ps := Partials(lt, vs);
    NoneAfter(s.state);
    for i := 0 to |vs|
      invariant s.Added(ps[i]) && AllFine(lt, vs, i)
    {
      ghost var e;
      ok, e := EncodeNthTo(s, lt, vs, i, ps);
      Reassociate(old(s.state), ps[i], e);
      if !ok {
        return false;
      }
    }
    return true;
  }

  ghost predicate AllFine(lt: LType, vs: seq<Value>, n: nat)
    requires n <= |vs|
  {
    forall j | 0 <= j < n :: ElementOk(Encodable, lt, vs, j)
  }

  method EncodeNthTo(s: OStream, lt: LType, vs: seq<Value>, i: nat, ghost ps: seq<Bytes>)
    returns (ok: bool, ghost e: Bytes)
    requires s.Valid() && ValuesOk(Shaped, lt, vs) && i < |vs|
    modifies s
    ensures s.Wrote(ok, ElementOk(Encodable, lt, vs, i), e)
    requires ArePartials(lt, vs, ps)
    ensures ps[i + 1] == ps[i] + e && |ps[i + 1]| <= |ps[|vs|]|
    decreases lt, 0, 1
  {
    assert PartialAt(lt, vs, ps, i) && PartialAt(lt, vs, ps, i + 1) && PartialAt(lt, vs, ps, |vs|);
    ShorterValues(lt, vs, i + 1);
    assert ElementOk(Shaped, lt, vs, i);
    e := EncodeNth(lt, vs, i);
    ok := EncodeValueTo(s, lt, vs[i]);
  }

  /** Encodes an array: packed when its elements allow, after a sizing pass unless
      they have a fixed size; otherwise as one record for each element. */
  method EncodeArray(s: OStream, f: Field, i: nat, vs: seq<Value>) returns (ok: bool)
    requires s.Valid() && f.ht.Repeated? && ValuesOk(Shaped, f.lt, vs)
    modifies s
    ensures SlotWellFormed(f, i, Many(vs))
    ensures s.Wrote(ok, SlotOk(Encodable, f, Many(vs)), FieldWire(f, SlotRecords(f, i, Many(vs))))
    decreases f, 2
  {
    RecordsShaped(f, i, Many(vs));
    if |vs| == 0 {
      return true;
    }
    if |vs| > f.ht.arraySize {
      s.Fail(ArrayMaxSizeExceeded);
      return false;
    }
    if Packable(f.lt) {
      OneRecord(f, Record(i, true, vs));
      ok := EncodePacked(s, f, vs);
    } else {
      ok := EncodeUnpacked(s, f, i, vs);
    }
  }

  method EncodePacked(s: OStream, f: Field, vs: seq<Value>) returns (ok: bool)
    requires s.Valid() && Packable(f.lt) && ValuesOk(Shaped, f.lt, vs)
    modifies s
    ensures s.Wrote(ok, ValuesOk(Encodable, f.lt, vs),
      Coding.EncodeVarint(Key(f.tag, 2)) + Prefixed(EncodeAll(f.lt, vs)))
    decreases f, 1
  {
    ok := s.EncodeTag(2, f.tag);
    if ok {
      ScalarsFit(f.lt, vs);
      ok := EncodePackedData(s, f, vs);
    }
  }

  method EncodePackedData(s: OStream, f: Field, vs: seq<Value>) returns (ok: bool)
    requires s.Valid() && Packable(f.lt) && ValuesOk(Shaped, f.lt, vs) && ValuesOk(Encodable, f.lt, vs)
    modifies s
    ensures s.Wrote(ok, true, Prefixed(EncodeAll(f.lt, vs)))
    decreases f, 0, 1
  {
    var size;
    ok, size := PackedSize(f, vs);
    if !ok {
      return;
    }
    ok := s.EncodeVarint(size);
    if !ok {
      return;
    }
    Reassociate(old(s.state), Coding.EncodeVarint(size), EncodeAll(f.lt, vs));
    if !s.callback {
      ok := s.Write([], size, EncodeAll(f.lt, vs));
    } else {
      ok := EncodeEach(s, f.lt, vs);
    }
  }

  // Known for fixed-size elements, otherwise from a sizing pass.
  method PackedSize(f: Field, vs: seq<Value>) returns (ok: bool, size: nat)
    requires Packable(f.lt) && ValuesOk(Shaped, f.lt, vs) && ValuesOk(Encodable, f.lt, vs)
    ensures ok && size == |EncodeAll(f.lt, vs)|
    decreases f, 0, 0
  {
    FixedSize(f.lt, vs, |vs|);
    if f.lt.Fixed32? {
      return true, 4 * |vs|;
    }
    if f.lt.Fixed64? {
      return true, 8 * |vs|;
    }
    var sizing := new OStream(false, [], 0);
    ok := EncodeEach(sizing, f.lt, vs);
    size := sizing.bytesWritten;
  }

  // The encoder has no bounds to check on numbers.
  lemma ScalarsFit(lt: LType, vs: seq<Value>)
    requires Packable(lt) && ValuesOk(Shaped, lt, vs)
    ensures ValuesOk(Encodable, lt, vs)
  {
    forall j | 0 <= j < |vs| ensures ElementOk(Encodable, lt, vs, j) {
      assert ElementOk(Shaped, lt, vs, j) && ValueOk(Shaped, lt, vs[j]);
    }
  }

  method EncodeUnpacked(s: OStream, f: Field, i: nat, vs: seq<Value>) returns (ok: bool)
    requires s.Valid() && f.ht.Repeated? && !Packable(f.lt) && vs != [] && ValuesOk(Shaped, f.lt, vs)
    requires SlotWellFormed(f, i, Many(vs))
    modifies s
    ensures s.Wrote(ok, ValuesOk(Encodable, f.lt, vs), FieldWire(f, SlotRecords(f, i, Many(vs))))
    decreases f, 1
  {
    ghost var rs := SlotRecords(f, i, Many(vs));
    ghost var done: Bytes := [];
    for k := 0 to |vs|
      invariant s.Added(done) && done == FirstWire(f, rs, k) && AllFine(f.lt, vs, k)
    {
      ghost var e;
      ok, e := EncodeItem(s, f, vs, k, rs);
      Reassociate(old(s.state), done, e);
      if !ok {
        return false;
      }
      done := done + e;
    }
    return true;
  }

  method EncodeItem(s: OStream, f: Field, vs: seq<Value>, k: nat, ghost rs: seq<Record>)
    returns (ok: bool, ghost e: Bytes)
    requires s.Valid() && ValuesOk(Shaped, f.lt, vs) && k < |vs| == |rs| && !rs[k].packed && rs[k].vs == [vs[k]]
    requires forall n | 0 <= n < |rs| :: ValuesOk(Shaped, f.lt, rs[n].vs)
    modifies s
    ensures s.Wrote(ok, ElementOk(Encodable, f.lt, vs, k), e)
    ensures FirstWire(f, rs, k + 1) == FirstWire(f, rs, k) + e && |FirstWire(f, rs, k) + e| <= |FieldWire(f, rs)|
    decreases f, 0, 1
  {
    assert ElementOk(Shaped, f.lt, vs, k);
    OneValue(f.lt, vs[k]);
    ShorterRecords(f, rs, k + 1);
    e := EncodeRecord(f, rs[k]);
    assert Payload(f, rs[k]) == EncodeAll(f.lt, rs[k].vs) && rs[k].vs == [vs[k]];
    ok := EncodeTagged(s, f, vs[k]);
  }

  // A tag for the field's type, then a value.
  method EncodeTagged(s: OStream, f: Field, v: Value) returns (ok: bool)
    requires s.Valid() && ValueOk(Shaped, f.lt, v)
    modifies s
    ensures s.Wrote(ok, ValueOk(Encodable, f.lt, v),
      Coding.EncodeVarint(Key(f.tag, WireType(f.lt))) + EncodeValue(f.lt, v))
    decreases f, 0, 0
  {
    ok := s.EncodeTag(WireType(f.lt), f.tag);
    Reassociate(old(s.state), Coding.EncodeVarint(Key(f.tag, WireType(f.lt))), EncodeValue(f.lt, v));
    if ok {
      ok := EncodeValueTo(s, f.lt, v);
    }
  }

  ghost predicate SlotWellFormed(f: Field, i: nat, slot: Slot) {
    forall n | 0 <= n < |SlotRecords(f, i, slot)| :: ValuesOk(Shaped, f.lt, SlotRecords(f, i, slot)[n].vs)
  }

  lemma RecordsShaped(f: Field, i: nat, slot: Slot)
    requires SlotOk(Shaped, f, slot)
    ensures SlotWellFormed(f, i, slot)
  {
    SlotRecordsShaped(f, i, slot);
  }

  lemma OneRecord(f: Field, r: Record)
    requires ValuesOk(Shaped, f.lt, r.vs)
    ensures FieldWire(f, [r]) == EncodeRecord(f, r)
  {
    assert FirstWire(f, [r], 0) == [];
  }

  lemma {:induction false} ShorterRecords(f: Field, rs: seq<Record>, k: nat)
    requires (forall n | 0 <= n < |rs| :: ValuesOk(Shaped, f.lt, rs[n].vs)) && k <= |rs|
    ensures |FirstWire(f, rs, k)| <= |FieldWire(f, rs)|
    decreases |rs| - k
  {
    if k < |rs| {
      ShorterRecords(f, rs, k + 1);
    }
  }

  /** Whether a field whose presence is implicit is left out. */
  method IsZero(f: Field, slot: Slot) returns (zero: bool)
    requires SlotOk(Shaped, f, slot)
    ensures zero == ZeroSlot(f, slot)
    decreases f
  {
    match slot
    case Absent => zero := true;
    case Many(vs) => zero := |vs| == 0;
    case Single(v) =>
      if !f.ht.Implicit? {
        return false;
      }
      match v
      case Int(i) => zero := i == 0;
      case Blob(b) => zero := |b| == 0;
      case Message(m) => zero := AllZero(f.lt.sub, m);
  }

  method AllZero(d: Desc, m: Msg) returns (zero: bool)
    requires MsgOk(Shaped, d, m)
    ensures zero == ZeroMsg(d, m)
    decreases d
  {
    var iter := new FieldIter(d.fields);
    var more := iter.Begin();
    ghost var n := 0;
    while more
      invariant iter.Valid() && iter.fields == d.fields && n <= |d.fields|
      invariant if more then n == iter.pos else n == |d.fields|
      invariant forall i | 0 <= i < n :: ZeroField(d, m, i)
      decreases |d.fields| - n, more
    {
      assert FieldOk(Shaped, d, m, iter.pos);
      zero := IsZero(d.fields[iter.pos], m.slots[iter.pos]);
      if !zero {
        assert !ZeroField(d, m, iter.pos);
        return;
      }
      n := n + 1;
      more := iter.Next();
    }
    zero := true;
  }

  /** encode_basic_field: an absent field adds nothing. */
  method EncodeBasicField(s: OStream, f: Field, i: nat, slot: Slot) returns (ok: bool)
    requires s.Valid() && SlotOk(Shaped, f, slot)
    modifies s
    ensures SlotWellFormed(f, i, slot)
    ensures s.Wrote(ok, SlotOk(Encodable, f, slot), FieldWire(f, SlotRecords(f, i, slot)))
    decreases f, 3
  {
    RecordsShaped(f, i, slot);
    match slot
    case Absent =>
      return true;
    case Single(v) =>
      var implicitHas := true;
      if f.ht.Implicit? {
        var zero := IsZero(f, slot);
        implicitHas := !zero;
      }
      if !implicitHas {
        ZeroSlotEncodable(f, slot);
        return true;
      }
      OneValue(f.lt, v);
      OneRecord(f, Record(i, false, [v]));
      ok := EncodeTagged(s, f, v);
    case Many(vs) =>
      ok := EncodeArray(s, f, i, vs);
  }

  // What the i-th field adds.
  ghost function FieldPart(d: Desc, m: Msg, i: nat): Bytes
    requires MsgOk(Shaped, d, m) && i < |d.fields|
  {
    FieldOfMessage(d, m, i);
    FieldWire(d.fields[i], SlotRecords(d.fields[i], i, m.slots[i]))
  }

  // The first n parts, one after another.
  ghost function Sum(parts: seq<Bytes>, n: nat): Bytes
    requires n <= |parts|
  {
    if n == 0 then [] else Sum(parts, n - 1) + parts[n - 1]
  }

  /** Each tail is the next part and the next tail. */
  ghost predicate Unrolls(parts: seq<Bytes>, tails: seq<Bytes>) {
    |tails| == |parts| + 1 && forall i | 0 <= i < |parts| :: UnrollsAt(parts, tails, i)
  }

  ghost predicate UnrollsAt(parts: seq<Bytes>, tails: seq<Bytes>, i: nat)
    requires i < |parts| < |tails|
  {
    tails[i] == parts[i] + tails[i + 1]
  }

  lemma {:induction false} SumAndTail(parts: seq<Bytes>, tails: seq<Bytes>, n: nat)
    requires Unrolls(parts, tails) && n <= |parts|
    ensures Sum(parts, n) + tails[n] == tails[0] && |Sum(parts, n)| <= |tails[0]|
  {
    if n > 0 {
      SumAndTail(parts, tails, n - 1);
      assert UnrollsAt(parts, tails, n - 1);
      Reassociate(Sum(parts, n - 1), parts[n - 1], tails[n]);
    } else {
      NoneBefore(tails[0]);
    }
  }

  ghost predicate PartAt(d: Desc, m: Msg, parts: seq<Bytes>, i: nat) {
    MsgOk(Shaped, d, m) && i < |parts| == |d.fields| && parts[i] == FieldPart(d, m, i)
  }

  lemma FieldParts(d: Desc, m: Msg) returns (parts: seq<Bytes>, tails: seq<Bytes>)
    requires MsgOk(Shaped, d, m)
    ensures Unrolls(parts, tails) && |parts| == |d.fields|
    ensures tails[0] == EncodeMsg(d, m) && tails[|parts|] == []
    ensures forall i | 0 <= i < |parts| :: PartAt(d, m, parts, i)
  {
    parts := seq(|d.fields|, i requires 0 <= i < |d.fields| => FieldPart(d, m, i));
    tails := seq(|d.fields| + 1, n requires 0 <= n <= |d.fields| => Tail(d, m, n));
    forall i | 0 <= i < |parts| ensures UnrollsAt(parts, tails, i) {
      FieldOfMessage(d, m, i);
    }
    forall i | 0 <= i < |parts| ensures PartAt(d, m, parts, i) {}
    assert tails[0] == Tail(d, m, 0) && tails[|parts|] == Tail(d, m, |parts|) == [];
  }

  lemma PartialSums(parts: seq<Bytes>, tails: seq<Bytes>) returns (ps: seq<Bytes>)
    requires Unrolls(parts, tails) && tails[|parts|] == []
    ensures |ps| == |parts| + 1 && ps[0] == [] && ps[|parts|] == tails[0]
    ensures forall i | 0 <= i < |parts| :: NextSum(parts, ps, i, |tails[0]|)
  {
    ps := seq(|parts| + 1, n requires 0 <= n <= |parts| => Sum(parts, n));
    forall i | 0 <= i < |parts| ensures NextSum(parts, ps, i, |tails[0]|) {
      SumAndTail(parts, tails, i + 1);
    }
    SumAndTail(parts, tails, |parts|);
    NoneAfter(ps[|parts|]);
  }

  ghost predicate NextSum(parts: seq<Bytes>, ps: seq<Bytes>, i: nat, size: nat)
    requires i < |parts| < |ps|
  {
    ps[i + 1] == ps[i] + parts[i] && |ps[i + 1]| <= size
  }

  // What has been written after each number of fields.
  lemma FieldPartials(d: Desc, m: Msg) returns (ps: seq<Bytes>)
    requires MsgOk(Shaped, d, m)
    ensures AreFieldPartials(d, m, ps) && ps[0] == [] && ps[|d.fields|] == EncodeMsg(d, m)
  {
    var parts, tails := FieldParts(d, m);
    ps := PartialSums(parts, tails);
    forall i | 0 <= i < |parts| ensures FieldPartialAt(d, m, ps, i) {
      assert PartAt(d, m, parts, i) && NextSum(parts, ps, i, |tails[0]|);
    }
  }

  ghost predicate AreFieldPartials(d: Desc, m: Msg, ps: seq<Bytes>) {
    && MsgOk(Shaped, d, m) && |ps| == |d.fields| + 1
    && forall i | 0 <= i < |d.fields| :: FieldPartialAt(d, m, ps, i)
  }

  ghost predicate FieldPartialAt(d: Desc, m: Msg, ps: seq<Bytes>, i: nat)
    requires MsgOk(Shaped, d, m) && i < |d.fields| < |ps|
  {
    ps[i + 1] == ps[i] + FieldPart(d, m, i) && |ps[i + 1]| <= |EncodeMsg(d, m)|
  }

  // The field at the iterator.
  method EncodeField(s: OStream, d: Desc, m: Msg, i: nat, ghost ps: seq<Bytes>) returns (ok: bool, ghost e: Bytes)
    requires s.Valid() && AreFieldPartials(d, m, ps) && i < |d.fields|
    modifies s
    ensures s.Wrote(ok, FieldOk(Encodable, d, m, i), e)
    ensures ps[i + 1] == ps[i] + e && |ps[i + 1]| <= |EncodeMsg(d, m)|
    decreases d, 0
  {
    assert FieldPartialAt(d, m, ps, i);
    assert FieldOk(Shaped, d, m, i);
    e := FieldPart(d, m, i);
    ok := EncodeBasicField(s, d.fields[i], i, m.slots[i]);
  }

  /** pb_encode: exactly the message's encoding, when its bounds hold and it fits.
      */
  method Encode(s: OStream, d: Desc, m: Msg) returns (ok: bool)
    requires s.Valid() && MsgOk(Shaped, d, m)
    modifies s
    ensures s.Wrote(ok, MsgOk(Encodable, d, m), EncodeMsg(d, m))
    decreases d, 2
  {
    var iter := new FieldIter(d.fields);
    var any := iter.Begin();
    if !any {
      assert Tail(d, m, |d.fields|) == [];
      NoneAfter(s.state);
      return true;
    }
    ok := EncodeFields(s, d, m, iter);
  }

  method EncodeFields(s: OStream, d: Desc, m: Msg, iter: FieldIter) returns (ok: bool)
    requires s.Valid() && MsgOk(Shaped, d, m) && iter.Valid() && iter.fields == d.fields && iter.pos == 0
      && d.fields != []
    modifies s, iter
    ensures s.Wrote(ok, MsgOk(Encodable, d, m), EncodeMsg(d, m))
    decreases d, 1
  {
    ghost var i := 0;
    ghost var ps := FieldPartials(d, m);
    NoneAfter(s.state);
    while true
      invariant iter.Valid() && iter.fields == d.fields && i == iter.pos < |d.fields|
      invariant s.Added(ps[i]) && forall j | 0 <= j < i :: FieldOk(Encodable, d, m, j)
      decreases |d.fields| - i
    {
      ghost var e;
      ok, e := EncodeField(s, d, m, iter.pos, ps);
      Reassociate(old(s.state), ps[i], e);
      if !ok {
        return false;
      }
      i := i + 1;
      var more := iter.Next();
      if !more {
        return true;
      }
    }
  }

  /** The encoded size, which is exact: writing to a stream with that much room
      succeeds, and with less fails. */
  method GetEncodedSize(d: Desc, m: Msg) returns (size: Option<nat>)
    requires MsgOk(Shaped, d, m)
    ensures size == if MsgOk(Encodable, d, m) then Some(|EncodeMsg(d, m)|) else None
  {
    var sizing := new OStream(false, [], 0);
    var ok := Encode(sizing, d, m);
    return if ok then Some(sizing.bytesWritten) else None;
  }
}
