/** The decoder (nanopb's pb_decode.c). Each method accepts exactly what PbParse
    says of its input, and gives what PbParse says. */
module PbDecode {
  import opened Options
  import opened Coding
  import opened PbFormat
  import opened PbCommon
  import opened PbMessages
  import opened PbRequired
  import opened PbParse
  import opened PbStreams

  // ---- scalars ----

  // The outcome of decoding a scalar from `rest`.
  twostate predicate GotScalar(s: IStream, lt: LType, rest: Bytes, ok: bool, i: int)
    requires Packable(lt)
    reads s
  {
    && s.Moved() && (ok <==> ScalarFrom(lt, rest).Some?)
    && (ok ==> i == ScalarFrom(lt, rest).value.value && s.Left(ScalarFrom(lt, rest).value.rest))
  }

  // pb_dec_bool
  method DecodeBool(s: IStream) returns (ok: bool, i: int)
    requires s.Valid()
    modifies s
    ensures GotScalar(s, Bool, old(s.Rest()), ok, i)
  {
    var value, eof;
    ok, value, eof := s.ReadVarint32();
    i := if value != 0 then 1 else 0;
  }

  // pb_dec_varint: a narrow field takes the low 32 bits, then checks its range.
  method DecodeSigned(s: IStream, w: Width) returns (ok: bool, i: int)
    requires s.Valid()
    modifies s
    ensures GotScalar(s, LType.Varint(w), old(s.Rest()), ok, i)
  {
    var value;
    ok, value := s.ReadVarint();
    i := if w == W64 then Signed64(value) else Signed32(value);
    ok := ok && 0 <= i + Half(w) < 2 * Half(w);
  }

  // pb_dec_uvarint
  method DecodeUnsigned(s: IStream, w: Width) returns (ok: bool, i: int)
    requires s.Valid()
    modifies s
    ensures GotScalar(s, Uvarint(w), old(s.Rest()), ok, i)
  {
    ok, i := s.ReadVarint();
    ok := ok && i < 2 * Half(w);
  }

  // pb_dec_svarint
  method DecodeZigZag(s: IStream, w: Width) returns (ok: bool, i: int)
    requires s.Valid()
    modifies s
    ensures GotScalar(s, Svarint(w), old(s.Rest()), ok, i)
  {
    var value;
    ok, value := s.ReadVarint();
    i := UnZigZag(value);
    ok := ok && 0 <= i + Half(w) < 2 * Half(w);
  }

  // pb_dec_fixed32 and pb_dec_fixed64
  method DecodeFixed(s: IStream, wide: bool) returns (ok: bool, i: int)
    requires s.Valid()
    modifies s
    ensures GotScalar(s, if wide then Fixed64 else Fixed32, old(s.Rest()), ok, i)
  {
    var buf;
    ok, buf := s.Read(if wide then 8 else 4);
    i := if !ok then 0 else if wide then DecodeFixed64(buf) else DecodeFixed32(buf);
  }

  method DecodeScalar(s: IStream, lt: LType) returns (ok: bool, i: int)
    requires s.Valid() && Packable(lt)
    modifies s
    ensures GotScalar(s, lt, old(s.Rest()), ok, i)
  {
    match lt
    case Bool => ok, i := DecodeBool(s);
    case Varint(w) => ok, i := DecodeSigned(s, w);
    case Uvarint(w) => ok, i := DecodeUnsigned(s, w);
    case Svarint(w) => ok, i := DecodeZigZag(s, w);
    case Fixed32 => ok, i := DecodeFixed(s, false);
    case Fixed64 => ok, i := DecodeFixed(s, true);
  }

  // ---- length-delimited values ----

  // pb_dec_bytes, pb_dec_string and pb_dec_fixed_length_bytes
  method DecodeBlob(s: IStream, lt: LType) returns (ok: bool, b: Bytes)
    requires s.Valid() && (lt.BytesOf? || lt.CString? || lt.FixedBytes?)
    modifies s
    ensures s.Moved()
    ensures ok <==> Delimited(old(s.Rest())).Some? && BlobFrom(lt, Delimited(old(s.Rest())).value.value).Some?
    ensures ok ==> b == BlobFrom(lt, Delimited(old(s.Rest())).value.value).value
    ensures ok ==> s.Left(Delimited(old(s.Rest())).value.rest)
  {
    var size, eof;
    ok, size, eof := s.ReadVarint32();
    if !ok {
      return false, [];
    }
    match lt
    case BytesOf(capacity) =>
      if size > capacity {
        return false, [];
      }
      ok, b := s.Read(size);
    case CString(dataSize) =>
      // Room for the terminator.
      if size + 1 > dataSize {
        return false, [];
      }
      ok, b := s.Read(size);
      b := Text(b);
    case FixedBytes(dataSize) =>
      if size == 0 {
        return true, Zeros(dataSize);
      }
      if size != dataSize {
        return false, [];
      }
      ok, b := s.Read(dataSize);
  }

  // ---- fields ----

  /** The decoder of a field's type, onto `dest`. */
  method DecodeValue(s: IStream, lt: LType, dest: Value) returns (ok: bool, v: Value)
    requires s.Valid() && TypeOk(lt) && ValueOk(InBounds, lt, dest)
    modifies s
    ensures s.Shrunk() && (ok <==> ValueFrom(lt, dest, old(s.Rest())).Some?)
    ensures ok ==> v == ValueFrom(lt, dest, old(s.Rest())).value.value
    ensures ok ==> s.Left(ValueFrom(lt, dest, old(s.Rest())).value.rest)
    decreases lt, 0
  {
    if Packable(lt) {
      var i;
      ok, i := DecodeScalar(s, lt);
      v := Int(i);
    } else if lt.Submessage? {
      ok, v := DecodeSubmessage(s, lt.sub, dest);
    } else {
      var b;
      ok, b := DecodeBlob(s, lt);
      v := Blob(b);
    }
  }

  // pb_dec_submessage; for an array's new element `dest` is the default.
  method DecodeSubmessage(s: IStream, d: Desc, dest: Value) returns (ok: bool, v: Value)
    requires s.Valid() && DescOk(d) && ValueOk(InBounds, Submessage(d), dest)
    modifies s
    ensures s.Shrunk() && (ok <==> ValueFrom(Submessage(d), dest, old(s.Rest())).Some?)
    ensures ok ==> v == ValueFrom(Submessage(d), dest, old(s.Rest())).value.value
    ensures ok ==> s.Left(ValueFrom(Submessage(d), dest, old(s.Rest())).value.rest)
    decreases d, 4
  {
    var substream, m;
    ok, substream := s.MakeStringSubstream();
    if !ok {
      return false, dest;
    }
    ok, m := DecodeNoinit(substream, d, dest.m);
    var closed := s.CloseStringSubstream(substream);
    return ok && closed, Message(m);
  }

  /** decode_static_field, for the field's slot. */
  method DecodeSlot(s: IStream, f: Field, wireType: nat, slot: Slot) returns (ok: bool, r: Slot)
    requires s.Valid() && FieldOfType(f) && SlotOk(InBounds, f, slot)
    modifies s
    ensures s.Shrunk() && (ok <==> SlotFrom(f, wireType, slot, old(s.Rest())).Some?)
    ensures ok ==> r == SlotFrom(f, wireType, slot, old(s.Rest())).value.value
    ensures ok ==> s.Left(SlotFrom(f, wireType, slot, old(s.Rest())).value.rest)
    decreases f, 0
  {
    DefaultValueOk(f.lt, f.init);
    var v;
    if !f.ht.Repeated? {
      var keep := slot.Single? && !f.ht.OneOf?;
      ok, v := DecodeValue(s, f.lt, if keep then slot.v else DefaultValue(f.lt, f.init));
      return ok, Single(v);
    }
    if wireType == 2 && Packable(f.lt) {
      ok, r := DecodePacked(s, f, slot);
      return;
    }
    if |slot.vs| >= f.ht.arraySize {
      return false, slot;
    }
    ok, v := DecodeValue(s, f.lt, DefaultValue(f.lt, f.init));
    r := Many(slot.vs + [v]);
  }

  /** The packed array's items while there is room; too many are refused. */
  method DecodePacked(s: IStream, f: Field, slot: Slot) returns (ok: bool, r: Slot)
    requires s.Valid() && f.ht.Repeated? && Packable(f.lt) && SlotOk(InBounds, f, slot)
    modifies s
    ensures s.Shrunk() && (ok <==> PackedFrom(f, slot, old(s.Rest())).Some?)
    ensures ok ==> r == PackedFrom(f, slot, old(s.Rest())).value.value
    ensures ok ==> s.Left(PackedFrom(f, slot, old(s.Rest())).value.rest)
  {
    var substream, status, items;
    ok, substream := s.MakeStringSubstream();
    if !ok {
      return false, slot;
    }
    status, items := DecodeItems(substream, f.lt, f.ht.arraySize, slot.vs);
    r := Many(items);
    if substream.bytesLeft != 0 {
      return false, r;
    }
    var closed := s.CloseStringSubstream(substream);
    ok := status && closed;
  }

  method DecodeItems(s: IStream, lt: LType, limit: nat, items: seq<Value>) returns (ok: bool, r: seq<Value>)
    requires s.Valid() && Packable(lt) && |items| <= limit && ValuesOk(InBounds, lt, items)
    modifies s
    ensures s.Moved()
    ensures ok && s.bytesLeft == 0 <==> ItemsFrom(lt, limit, items, old(s.Rest())).Some?
    ensures ok && s.bytesLeft == 0 ==> r == ItemsFrom(lt, limit, items, old(s.Rest())).value
  {
    r := items;
    while s.bytesLeft > 0 && |r| < limit
      invariant s.Moved() && |r| <= limit && ValuesOk(InBounds, lt, r)
      invariant ItemsFrom(lt, limit, items, old(s.Rest())) == ItemsFrom(lt, limit, r, s.Rest())
      decreases limit - |r|
    {
      var i;
      ok, i := DecodeScalar(s, lt);
      if !ok {
        return;
      }
      OneOk(InBounds, lt, Int(i));
      Join(lt, r, [Int(i)]);
      r := r + [Int(i)];
    }
    ok := true;
  }

  // ---- messages ----

  // Goes on to the end of the description, counting required fields.
  method CountRequired(iter: FieldIter) returns (count: nat)
    requires iter.Valid()
    modifies iter
    ensures count == RequiredBefore(iter.fields, |iter.fields|)
  {
    var lastRequired := false;
    count := 0;
    var more := true;
    while more
      invariant iter.Valid()
      invariant !more && iter.fields != [] ==> count == RequiredBefore(iter.fields, |iter.fields| - 1)
      invariant !more && iter.fields != [] ==> (lastRequired <==> iter.fields[|iter.fields| - 1].ht.Required?)
      invariant !more && iter.fields == [] ==> count == 0
      decreases more, if more then |iter.fields| - iter.pos else 0
    {
      count := iter.requiredFieldIndex;
      lastRequired := iter.pos < |iter.fields| && iter.fields[iter.pos].ht.Required?;
      more := iter.Next();
    }
    if iter.fields != [] && lastRequired {
      count := count + 1;
    }
  }

  /** One turn of the loop: an unknown field is skipped, a known one decoded onto
      its slot and its bit set. */
  method Turn(s: IStream, d: Desc, iter: FieldIter, dest: Msg, words: seq<nat>, ghost seen: set<nat>)
    returns (ok: bool, eof: bool, r: Msg, words': seq<nat>, ghost seen': set<nat>)
    requires s.Valid() && s.bytesLeft > 0 && DescOk(d) && MsgOk(InBounds, d, dest)
    requires iter.Valid() && iter.fields == d.fields && Tracks(words, d, seen)
    modifies s, iter
    ensures s.Shrunk() && iter.Valid() && Tracks(words', d, seen')
    ensures ok ==> s.Moved() && s.bytesLeft < old(s.bytesLeft) && MsgOk(InBounds, d, r)
    ensures ok ==> FieldsFrom(d, dest, seen, old(s.Rest())) == FieldsFrom(d, r, seen', s.Rest())
    ensures eof ==> !ok && FieldsFrom(d, dest, seen, old(s.Rest())) == Some(Decoded(r, seen', s.Rest())) && s.Moved()
    ensures !ok && !eof ==> FieldsFrom(d, dest, seen, old(s.Rest())) == None
    decreases d, 2
  {
    r, words', seen' := dest, words, seen;
    var wireType, tag, found;
    ok, wireType, tag, eof := s.DecodeTag();
    if !ok {
      return;
    }
    found := iter.Find(tag);
    if !found {
      ok := s.SkipField(wireType);
      return;
    }
    if d.fields == [] {
      // The terminator is taken for a required bool; what is written at the
      // structure's address is no part of the structure, nor its bit looked at.
      var value, end;
      ok, value, end := s.ReadVarint32();
      return;
    }
    TagsDistinct(d);
    assert HasTagAt(d, tag, iter.pos) && FieldTypeOk(d, iter.pos) && FieldOk(InBounds, d, dest, iter.pos);
    words' := Note(words, d, iter.pos, iter.requiredFieldIndex, seen);
    seen' := seen + {iter.pos};
    var slot;
    ok, slot := DecodeSlot(s, d.fields[iter.pos], wireType, dest.slots[iter.pos]);
    if ok {
      PutOk(d, dest, iter.pos, slot);
      r := PutField(d, dest, iter.pos, slot);
    }
  }

  /** pb_decode_noinit: decodes onto what is there. */
  method DecodeNoinit(s: IStream, d: Desc, dest: Msg) returns (ok: bool, r: Msg)
    requires s.Valid() && DescOk(d) && MsgOk(InBounds, d, dest)
    modifies s
    ensures s.Shrunk() && (ok <==> MessageFrom(d, dest, old(s.Rest())).Some?)
    ensures ok ==> r == MessageFrom(d, dest, old(s.Rest())).value && s.Moved()
    decreases d, 3
  {
    var iter := new FieldIter(d.fields);
    var fieldsSeen, eof := [0, 0], false;
    ghost var seen := {};
    NothingSeen(d);
    r := dest;
    while s.bytesLeft > 0
      invariant s.Moved() && iter.Valid() && iter.fields == d.fields && fresh(iter)
      invariant MsgOk(InBounds, d, r) && Tracks(fieldsSeen, d, seen)
      invariant FieldsFrom(d, dest, {}, old(s.Rest())) == FieldsFrom(d, r, seen, s.Rest())
      decreases s.bytesLeft
    {
      ok, eof, r, fieldsSeen, seen := Turn(s, d, iter, r, fieldsSeen, seen);
      if !ok {
        if eof {
          break;
        }
        return;
      }
    }
    var count := CountRequired(iter);
    ok := Check(fieldsSeen, d, count, seen);
    SeenByField(d, seen);
  }

  /** pb_decode: onto defaults. */
  method Decode(s: IStream, d: Desc) returns (ok: bool, r: Msg)
    requires s.Valid() && DescOk(d)
    modifies s
    ensures MsgOk(InBounds, d, DefaultMsg(d)) && s.Shrunk()
    ensures ok <==> MessageFrom(d, DefaultMsg(d), old(s.Rest())).Some?
    ensures ok ==> r == MessageFrom(d, DefaultMsg(d), old(s.Rest())).value
  {
    DefaultOk(d);
    ok, r := DecodeNoinit(s, d, DefaultMsg(d));
  }
}
