/** Decoding is storing: on any records, in any order and with unknown fields in
    between, the decoder does what storing them one by one does. */
module PbFold {
  import opened Options
  import opened Coding
  import opened PbFormat
  import opened PbMessages
  import opened PbRequired
  import opened PbParse
  import opened PbVarints
  import opened PbStore
  import opened PbShapes

  // ---- numbers ----

  lemma Signed64Back(i: int)
    requires 0 <= i + TWO63 < LIMIT64
    ensures Signed64(Unsigned64(i)) == i
  {}

  lemma Signed32Back(i: int)
    requires 0 <= i + TWO31 < LIMIT32
    ensures Signed32(Unsigned64(i)) == i
  {}

  lemma ZigZagBack(i: int)
    requires 0 <= i + TWO63 < LIMIT64
    ensures UnZigZag(ZigZag(i)) == i
  {}

  lemma Fixed32Back(i: Uint32, tail: Bytes)
    ensures var b := EncodeFixed32(i) + tail; DecodeFixed32(b[..4]) == i && b[4..] == tail
  {
    After(EncodeFixed32(i), tail);
    DecodeEncodeFixed32(i);
  }

  lemma Fixed64Back(i: nat, tail: Bytes)
    requires i < LIMIT64
    ensures var b := EncodeFixed64(i) + tail; DecodeFixed64(b[..8]) == i && b[8..] == tail
  {
    After(EncodeFixed64(i), tail);
    DecodeEncodeFixed64(i);
  }

  /** Every encoded number comes back, negative ones in narrow fields too. */
  lemma ScalarBack(lt: LType, i: int, tail: Bytes)
    requires Packable(lt) && ValueOk(Shaped, lt, Int(i))
    ensures ScalarFrom(lt, EncodeScalar(lt, i) + tail) == Some(Rest(i, tail))
  {
    match lt
    case Bool => Varint32Back(i, tail);
    case Varint(w) =>
      Varint64RoundTrip(Unsigned64(i), tail);
      Signed64Back(i);
      if w != W64 {
        Signed32Back(i);
      }
    case Uvarint(_) => Varint64RoundTrip(i, tail);
    case Svarint(_) =>
      Varint64RoundTrip(ZigZag(i), tail);
      ZigZagBack(i);
    case Fixed32 => Fixed32Back(i, tail);
    case Fixed64 => Fixed64Back(i, tail);
  }

  // ---- packed arrays ----

  // The values from the k-th on.
  function EncodeRest(lt: LType, vs: seq<Value>, k: nat): Bytes
    requires ValuesOk(Shaped, lt, vs) && k <= |vs|
    decreases |vs| - k
  {
    if k == |vs| then [] else EncodeNth(lt, vs, k) + EncodeRest(lt, vs, k + 1)
  }

  lemma {:induction false} ValuesFromStart(lt: LType, vs: seq<Value>, k: nat)
    requires ValuesOk(Shaped, lt, vs) && k <= |vs|
    ensures EncodeFirst(lt, vs, k) + EncodeRest(lt, vs, k) == EncodeAll(lt, vs)
    decreases |vs| - k
  {
    if k < |vs| {
      ValuesFromStart(lt, vs, k + 1);
      Reassociate(EncodeFirst(lt, vs, k), EncodeNth(lt, vs, k), EncodeRest(lt, vs, k + 1));
    } else {
      NoneAfter(EncodeFirst(lt, vs, k));
    }
  }

  lemma AllRest(lt: LType, vs: seq<Value>)
    requires ValuesOk(Shaped, lt, vs)
    ensures EncodeRest(lt, vs, 0) == EncodeAll(lt, vs)
  {
    ValuesFromStart(lt, vs, 0);
    NoneBefore(EncodeRest(lt, vs, 0));
  }

  lemma ScalarNonempty(lt: LType, i: int)
    requires Packable(lt) && ValueOk(Shaped, lt, Int(i))
    ensures |EncodeScalar(lt, i)| >= 1
  {}

  /** All the items are read when there is room, and otherwise none are. */
  lemma {:induction false} ItemsBack(lt: LType, limit: nat, items: seq<Value>, vs: seq<Value>, k: nat)
    requires Packable(lt) && |items| <= limit && ValuesOk(InBounds, lt, items) && ValuesOk(Shaped, lt, vs) && k <= |vs|
    ensures ItemsFrom(lt, limit, items, EncodeRest(lt, vs, k))
      == if |items| + |vs| - k <= limit then Some(items + vs[k..]) else None
    decreases |vs| - k
  {
    if k < |vs| {
      NextItem(lt, vs, k);
      if |items| < limit {
        ScalarBack(lt, vs[k].i, EncodeRest(lt, vs, k + 1));
        OneOk(InBounds, lt, vs[k]);
        Join(lt, items, [vs[k]]);
        ItemsBack(lt, limit, items + [vs[k]], vs, k + 1);
        MoveOver(items, vs, k);
      }
    } else {
      AllOver(items, vs);
    }
  }

  lemma NextItem(lt: LType, vs: seq<Value>, k: nat)
    requires Packable(lt) && ValuesOk(Shaped, lt, vs) && k < |vs|
    ensures vs[k].Int? && ValueOk(Shaped, lt, vs[k]) && ValueOk(InBounds, lt, vs[k]) && EncodeRest(lt, vs, k) != []
    ensures EncodeRest(lt, vs, k) == EncodeScalar(lt, vs[k].i) + EncodeRest(lt, vs, k + 1)
  {
    assert ElementOk(Shaped, lt, vs, k) && ValueOk(Shaped, lt, vs[k]);
    assert EncodeNth(lt, vs, k) == EncodeValue(lt, vs[k]) == EncodeScalar(lt, vs[k].i);
    ScalarNonempty(lt, vs[k].i);
  }

  lemma MoveOver(items: seq<Value>, vs: seq<Value>, k: nat)
    requires k < |vs|
    ensures items + [vs[k]] + vs[k + 1..] == items + vs[k..]
  {}

  lemma AllOver(items: seq<Value>, vs: seq<Value>)
    ensures items + vs[|vs|..] == items
  {}

  // ---- values and slots ----

  // A stored value or slot, with what follows it.
  function Onward<T>(r: Option<T>, tail: Bytes): Option<Rest<T>> {
    match r
    case None => None
    case Some(x) => Some(Rest(x, tail))
  }

  lemma BlobBack(lt: LType, v: Value)
    requires (lt.BytesOf? || lt.CString? || lt.FixedBytes?) && ValueOk(Shaped, lt, v)
    ensures BlobFrom(lt, v.b) == if ValueOk(InBounds, lt, v) then Some(v.b) else None
  {
    if lt.FixedBytes? && lt.size == 0 {
      assert v.b == Zeros(0);
    }
  }

  lemma {:induction false} ValueStored(lt: LType, dest: Value, v: Value, tail: Bytes)
    requires TypeOk(lt) && ValueOk(InBounds, lt, dest) && ValueOk(Shaped, lt, v) && ValueSmall(lt, v)
    ensures ValueFrom(lt, dest, EncodeValue(lt, v) + tail) == Onward(StoreValue(lt, dest, v), tail)
    decreases lt, 0
  {
    if Packable(lt) {
      ScalarBack(lt, v.i, tail);
    } else if lt.Submessage? {
      DelimitedBack(EncodeMsg(lt.sub, v.m), tail);
      MessageStored(lt.sub, dest.m, v.m);
    } else {
      DelimitedBack(v.b, tail);
      BlobBack(lt, v);
    }
  }

  lemma PackedStored(f: Field, s: Slot, r: Record, tail: Bytes)
    requires f.ht.Repeated? && Packable(f.lt) && SlotOk(InBounds, f, s) && FieldOfType(f)
    requires r.packed && r.vs != [] && ValuesOk(Shaped, f.lt, r.vs) && FieldSmall(f, r)
    ensures PackedFrom(f, s, Payload(f, r) + tail) == Onward(StoreSlot(f, s, r), tail)
  {
    DelimitedBack(EncodeAll(f.lt, r.vs), tail);
    AllRest(f.lt, r.vs);
    ItemsBack(f.lt, f.ht.arraySize, s.vs, r.vs, 0);
    assert r.vs[0..] == r.vs;
  }

  lemma {:induction false} SlotStored(f: Field, s: Slot, r: Record, tail: Bytes)
    requires FieldOfType(f) && SlotOk(InBounds, f, s) && ValuesOk(Shaped, f.lt, r.vs) && r.vs != [] && FieldSmall(f, r)
    requires if r.packed then f.ht.Repeated? && Packable(f.lt) else |r.vs| == 1
    ensures SlotFrom(f, RecordWireType(f, r), s, Payload(f, r) + tail) == Onward(StoreSlot(f, s, r), tail)
    decreases f, 0
  {
    if r.packed {
      PackedStored(f, s, r, tail);
    } else {
      assert ElementOk(Shaped, f.lt, r.vs, 0) && ElementSmall(f.lt, r.vs, 0) && r.vs == [r.vs[0]];
      OneValue(f.lt, r.vs[0]);
      DefaultValueOk(f.lt, f.init);
      var dest := if !f.ht.Repeated? && s.Single? && !f.ht.OneOf? then s.v else DefaultValue(f.lt, f.init);
      ValueStored(f.lt, dest, r.vs[0], tail);
    }
  }

  // ---- whole inputs ----

  /** What an input is made of: records of known fields, and fields nobody knows. */
  datatype Item = Known(r: Record) | Unknown(tag: nat, wireType: nat, payload: Bytes)

  ghost predicate ItemOk(d: Desc, it: Item) {
    match it
    case Known(r) => RecordFits(d, r) && FieldSmall(d.fields[r.i], r)
    case Unknown(tag, wireType, payload) =>
      && !HasTag(d, tag) && (d.fields == [] ==> tag != 0) && 0 < 8 * tag + wireType < LIMIT32
      && Filled(wireType, payload)
  }

  ghost predicate ItemsOk(d: Desc, items: seq<Item>) {
    forall n | 0 <= n < |items| :: ItemOk(d, items[n])
  }

  function ItemBytes(d: Desc, it: Item): Bytes
    requires it.Known? ==> RecordOk(d, it.r)
  {
    match it
    case Known(r) => EncodeRecord(d.fields[r.i], r)
    case Unknown(tag, wireType, payload) => EncodeVarint(8 * tag + wireType) + payload
  }

  ghost function ItemsBytes(d: Desc, items: seq<Item>): Bytes
    requires ItemsOk(d, items)
  {
    if items == [] then [] else ItemBytes(d, items[0]) + ItemsBytes(d, items[1..])
  }

  /** Storing the known records, one by one, in their order. */
  ghost function StoreItems(d: Desc, dest: Msg, items: seq<Item>): (m: Option<Msg>)
    requires DescOk(d) && MsgOk(InBounds, d, dest) && ItemsOk(d, items)
    ensures m.Some? ==> MsgOk(InBounds, d, m.value)
    decreases |items|
  {
    if items == [] then Some(dest)
    else match items[0]
      case Unknown(_, _, _) => StoreItems(d, dest, items[1..])
      case Known(r) => match StoreRecord(d, dest, r)
        case None => None
        case Some(m) => StoreItems(d, m, items[1..])
  }

  // The fields that occur.
  function Occurring(items: seq<Item>): set<nat> {
    if items == [] then {} else (if items[0].Known? then {items[0].r.i} else {}) + Occurring(items[1..])
  }

  // Storing, as an outcome of decoding.
  ghost function Outcome(m: Option<Msg>, seen: set<nat>): Option<Decoded> {
    match m
    case None => None
    case Some(x) => Some(Decoded(x, seen, []))
  }

  /** A field whose tag the description does not have is passed over, whatever its
      payload is and whatever follows it. */
  lemma UnknownSkipped(d: Desc, dest: Msg, seen: set<nat>, tag: nat, wireType: nat, payload: Bytes, tail: Bytes)
    requires DescOk(d) && MsgOk(InBounds, d, dest) && !HasTag(d, tag) && (d.fields == [] ==> tag != 0)
    requires 0 < 8 * tag + wireType < LIMIT32 && Filled(wireType, payload)
    ensures FieldsFrom(d, dest, seen, EncodeVarint(8 * tag + wireType) + payload + tail)
      == FieldsFrom(d, dest, seen, tail)
  {
    TagBack(tag, wireType, payload + tail);
    FilledSkipped(wireType, payload, tail);
    Reassociate(EncodeVarint(8 * tag + wireType), payload, tail);
  }

  lemma {:induction false} KnownStored(d: Desc, dest: Msg, seen: set<nat>, r: Record, tail: Bytes)
    requires DescOk(d) && MsgOk(InBounds, d, dest) && RecordFits(d, r) && FieldSmall(d.fields[r.i], r)
    ensures FieldsFrom(d, dest, seen, EncodeRecord(d.fields[r.i], r) + tail)
      == match StoreRecord(d, dest, r) {
        case None => None
        case Some(m) => FieldsFrom(d, m, seen + {r.i}, tail)
      }
    decreases d, 0
  {
    var f := d.fields[r.i];
    assert FieldTypeOk(d, r.i) && FieldOfType(f) && FieldOk(InBounds, d, dest, r.i);
    TagBack(f.tag, RecordWireType(f, r), Payload(f, r) + tail);
    Reassociate(EncodeVarint(Key(f.tag, RecordWireType(f, r))), Payload(f, r), tail);
    TagsDistinct(d);
    assert HasTagAt(d, f.tag, r.i);
    SlotStored(f, dest.slots[r.i], r, tail);
  }

  /** The decoder's loop folds the storing step over the records. */
  lemma {:induction false} ItemsStored(d: Desc, dest: Msg, seen: set<nat>, items: seq<Item>)
    requires DescOk(d) && MsgOk(InBounds, d, dest) && ItemsOk(d, items)
    ensures FieldsFrom(d, dest, seen, ItemsBytes(d, items))
      == Outcome(StoreItems(d, dest, items), seen + Occurring(items))
    decreases d, 1, |items|
  {
    if items == [] {
      assert seen + {} == seen;
      return;
    }
    var it, rest := items[0], items[1..];
    assert ItemOk(d, it);
    match it
    case Unknown(tag, wireType, payload) =>
      UnknownSkipped(d, dest, seen, tag, wireType, payload, ItemsBytes(d, rest));
      ItemsStored(d, dest, seen, rest);
      assert Occurring(items) == {} + Occurring(rest) == Occurring(rest);
    case Known(r) =>
      KnownStored(d, dest, seen, r, ItemsBytes(d, rest));
      OneMore(items, seen);
      var stored := StoreRecord(d, dest, r);
      if stored.Some? {
        ItemsStored(d, stored.value, seen + {r.i}, rest);
      }
  }

  lemma OneMore(items: seq<Item>, seen: set<nat>)
    requires items != [] && items[0].Known?
    ensures seen + {items[0].r.i} + Occurring(items[1..]) == seen + Occurring(items)
  {}

  /** Decoding any records, in any order, with unknown fields in between: it fails
      exactly when one cannot be stored or a counted required field does not
      occur, and otherwise gives what storing them gives. */
  lemma DecodingStores(d: Desc, dest: Msg, items: seq<Item>)
    requires DescOk(d) && MsgOk(InBounds, d, dest) && ItemsOk(d, items)
    ensures MessageFrom(d, dest, ItemsBytes(d, items))
      == if AllSeen(d, Occurring(items)) then StoreItems(d, dest, items) else None
  {
    ItemsStored(d, dest, {}, items);
    assert {} + Occurring(items) == Occurring(items);
  }

  // ---- readers that do not know the fields ----

  // A record, to a reader that does not know its field.
  function Stranger(f: Field, r: Record): Item
    requires ValuesOk(Shaped, f.lt, r.vs)
  {
    Unknown(f.tag, RecordWireType(f, r), Payload(f, r))
  }

  function Strangers(d: Desc, rs: seq<Record>): seq<Item>
    requires RecordsOk(d, rs)
  {
    if rs == [] then [] else [Stranger(d.fields[rs[0].i], rs[0])] + Strangers(d, rs[1..])
  }

  ghost predicate SharesNoTag(d: Desc, d': Desc) {
    forall i | 0 <= i < |d.fields| :: !HasTag(d', d.fields[i].tag)
  }

  lemma StrangerIs(d: Desc, d': Desc, r: Record)
    requires DescOk(d) && SharesNoTag(d, d') && RecordFits(d, r) && FieldSmall(d.fields[r.i], r)
    ensures var it := Stranger(d.fields[r.i], r);
      ItemOk(d', it) && ItemBytes(d', it) == EncodeRecord(d.fields[r.i], r)
  {
    var f := d.fields[r.i];
    assert FieldTypeOk(d, r.i) && FieldOfType(f);
    RecordFilled(f, r);
  }

  lemma {:induction false} StrangersAre(d: Desc, d': Desc, dest: Msg, rs: seq<Record>)
    requires DescOk(d) && DescOk(d') && MsgOk(InBounds, d', dest) && SharesNoTag(d, d')
    requires RecordsFit(d, rs) && RecordsOk(d, rs) && RecordsSmall(d, rs)
    ensures ItemsOk(d', Strangers(d, rs)) && ItemsBytes(d', Strangers(d, rs)) == Wire(d, rs)
    ensures StoreItems(d', dest, Strangers(d, rs)) == Some(dest) && Occurring(Strangers(d, rs)) == {}
    decreases |rs|
  {
    if rs != [] {
      assert RecordFits(d, rs[0]) && RecordSmall(d, rs, 0);
      StrangerIs(d, d', rs[0]);
      forall n | 0 <= n < |rs| - 1 ensures RecordSmall(d, rs[1..], n) {
        assert RecordSmall(d, rs, n + 1);
      }
      StrangersAre(d, d', dest, rs[1..]);
      assert Strangers(d, rs)[0] == Stranger(d.fields[rs[0].i], rs[0]);
      assert Strangers(d, rs)[1..] == Strangers(d, rs[1..]);
    }
  }

  /** A reader none of whose fields are the message's passes over all of it: what it
      had stays as it was. */
  lemma StrangerSkips(d: Desc, d': Desc, dest: Msg, m: Msg)
    requires DescOk(d) && DescOk(d') && MsgOk(InBounds, d', dest) && SharesNoTag(d, d')
    requires MsgOk(Shaped, d, m) && MsgSmall(d, m)
    ensures MessageFrom(d', dest, EncodeMsg(d, m)) == if AllSeen(d', {}) then Some(dest) else None
  {
    var rs := RecordsFrom(d, m, 0);
    RecordsFromOk(d, m, 0);
    RecordsFromFit(d, m, 0);
    StrangersAre(d, d', dest, rs);
    DecodingStores(d', dest, Strangers(d, rs));
  }

  // ---- messages ----

  function Knowns(rs: seq<Record>): seq<Item> {
    if rs == [] then [] else [Known(rs[0])] + Knowns(rs[1..])
  }

  lemma {:induction false} KnownsAre(d: Desc, dest: Msg, rs: seq<Record>)
    requires DescOk(d) && MsgOk(InBounds, d, dest) && RecordsFit(d, rs) && RecordsOk(d, rs) && RecordsSmall(d, rs)
    ensures ItemsOk(d, Knowns(rs)) && ItemsBytes(d, Knowns(rs)) == Wire(d, rs)
    ensures StoreItems(d, dest, Knowns(rs)) == StoreRecords(d, dest, rs)
    decreases |rs|
  {
    if rs != [] {
      assert RecordFits(d, rs[0]) && RecordSmall(d, rs, 0);
      assert Knowns(rs)[0] == Known(rs[0]) && Knowns(rs)[1..] == Knowns(rs[1..]);
      forall n | 0 <= n < |rs| - 1 ensures RecordSmall(d, rs[1..], n) {
        assert RecordSmall(d, rs, n + 1);
      }
      KnownsAre(d, dest, rs[1..]);
      match StoreRecord(d, dest, rs[0])
      case None =>
      case Some(m) => KnownsAre(d, m, rs[1..]);
    }
  }

  lemma RequiredOccurs(f: Field, i: nat, s: Slot)
    requires f.ht.Required? && SlotOk(Shaped, f, s)
    ensures i in Occurring(Knowns(SlotRecords(f, i, s)))
  {
    OccurFirst([Record(i, false, [s.v])]);
  }

  // Every required field has a record.
  lemma {:induction false} RequiredOccur(d: Desc, m: Msg, i: nat)
    requires MsgOk(Shaped, d, m) && i <= |d.fields|
    ensures forall j: nat | i <= j < |d.fields| && d.fields[j].ht.Required? ::
      j in Occurring(Knowns(RecordsFrom(d, m, i)))
    decreases |d.fields| - i
  {
    if i < |d.fields| {
      RequiredOccur(d, m, i + 1);
      assert FieldOk(Shaped, d, m, i);
      OccurJoin(SlotRecords(d.fields[i], i, m.slots[i]), RecordsFrom(d, m, i + 1));
      if d.fields[i].ht.Required? {
        RequiredOccurs(d.fields[i], i, m.slots[i]);
      }
    }
  }

  lemma {:induction false} OccurJoin(a: seq<Record>, b: seq<Record>)
    ensures Occurring(Knowns(a + b)) == Occurring(Knowns(a)) + Occurring(Knowns(b))
  {
    if a == [] {
      assert a + b == b;
    } else {
      assert (a + b)[0] == a[0] && (a + b)[1..] == a[1..] + b;
      OccurJoin(a[1..], b);
      OccurFirst(a);
      OccurFirst(a + b);
    }
  }

  lemma OccurFirst(rs: seq<Record>)
    requires rs != []
    ensures Occurring(Knowns(rs)) == {rs[0].i} + Occurring(Knowns(rs[1..]))
  {
    assert Knowns(rs)[0] == Known(rs[0]) && Knowns(rs)[1..] == Knowns(rs[1..]);
  }

  /** Decoding a message's encoding onto a structure merges the message into it. */
  lemma {:induction false} MessageStored(d: Desc, dest: Msg, m: Msg)
    requires DescOk(d) && MsgOk(InBounds, d, dest) && MsgOk(Shaped, d, m) && MsgSmall(d, m)
    ensures MessageFrom(d, dest, EncodeMsg(d, m)) == StoreMsg(d, dest, m)
    decreases d, 2
  {
    var rs := RecordsFrom(d, m, 0);
    RecordsFromOk(d, m, 0);
    RecordsFromFit(d, m, 0);
    KnownsAre(d, dest, rs);
    ItemsStored(d, dest, {}, Knowns(rs));
    RequiredOccur(d, m, 0);
  }

  lemma {:induction false} WireJoin(d: Desc, a: seq<Record>, b: seq<Record>)
    requires RecordsOk(d, a) && RecordsOk(d, b)
    ensures RecordsOk(d, a + b) && Wire(d, a + b) == Wire(d, a) + Wire(d, b)
    decreases |a|
  {
    if a == [] {
      NoneBefore(Wire(d, b));
      assert a + b == b;
    } else {
      assert RecordOk(d, a[0]) && (a + b)[0] == a[0] && (a + b)[1..] == a[1..] + b;
      WireJoin(d, a[1..], b);
      Reassociate(EncodeRecord(d.fields[a[0].i], a[0]), Wire(d, a[1..]), Wire(d, b));
    }
  }

  lemma SmallJoin(d: Desc, a: seq<Record>, b: seq<Record>)
    requires RecordsOk(d, a) && RecordsOk(d, b) && RecordsSmall(d, a) && RecordsSmall(d, b)
    ensures RecordsOk(d, a + b) && RecordsSmall(d, a + b)
  {
    forall n | 0 <= n < |a + b| ensures RecordSmall(d, a + b, n) {
      assert n < |a| ==> RecordSmall(d, a, n);
      assert n >= |a| ==> RecordSmall(d, b, n - |a|);
    }
  }

  /** Two encodings, one behind the other, are decoded as the first message with the
      second merged into it. */
  lemma ConcatenationMerges(d: Desc, dest: Msg, a: Msg, b: Msg)
    requires DescOk(d) && MsgOk(InBounds, d, dest) && MsgOk(Shaped, d, a) && MsgOk(Shaped, d, b)
    requires MsgSmall(d, a) && MsgSmall(d, b)
    ensures MessageFrom(d, dest, EncodeMsg(d, a) + EncodeMsg(d, b))
      == match StoreMsg(d, dest, a) {
        case None => None
        case Some(m) => StoreMsg(d, m, b)
      }
  {
    var ra, rb := RecordsFrom(d, a, 0), RecordsFrom(d, b, 0);
    RecordsFromOk(d, a, 0);
    RecordsFromOk(d, b, 0);
    RecordsFromFit(d, a, 0);
    RecordsFromFit(d, b, 0);
    WireJoin(d, ra, rb);
    SmallJoin(d, ra, rb);
    StoreJoin(d, dest, ra, rb);
    KnownsAre(d, dest, ra + rb);
    DecodingStores(d, dest, Knowns(ra + rb));
    OccurJoin(ra, rb);
    RequiredOccur(d, a, 0);
  }

  /** The round trip, as a fact about bytes: whatever the description, decoding the
      encoding of a message in bounds gives the message. */
  lemma RoundTrip(d: Desc, m: Msg)
    requires DescOk(d) && MsgOk(InBounds, d, m)
    ensures MsgOk(Shaped, d, m) && MsgOk(InBounds, d, DefaultMsg(d))
    ensures MsgSmall(d, m) ==> MessageFrom(d, DefaultMsg(d), EncodeMsg(d, m)) == Some(m)
  {
    StoreDefault(d, m);
    if MsgSmall(d, m) {
      MessageStored(d, DefaultMsg(d), m);
    }
  }
}
