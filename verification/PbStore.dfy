/** What records mean: storing them one by one. */
module PbStore {
  import opened Options
  import opened Coding
  import opened PbFormat
  import opened PbMessages

  // ---- well-formed records ----

  /** A record of a field of d: one value, or the values of a packed array. */
  ghost predicate RecordFits(d: Desc, r: Record) {
    && RecordOk(d, r) && r.vs != []
    && if r.packed then d.fields[r.i].ht.Repeated? && Packable(d.fields[r.i].lt) else |r.vs| == 1
  }

  ghost predicate RecordsFit(d: Desc, rs: seq<Record>) {
    forall n | 0 <= n < |rs| :: RecordFits(d, rs[n])
  }

  /** Each length-delimited piece has a length that fits in 32 bits. */
  ghost predicate ValueSmall(lt: LType, v: Value)
    requires ValueOk(Shaped, lt, v)
    decreases lt, 0
  {
    match v
    case Int(_) => true
    case Blob(b) => |b| < LIMIT32
    case Message(m) => lt.Submessage? && |EncodeMsg(lt.sub, m)| < LIMIT32 && MsgSmall(lt.sub, m)
  }

  ghost predicate MsgSmall(d: Desc, m: Msg)
    requires MsgOk(Shaped, d, m)
    decreases d, 2
  {
    RecordsFromOk(d, m, 0);
    RecordsSmall(d, RecordsFrom(d, m, 0))
  }

  ghost predicate RecordsSmall(d: Desc, rs: seq<Record>)
    requires RecordsOk(d, rs)
    decreases d, 1
  {
    forall n | 0 <= n < |rs| :: RecordSmall(d, rs, n)
  }

  ghost predicate RecordSmall(d: Desc, rs: seq<Record>, n: nat)
    requires RecordsOk(d, rs) && n < |rs|
    decreases d, 0
  {
    assert RecordOk(d, rs[n]);
    FieldSmall(d.fields[rs[n].i], rs[n])
  }

  ghost predicate FieldSmall(f: Field, r: Record)
    requires ValuesOk(Shaped, f.lt, r.vs)
    decreases f, 0
  {
    && (r.packed ==> |EncodeAll(f.lt, r.vs)| < LIMIT32)
    && forall j | 0 <= j < |r.vs| :: ElementSmall(f.lt, r.vs, j)
  }

  ghost predicate ElementSmall(lt: LType, vs: seq<Value>, j: nat)
    requires ValuesOk(Shaped, lt, vs) && j < |vs|
    decreases lt, 1
  {
    assert ElementOk(Shaped, lt, vs, j);
    ValueSmall(lt, vs[j])
  }

  // ---- storing ----

  /** Storing a value: out of bounds is refused, a submessage is merged into what
      is there, anything else replaces it. */
  ghost function StoreValue(lt: LType, dest: Value, v: Value): (r: Option<Value>)
    requires TypeOk(lt) && ValueOk(InBounds, lt, dest) && ValueOk(Shaped, lt, v)
    ensures r.Some? ==> ValueOk(InBounds, lt, r.value)
    decreases lt, 0, 0
  {
    if lt.Submessage? then
      match StoreMsg(lt.sub, dest.m, v.m)
      case None => None
      case Some(m) => Some(Message(m))
    else if ValueOk(InBounds, lt, v) then Some(v) else None
  }

  /** Storing a record in its slot: arrays grow up to their size, a union's field
      starts from defaults, other fields from what is there. */
  ghost function StoreSlot(f: Field, s: Slot, r: Record): (t: Option<Slot>)
    requires FieldOfType(f) && SlotOk(InBounds, f, s) && ValuesOk(Shaped, f.lt, r.vs) && r.vs != []
    requires if r.packed then f.ht.Repeated? && Packable(f.lt) else |r.vs| == 1
    ensures t.Some? ==> SlotOk(InBounds, f, t.value)
    decreases f, 0, 0
  {
    DefaultValueOk(f.lt, f.init);
    assert ElementOk(Shaped, f.lt, r.vs, 0);
    var default := DefaultValue(f.lt, f.init);
    if f.ht.Repeated? then
      if |s.vs| + |r.vs| > f.ht.arraySize then None
      else if r.packed then
        NumbersInBounds(f.lt, r.vs);
        Join(f.lt, s.vs, r.vs);
        Some(Many(s.vs + r.vs))
      else match StoreValue(f.lt, default, r.vs[0])
        case None => None
        case Some(v) =>
          OneOk(InBounds, f.lt, v);
          Join(f.lt, s.vs, [v]);
          Some(Many(s.vs + [v]))
    else match StoreValue(f.lt, if s.Single? && !f.ht.OneOf? then s.v else default, r.vs[0])
      case None => None
      case Some(v) => Some(Single(v))
  }

  ghost function StoreRecord(d: Desc, dest: Msg, r: Record): (m: Option<Msg>)
    requires DescOk(d) && MsgOk(InBounds, d, dest) && RecordFits(d, r)
    ensures m.Some? ==> MsgOk(InBounds, d, m.value)
    decreases d, 0, 0
  {
    assert FieldTypeOk(d, r.i) && FieldOk(InBounds, d, dest, r.i);
    match StoreSlot(d.fields[r.i], dest.slots[r.i], r)
    case None => None
    case Some(s) =>
      PutOk(d, dest, r.i, s);
      Some(PutField(d, dest, r.i, s))
  }

  ghost function StoreRecords(d: Desc, dest: Msg, rs: seq<Record>): (m: Option<Msg>)
    requires DescOk(d) && MsgOk(InBounds, d, dest) && RecordsFit(d, rs)
    ensures m.Some? ==> MsgOk(InBounds, d, m.value)
    decreases d, 1, |rs|
  {
    if rs == [] then Some(dest)
    else match StoreRecord(d, dest, rs[0])
      case None => None
      case Some(m) => StoreRecords(d, m, rs[1..])
  }

  /** Merging a message: storing each of its records. */
  ghost function StoreMsg(d: Desc, dest: Msg, m: Msg): (r: Option<Msg>)
    requires DescOk(d) && MsgOk(InBounds, d, dest) && MsgOk(Shaped, d, m)
    ensures r.Some? ==> MsgOk(InBounds, d, r.value)
    decreases d, 2, 0
  {
    RecordsFromFit(d, m, 0);
    StoreRecords(d, dest, RecordsFrom(d, m, 0))
  }

  // Numbers are in bounds as soon as their C types allow them.
  lemma NumbersInBounds(lt: LType, vs: seq<Value>)
    requires Packable(lt) && ValuesOk(Shaped, lt, vs)
    ensures ValuesOk(InBounds, lt, vs)
  {
    forall j | 0 <= j < |vs| ensures ElementOk(InBounds, lt, vs, j) {
      assert ElementOk(Shaped, lt, vs, j) && ValueOk(Shaped, lt, vs[j]);
    }
  }

  lemma SlotRecordsFit(d: Desc, i: nat, s: Slot)
    requires i < |d.fields| && SlotOk(Shaped, d.fields[i], s)
    ensures RecordsFit(d, SlotRecords(d.fields[i], i, s))
  {
    SlotRecordsShaped(d.fields[i], i, s);
  }

  lemma {:induction false} RecordsFromFit(d: Desc, m: Msg, i: nat)
    requires MsgOk(Shaped, d, m) && i <= |d.fields|
    ensures RecordsFit(d, RecordsFrom(d, m, i))
    decreases |d.fields| - i
  {
    if i < |d.fields| {
      assert FieldOk(Shaped, d, m, i);
      SlotRecordsFit(d, i, m.slots[i]);
      RecordsFromFit(d, m, i + 1);
    }
  }

  // ---- what storing a message's records gives ----

  lemma {:induction false} StoreJoin(d: Desc, dest: Msg, a: seq<Record>, b: seq<Record>)
    requires DescOk(d) && MsgOk(InBounds, d, dest) && RecordsFit(d, a) && RecordsFit(d, b)
    ensures RecordsFit(d, a + b)
    ensures StoreRecords(d, dest, a + b) == match StoreRecords(d, dest, a) {
      case None => None
      case Some(m) => StoreRecords(d, m, b)
    }
    decreases |a|
  {
    if a == [] {
      assert a + b == b;
    } else {
      assert (a + b)[0] == a[0] && (a + b)[1..] == a[1..] + b;
      assert RecordFits(d, a[0]);
      match StoreRecord(d, dest, a[0])
      case None =>
      case Some(m) => StoreJoin(d, m, a[1..], b);
    }
  }

  // ---- records of one field ----

  lemma PutTwice(d: Desc, m: Msg, i: nat, s: Slot, t: Slot)
    requires i < |d.fields| == |m.slots|
    ensures PutField(d, PutField(d, m, i, s), i, t) == PutField(d, m, i, t)
  {
    var p, q := PutField(d, PutField(d, m, i, s), i, t), PutField(d, m, i, t);
    forall j | 0 <= j < |m.slots| ensures p.slots[j] == q.slots[j] {}
    assert p.slots == q.slots;
  }

  lemma Replaced(f: Field, s: Slot, r: Record)
    requires FieldOfType(f) && SlotOk(InBounds, f, s) && ValuesOk(Shaped, f.lt, r.vs) && |r.vs| == 1 && !r.packed
    requires !f.ht.Repeated? && !f.lt.Submessage?
    ensures StoreSlot(f, s, r) == if ValueOk(InBounds, f.lt, r.vs[0]) then Some(Single(r.vs[0])) else None
  {
    assert ElementOk(Shaped, f.lt, r.vs, 0);
    DefaultValueOk(f.lt, f.init);
    var dest := if s.Single? && !f.ht.OneOf? then s.v else DefaultValue(f.lt, f.init);
    assert StoreValue(f.lt, dest, r.vs[0]) == if ValueOk(InBounds, f.lt, r.vs[0]) then Some(r.vs[0]) else None;
  }

  /** Of two values for a field that is no array and no submessage the last wins. */
  lemma LastWins(d: Desc, dest: Msg, r: Record, last: Record)
    requires DescOk(d) && MsgOk(InBounds, d, dest) && RecordFits(d, r) && RecordFits(d, last) && last.i == r.i
    requires !d.fields[r.i].ht.Repeated? && !d.fields[r.i].lt.Submessage?
    requires StoreRecord(d, dest, r).Some?
    ensures StoreRecord(d, StoreRecord(d, dest, r).value, last) == StoreRecord(d, dest, last)
  {
    var m := StoreRecord(d, dest, r).value;
    assert FieldTypeOk(d, r.i) && FieldOk(InBounds, d, dest, r.i) && FieldOk(InBounds, d, m, r.i);
    var f, v := d.fields[r.i], last.vs[0];
    Replaced(f, dest.slots[r.i], r);
    Replaced(f, dest.slots[r.i], last);
    Replaced(f, m.slots[r.i], last);
    assert m == PutField(d, dest, r.i, Single(r.vs[0]));
    PutTwice(d, dest, r.i, Single(r.vs[0]), Single(v));
  }

  /** A field of a union that is stored unsets the others. */
  lemma UnionSwitches(d: Desc, dest: Msg, r: Record, j: nat)
    requires DescOk(d) && MsgOk(InBounds, d, dest) && RecordFits(d, r) && StoreRecord(d, dest, r).Some?
    requires j < |d.fields| && d.fields[r.i].ht.OneOf? && d.fields[j].ht == d.fields[r.i].ht
    ensures StoreRecord(d, dest, r).value.slots[j].Single? <==> j == r.i
  {
    assert FieldTypeOk(d, r.i) && FieldOk(InBounds, d, dest, r.i);
  }

  // ---- a message stored onto defaults ----

  // A slot after k of its records.
  function PartSlot(f: Field, s: Slot, k: nat): Slot {
    if k == 0 then DefaultSlot(f)
    else if s.Many? && !Packable(f.lt) && k <= |s.vs| then Many(s.vs[..k])
    else s
  }

  /** What has been decoded after the first i fields' records and k of the next. */
  function DestAt(d: Desc, m: Msg, i: nat, k: nat): (r: Msg)
    requires |m.slots| == |d.fields|
    ensures |r.slots| == |d.fields|
  {
    Msg(seq(|d.fields|, j requires 0 <= j < |d.fields| =>
      if j < i then m.slots[j] else if j == i then PartSlot(d.fields[j], m.slots[j], k) else DefaultSlot(d.fields[j])))
  }

  lemma StartDest(d: Desc, m: Msg)
    requires |m.slots| == |d.fields|
    ensures DestAt(d, m, 0, 0) == DefaultMsg(d)
  {}

  // A slot after all of its records.
  lemma WholeSlot(f: Field, i: nat, s: Slot)
    requires SlotOk(InBounds, f, s) && FieldOfType(f)
    ensures PartSlot(f, s, |SlotRecords(f, i, s)|) == s
  {
    if s.Single? && ZeroSlot(f, s) {
      ZeroSlotIsDefault(f, s);
    } else if s.Many? && !Packable(f.lt) {
      assert s.vs[..|s.vs|] == s.vs;
    }
  }

  // A slot after storing a record's values.
  function StoredSlot(f: Field, s: Slot, vs: seq<Value>): Slot
    requires vs != [] && (f.ht.Repeated? ==> s.Many?)
  {
    if f.ht.Repeated? then Many(s.vs + vs) else Single(vs[0])
  }

  /** Storing the record at a place leads to the next place. */
  lemma RecordStored(d: Desc, m: Msg, i: nat, k: nat)
    requires MsgOk(Shaped, d, m) && i < |d.fields| && k < |SlotRecords(d.fields[i], i, m.slots[i])|
    ensures SlotRecords(d.fields[i], i, m.slots[i])[k].vs != []
      && (d.fields[i].ht.Repeated? ==> DestAt(d, m, i, k).slots[i].Many?)
    ensures var r := SlotRecords(d.fields[i], i, m.slots[i])[k];
      PutField(d, DestAt(d, m, i, k), i, StoredSlot(d.fields[i], DestAt(d, m, i, k).slots[i], r.vs))
        == DestAt(d, m, i, k + 1)
  {
    assert FieldOk(Shaped, d, m, i);
    var f, s, r := d.fields[i], m.slots[i], SlotRecords(d.fields[i], i, m.slots[i])[k];
    SlotStored(f, i, s, k);
    var before, after := DestAt(d, m, i, k), DestAt(d, m, i, k + 1);
    var put := PutField(d, before, i, StoredSlot(f, before.slots[i], r.vs));
    forall j | 0 <= j < |d.fields| ensures put.slots[j] == after.slots[j] {
      OtherSlot(d, m, i, j, k);
    }
    assert put.slots == after.slots;
  }

  lemma OtherSlot(d: Desc, m: Msg, i: nat, j: nat, k: nat)
    requires MsgOk(Shaped, d, m) && i < |d.fields| && j < |d.fields| && m.slots[i] != Absent
    ensures j != i && d.fields[i].ht.OneOf? && d.fields[j].ht == d.fields[i].ht
      ==> DestAt(d, m, i, k + 1).slots[j] == Absent
    ensures j != i ==> DestAt(d, m, i, k + 1).slots[j] == DestAt(d, m, i, k).slots[j]
  {
    assert FieldOk(Shaped, d, m, i) && FieldOk(Shaped, d, m, j);
    assert SlotOk(Shaped, d.fields[j], m.slots[j]) && SlotOk(Shaped, d.fields[i], m.slots[i]);
    if j < i {
      assert Apart(d, m, j, i);
    }
  }

  lemma SlotStored(f: Field, i: nat, s: Slot, k: nat)
    requires SlotOk(Shaped, f, s) && k < |SlotRecords(f, i, s)|
    ensures SlotRecords(f, i, s)[k].vs != [] && (f.ht.Repeated? <==> s.Many?)
      && (f.ht.Repeated? ==> PartSlot(f, s, k).Many?)
    ensures StoredSlot(f, PartSlot(f, s, k), SlotRecords(f, i, s)[k].vs) == PartSlot(f, s, k + 1)
  {
    if s.Many? && !Packable(f.lt) {
      assert s.vs[..k + 1] == s.vs[..k] + [s.vs[k]];
    }
  }

  lemma DestInBounds(d: Desc, m: Msg, i: nat, k: nat)
    requires DescOk(d) && MsgOk(InBounds, d, m)
    ensures MsgOk(InBounds, d, DestAt(d, m, i, k))
  {
    DefaultOk(d);
    var r := DestAt(d, m, i, k);
    forall j | 0 <= j < |d.fields| ensures FieldOk(InBounds, d, r, j) {
      assert FieldOk(InBounds, d, m, j) && SlotOk(InBounds, d.fields[j], m.slots[j]);
      DefaultSlotOk(d, j);
      PartInBounds(d.fields[j], m.slots[j], k);
    }
    forall j, l | 0 <= j < l < |d.fields| ensures Apart(d, r, j, l) {
      assert Apart(d, m, j, l)
        && r.slots[l] in {m.slots[l], DefaultSlot(d.fields[l]), PartSlot(d.fields[l], m.slots[l], k)};
    }
  }

  lemma PartInBounds(f: Field, s: Slot, k: nat)
    requires SlotOk(InBounds, f, s) && SlotOk(InBounds, f, DefaultSlot(f))
    ensures SlotOk(InBounds, f, PartSlot(f, s, k))
  {
    if s.Many? && !Packable(f.lt) && 0 < k <= |s.vs| {
      forall j | 0 <= j < k ensures ElementOk(InBounds, f.lt, s.vs[..k], j) {
        assert ElementOk(InBounds, f.lt, s.vs, j);
      }
    }
  }

  /** A value in bounds stored onto a default is the value. */
  lemma {:induction false} StoreValueDefault(lt: LType, init: Value, v: Value)
    requires TypeOk(lt) && ValueOk(InBounds, lt, v) && (lt.Submessage? || ValueOk(InBounds, lt, init))
    ensures ValueOk(InBounds, lt, DefaultValue(lt, init)) && ValueOk(Shaped, lt, v)
    ensures StoreValue(lt, DefaultValue(lt, init), v) == Some(v)
    decreases lt, 0
  {
    DefaultValueOk(lt, init);
    WeakerValue(InBounds, Shaped, lt, v);
    if lt.Submessage? {
      StoreDefault(lt.sub, v.m);
    }
  }

  /** So is a record of a message in bounds. */
  lemma {:induction false} StoreSlotPart(f: Field, i: nat, s: Slot, k: nat)
    requires FieldOfType(f) && SlotOk(InBounds, f, s) && SlotOk(Shaped, f, s) && k < |SlotRecords(f, i, s)|
    requires SlotOk(InBounds, f, PartSlot(f, s, k)) && ValuesOk(Shaped, f.lt, SlotRecords(f, i, s)[k].vs)
    ensures SlotRecords(f, i, s)[k].vs != []
    ensures var r := SlotRecords(f, i, s)[k];
      && (if r.packed then f.ht.Repeated? && Packable(f.lt) else |r.vs| == 1)
      && StoreSlot(f, PartSlot(f, s, k), r) == Some(PartSlot(f, s, k + 1))
    decreases f, 0
  {
    SlotStored(f, i, s, k);
    var r := SlotRecords(f, i, s)[k];
    if s.Single? {
      StoreValueDefault(f.lt, f.init, s.v);
    } else if !Packable(f.lt) {
      assert ElementOk(InBounds, f.lt, s.vs, k) && ElementOk(Shaped, f.lt, s.vs, k);
      StoreValueDefault(f.lt, f.init, s.vs[k]);
    }
  }

  lemma {:induction false} StoreOne(d: Desc, m: Msg, i: nat, k: nat)
    requires DescOk(d) && MsgOk(InBounds, d, m) && MsgOk(Shaped, d, m) && i < |d.fields|
    requires k < |SlotRecords(d.fields[i], i, m.slots[i])| && MsgOk(InBounds, d, DestAt(d, m, i, k))
    ensures RecordFits(d, SlotRecords(d.fields[i], i, m.slots[i])[k])
    ensures StoreRecord(d, DestAt(d, m, i, k), SlotRecords(d.fields[i], i, m.slots[i])[k])
      == Some(DestAt(d, m, i, k + 1))
    decreases d, 0
  {
    var f, s := d.fields[i], m.slots[i];
    assert FieldOk(InBounds, d, m, i) && FieldOk(Shaped, d, m, i) && FieldTypeOk(d, i);
    assert FieldOk(InBounds, d, DestAt(d, m, i, k), i) && SlotOk(InBounds, f, PartSlot(f, s, k));
    SlotRecordsFit(d, i, s);
    assert RecordFits(d, SlotRecords(f, i, s)[k]);
    StoreSlotPart(f, i, s, k);
    SlotStored(f, i, s, k);
    RecordStored(d, m, i, k);
  }

  lemma {:induction false} StoreField(d: Desc, m: Msg, i: nat, k: nat)
    requires DescOk(d) && MsgOk(InBounds, d, m) && MsgOk(Shaped, d, m) && i < |d.fields|
    requires k <= |SlotRecords(d.fields[i], i, m.slots[i])|
    ensures RecordsFit(d, SlotRecords(d.fields[i], i, m.slots[i])[k..]) && MsgOk(InBounds, d, DestAt(d, m, i, k))
    ensures StoreRecords(d, DestAt(d, m, i, k), SlotRecords(d.fields[i], i, m.slots[i])[k..])
      == Some(DestAt(d, m, i + 1, 0))
    decreases d, 1, |SlotRecords(d.fields[i], i, m.slots[i])| - k
  {
    var rs := SlotRecords(d.fields[i], i, m.slots[i]);
    assert FieldOk(Shaped, d, m, i) && FieldOk(InBounds, d, m, i) && FieldTypeOk(d, i);
    SlotRecordsFit(d, i, m.slots[i]);
    DestInBounds(d, m, i, k);
    if k == |rs| {
      WholeSlot(d.fields[i], i, m.slots[i]);
      assert DestAt(d, m, i, k) == DestAt(d, m, i + 1, 0);
    } else {
      StoreOne(d, m, i, k);
      StoreField(d, m, i, k + 1);
      assert rs[k..][1..] == rs[k + 1..];
    }
  }

  lemma {:induction false} StoreFields(d: Desc, m: Msg, i: nat)
    requires DescOk(d) && MsgOk(InBounds, d, m) && MsgOk(Shaped, d, m) && i <= |d.fields|
    ensures RecordsFit(d, RecordsFrom(d, m, i)) && MsgOk(InBounds, d, DestAt(d, m, i, 0))
    ensures StoreRecords(d, DestAt(d, m, i, 0), RecordsFrom(d, m, i)) == Some(m)
    decreases d, 2, |d.fields| - i
  {
    RecordsFromFit(d, m, i);
    DestInBounds(d, m, i, 0);
    if i == |d.fields| {
      assert DestAt(d, m, i, 0) == m;
    } else {
      var rs := SlotRecords(d.fields[i], i, m.slots[i]);
      StoreField(d, m, i, 0);
      assert rs[0..] == rs;
      StoreFields(d, m, i + 1);
      StoreJoin(d, DestAt(d, m, i, 0), rs, RecordsFrom(d, m, i + 1));
    }
  }

  /** Storing the records of a message in bounds onto defaults gives the message. */
  lemma {:induction false} StoreDefault(d: Desc, m: Msg)
    requires DescOk(d) && MsgOk(InBounds, d, m)
    ensures MsgOk(InBounds, d, DefaultMsg(d)) && MsgOk(Shaped, d, m)
    ensures StoreMsg(d, DefaultMsg(d), m) == Some(m)
    decreases d, 3
  {
    DefaultOk(d);
    WeakerMsg(InBounds, Shaped, d, m);
    StartDest(d, m);
    StoreFields(d, m, 0);
  }
}
