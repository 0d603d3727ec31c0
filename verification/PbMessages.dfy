/** Well-formed descriptions, the structures decoding starts from, and storing a
    slot in a structure. */
module PbMessages {
  import opened PbFormat

  // ---- well-formed descriptions ----

  predicate TypeOk(lt: LType)
    decreases lt, 0
  {
    lt.Submessage? ==> DescOk(lt.sub)
  }

  /** Tags are distinct and in range; defaults are in bounds, and zero where presence
      is implicit; so down the tree. */
  predicate DescOk(d: Desc)
    decreases d, 2
  {
    && (forall i, j | 0 <= i < j < |d.fields| :: TagsDiffer(d, i, j))
    && forall i | 0 <= i < |d.fields| :: FieldTypeOk(d, i)
  }

  predicate TagsDiffer(d: Desc, i: nat, j: nat)
    requires i < j < |d.fields|
  {
    d.fields[i].tag != d.fields[j].tag
  }

  predicate FieldTypeOk(d: Desc, i: nat)
    requires i < |d.fields|
    decreases d, 1
  {
    FieldOfType(d.fields[i])
  }

  predicate FieldOfType(f: Field)
    decreases f, 0
  {
    && 0 < f.tag < 0x2000_0000 && TypeOk(f.lt) && (f.lt.Submessage? || ValueOk(InBounds, f.lt, f.init))
    && (f.ht.Implicit? ==> f.lt.Submessage? || f.lt.FixedBytes? || ZeroValue(f.lt, f.init))
  }

  ghost predicate HasTag(d: Desc, tag: nat) {
    exists i: nat :: HasTagAt(d, tag, i)
  }

  predicate HasTagAt(d: Desc, tag: nat, i: nat) {
    i < |d.fields| && d.fields[i].tag == tag
  }

  /** The field with a tag; tags are distinct. */
  ghost function IndexOf(d: Desc, tag: nat): (i: nat)
    requires DescOk(d) && HasTag(d, tag)
    ensures HasTagAt(d, tag, i)
  {
    TagsDistinct(d);
    var i: nat :| HasTagAt(d, tag, i);
    i
  }

  lemma TagsDistinct(d: Desc)
    requires DescOk(d)
    ensures forall tag: nat, i: nat, j: nat :: HasTagAt(d, tag, i) && HasTagAt(d, tag, j) ==> i == j
  {
    forall tag: nat, i: nat, j: nat | HasTagAt(d, tag, i) && HasTagAt(d, tag, j) ensures i == j {
      if i < j {
        TagsApart(d, i, j);
      } else if j < i {
        TagsApart(d, j, i);
      }
    }
  }

  lemma TagsApart(d: Desc, i: nat, j: nat)
    requires DescOk(d) && i < j < |d.fields|
    ensures d.fields[i].tag != d.fields[j].tag
  {
    assert TagsDiffer(d, i, j);
  }

  // ---- defaults ----

  function DefaultValue(lt: LType, init: Value): Value
    decreases lt, 0
  {
    if lt.Submessage? then Message(DefaultMsg(lt.sub)) else init
  }

  function DefaultSlot(f: Field): Slot
    decreases f, 0
  {
    match f.ht
    case Required => Single(DefaultValue(f.lt, f.init))
    case Implicit => Single(DefaultValue(f.lt, f.init))
    case Optional => Absent
    case OneOf(_) => Absent
    case Repeated(_) => Many([])
  }

  /** pb_message_set_to_defaults */
  function DefaultMsg(d: Desc): Msg
    decreases d, 0
  {
    Msg(seq(|d.fields|, i requires 0 <= i < |d.fields| => DefaultSlot(d.fields[i])))
  }

  lemma {:induction false} DefaultValueOk(lt: LType, init: Value)
    requires TypeOk(lt) && (lt.Submessage? || ValueOk(InBounds, lt, init))
    ensures ValueOk(InBounds, lt, DefaultValue(lt, init))
    decreases lt, 0
  {
    if lt.Submessage? {
      DefaultOk(lt.sub);
    }
  }

  /** A value in bounds that is zero all through is the default. */
  lemma {:induction false} ZeroIsDefault(lt: LType, init: Value, v: Value)
    requires TypeOk(lt) && ZeroValue(lt, v) && ValueOk(InBounds, lt, v)
    requires lt.Submessage? || (ValueOk(InBounds, lt, init) && (lt.FixedBytes? || ZeroValue(lt, init)))
    ensures v == DefaultValue(lt, init)
    decreases lt, 0
  {
    if lt.Submessage? {
      forall i | 0 <= i < |lt.sub.fields| ensures v.m.slots[i] == DefaultSlot(lt.sub.fields[i]) {
        assert ZeroField(lt.sub, v.m, i) && FieldOk(InBounds, lt.sub, v.m, i) && FieldTypeOk(lt.sub, i);
        ZeroSlotIsDefault(lt.sub.fields[i], v.m.slots[i]);
      }
      assert v.m.slots == DefaultMsg(lt.sub).slots;
    }
  }

  lemma {:induction false} ZeroSlotIsDefault(f: Field, s: Slot)
    requires FieldOfType(f) && ZeroSlot(f, s) && SlotOk(InBounds, f, s)
    ensures s == DefaultSlot(f)
    decreases f, 0
  {
    if s.Single? {
      ZeroIsDefault(f.lt, f.init, s.v);
    }
  }

  lemma {:induction false} DefaultOk(d: Desc)
    requires DescOk(d)
    ensures MsgOk(InBounds, d, DefaultMsg(d))
    decreases d, 1
  {
    var m := DefaultMsg(d);
    forall i | 0 <= i < |d.fields| ensures FieldOk(InBounds, d, m, i) {
      DefaultSlotOk(d, i);
    }
    forall i, j | 0 <= i < j < |d.fields| ensures Apart(d, m, i, j) {
      assert m.slots[j] == DefaultSlot(d.fields[j]);
    }
  }

  lemma {:induction false} DefaultSlotOk(d: Desc, i: nat)
    requires DescOk(d) && i < |d.fields|
    ensures SlotOk(InBounds, d.fields[i], DefaultSlot(d.fields[i]))
    decreases d, 0
  {
    assert FieldTypeOk(d, i) && FieldOfType(d.fields[i]);
    if d.fields[i].ht.Required? || d.fields[i].ht.Implicit? {
      DefaultValueOk(d.fields[i].lt, d.fields[i].init);
    }
  }

  // ---- storing ----

  /** Storing a slot; a union's other fields are no longer set. */
  function PutField(d: Desc, m: Msg, i: nat, s: Slot): (r: Msg)
    requires i < |d.fields| == |m.slots|
    ensures |r.slots| == |m.slots|
  {
    Msg(seq(|m.slots|, j requires 0 <= j < |m.slots| =>
      if j == i then s else if d.fields[i].ht.OneOf? && d.fields[j].ht == d.fields[i].ht then Absent else m.slots[j]))
  }

  lemma PutOk(d: Desc, m: Msg, i: nat, s: Slot)
    requires MsgOk(InBounds, d, m) && i < |d.fields| && SlotOk(InBounds, d.fields[i], s)
    ensures MsgOk(InBounds, d, PutField(d, m, i, s))
  {
    var r := PutField(d, m, i, s);
    forall j | 0 <= j < |d.fields| ensures FieldOk(InBounds, d, r, j) {
      assert FieldOk(InBounds, d, m, j);
    }
    forall j, k | 0 <= j < k < |d.fields| ensures Apart(d, r, j, k) {
      assert Apart(d, m, j, k);
    }
  }

  lemma OneOk(level: Level, lt: LType, v: Value)
    requires ValueOk(level, lt, v)
    ensures ValuesOk(level, lt, [v])
  {
    assert [v][0] == v;
  }

  lemma Join(lt: LType, vs: seq<Value>, ws: seq<Value>)
    requires ValuesOk(InBounds, lt, vs) && ValuesOk(InBounds, lt, ws)
    ensures ValuesOk(InBounds, lt, vs + ws)
  {
    forall j | 0 <= j < |vs| + |ws| ensures ElementOk(InBounds, lt, vs + ws, j) {
      assert j < |vs| ==> ElementOk(InBounds, lt, vs, j);
      assert j >= |vs| ==> ElementOk(InBounds, lt, ws, j - |vs|);
    }
  }
}
