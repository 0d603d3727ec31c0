/** What the decoder accepts although a required field is missing. */
module PbUnchecked {
  import opened Options
  import opened Coding
  import opened PbFormat
  import opened PbCommon
  import opened PbMessages
  import opened PbRequired
  import opened PbParse
  import opened PbStore
  import opened PbFold

  /** Records of the required fields before the n-th except one, each with its
      default. */
  function AllBut(d: Desc, n: nat, missing: nat): seq<Record>
    requires n <= |d.fields|
  {
    if n == 0 then []
    else AllBut(d, n - 1, missing) + if d.fields[n - 1].ht.Required? && n - 1 != missing then [DefaultRecord(d, n - 1)]
      else []
  }

  function DefaultRecord(d: Desc, i: nat): Record
    requires i < |d.fields|
  {
    Record(i, false, [DefaultValue(d.fields[i].lt, d.fields[i].init)])
  }

  /** The default of each required field can be encoded. */
  ghost predicate DefaultsSmall(d: Desc)
    requires DescOk(d)
  {
    forall i | 0 <= i < |d.fields| && d.fields[i].ht.Required? :: DefaultSmall(d, i)
  }

  ghost predicate DefaultSmall(d: Desc, i: nat)
    requires DescOk(d) && i < |d.fields|
  {
    DefaultShaped(d, i);
    ValueSmall(d.fields[i].lt, DefaultValue(d.fields[i].lt, d.fields[i].init))
  }

  lemma DefaultShaped(d: Desc, i: nat)
    requires DescOk(d) && i < |d.fields|
    ensures ValueOk(InBounds, d.fields[i].lt, DefaultValue(d.fields[i].lt, d.fields[i].init))
    ensures ValueOk(Shaped, d.fields[i].lt, DefaultValue(d.fields[i].lt, d.fields[i].init))
  {
    assert FieldTypeOk(d, i) && FieldOfType(d.fields[i]);
    DefaultValueOk(d.fields[i].lt, d.fields[i].init);
    WeakerValue(InBounds, Shaped, d.fields[i].lt, DefaultValue(d.fields[i].lt, d.fields[i].init));
  }

  lemma DefaultRecordFits(d: Desc, i: nat)
    requires DescOk(d) && i < |d.fields| && DefaultSmall(d, i)
    ensures RecordFits(d, DefaultRecord(d, i)) && FieldSmall(d.fields[i], DefaultRecord(d, i))
  {
    DefaultShaped(d, i);
    OneOk(Shaped, d.fields[i].lt, DefaultValue(d.fields[i].lt, d.fields[i].init));
  }

  /** Storing a default onto the defaults changes nothing. */
  lemma DefaultStored(d: Desc, i: nat)
    requires DescOk(d) && i < |d.fields| && d.fields[i].ht.Required? && DefaultSmall(d, i)
    ensures MsgOk(InBounds, d, DefaultMsg(d)) && RecordFits(d, DefaultRecord(d, i))
    ensures StoreRecord(d, DefaultMsg(d), DefaultRecord(d, i)) == Some(DefaultMsg(d))
  {
    DefaultOk(d);
    DefaultRecordFits(d, i);
    DefaultShaped(d, i);
    assert FieldTypeOk(d, i) && FieldOfType(d.fields[i]);
    StoreValueDefault(d.fields[i].lt, d.fields[i].init, DefaultValue(d.fields[i].lt, d.fields[i].init));
    assert PutField(d, DefaultMsg(d), i, DefaultSlot(d.fields[i])) == DefaultMsg(d);
  }

  // The records are well formed and leave the defaults as they are.
  ghost predicate Idle(d: Desc, rs: seq<Record>)
    requires DescOk(d) && MsgOk(InBounds, d, DefaultMsg(d))
  {
    && RecordsFit(d, rs) && RecordsOk(d, rs) && RecordsSmall(d, rs)
    && StoreRecords(d, DefaultMsg(d), rs) == Some(DefaultMsg(d))
  }

  lemma StoreOne(d: Desc, dest: Msg, r: Record)
    requires DescOk(d) && MsgOk(InBounds, d, dest) && RecordFits(d, r)
    ensures RecordsFit(d, [r]) && StoreRecords(d, dest, [r]) == StoreRecord(d, dest, r)
  {
    assert [r][1..] == [];
  }

  lemma OneMoreIdle(d: Desc, rs: seq<Record>, i: nat)
    requires DescOk(d) && i < |d.fields| && d.fields[i].ht.Required? && DefaultSmall(d, i)
    requires MsgOk(InBounds, d, DefaultMsg(d)) && Idle(d, rs)
    ensures Idle(d, rs + [DefaultRecord(d, i)])
  {
    var r := DefaultRecord(d, i);
    DefaultStored(d, i);
    DefaultRecordFits(d, i);
    StoreOne(d, DefaultMsg(d), r);
    StoreJoin(d, DefaultMsg(d), rs, [r]);
    AddedSmall(d, rs, r);
  }

  lemma {:induction false} AllButStored(d: Desc, n: nat, missing: nat)
    requires DescOk(d) && DefaultsSmall(d) && n <= |d.fields|
    ensures MsgOk(InBounds, d, DefaultMsg(d)) && Idle(d, AllBut(d, n, missing))
  {
    DefaultOk(d);
    if n > 0 {
      AllButStored(d, n - 1, missing);
      if d.fields[n - 1].ht.Required? && n - 1 != missing {
        assert DefaultSmall(d, n - 1);
        OneMoreIdle(d, AllBut(d, n - 1, missing), n - 1);
      } else {
        assert AllBut(d, n, missing) == AllBut(d, n - 1, missing);
      }
    }
  }

  lemma OneMoreOccurs(rs: seq<Record>, r: Record)
    ensures Occurring(Knowns(rs + [r])) == Occurring(Knowns(rs)) + {r.i}
  {
    OccurJoin(rs, [r]);
    OccurFirst([r]);
  }

  lemma {:induction false} AllButOccur(d: Desc, n: nat, missing: nat, j: nat)
    requires n <= |d.fields|
    ensures j in Occurring(Knowns(AllBut(d, n, missing))) <==> j < n && j != missing && d.fields[j].ht.Required?
  {
    if n > 0 {
      AllButOccur(d, n - 1, missing, j);
      if d.fields[n - 1].ht.Required? && n - 1 != missing {
        OneMoreOccurs(AllBut(d, n - 1, missing), DefaultRecord(d, n - 1));
      } else {
        assert AllBut(d, n, missing) == AllBut(d, n - 1, missing);
      }
    }
  }

  lemma AddedSmall(d: Desc, rs: seq<Record>, r: Record)
    requires RecordsOk(d, rs) && RecordsSmall(d, rs) && RecordOk(d, r) && FieldSmall(d.fields[r.i], r)
    ensures RecordsOk(d, rs + [r]) && RecordsSmall(d, rs + [r])
  {
    forall n | 0 <= n < |rs| + 1 ensures RecordSmall(d, rs + [r], n) {
      assert n < |rs| ==> RecordSmall(d, rs, n);
    }
  }

  /** Past the 64th required field, bytes without it are accepted. */
  lemma AcceptedWithout(d: Desc, missing: nat)
    requires DescOk(d) && DefaultsSmall(d) && missing < |d.fields| && d.fields[missing].ht.Required?
    requires RequiredBefore(d.fields, missing) >= MAX_REQUIRED
    ensures MsgOk(InBounds, d, DefaultMsg(d)) && ItemsOk(d, Knowns(AllBut(d, |d.fields|, missing)))
    ensures missing !in Occurring(Knowns(AllBut(d, |d.fields|, missing)))
    ensures MessageFrom(d, DefaultMsg(d), ItemsBytes(d, Knowns(AllBut(d, |d.fields|, missing)))) == Some(DefaultMsg(d))
  {
    var rs := AllBut(d, |d.fields|, missing);
    AllButStored(d, |d.fields|, missing);
    forall j: nat ensures j in Occurring(Knowns(rs)) <==> j < |d.fields| && j != missing && d.fields[j].ht.Required? {
      AllButOccur(d, |d.fields|, missing, j);
    }
    KnownsAre(d, DefaultMsg(d), rs);
    DecodingStores(d, DefaultMsg(d), Knowns(rs));
  }

  // If b is accepted then all required fields were read in it.
  ghost predicate Complete(d: Desc, b: Bytes)
    requires DescOk(d) && MsgOk(InBounds, d, DefaultMsg(d))
  {
    MessageFrom(d, DefaultMsg(d), b).Some? ==>
      && FieldsFrom(d, DefaultMsg(d), {}, b).Some?
      && CoversRequired(d, FieldsFrom(d, DefaultMsg(d), {}, b).value.seen)
  }

  lemma AcceptedIncomplete(d: Desc, missing: nat) returns (b: Bytes)
    requires DescOk(d) && DefaultsSmall(d) && missing < |d.fields| && d.fields[missing].ht.Required?
    requires RequiredBefore(d.fields, missing) >= MAX_REQUIRED
    ensures MsgOk(InBounds, d, DefaultMsg(d)) && !Complete(d, b)
  {
    AcceptedWithout(d, missing);
    var items := Knowns(AllBut(d, |d.fields|, missing));
    b := ItemsBytes(d, items);
    ItemsStored(d, DefaultMsg(d), {}, items);
    assert {} + Occurring(items) == Occurring(items);
  }

  /** Acceptance means that every required field was read exactly when the
      description has at most 64 of them; whatever the bytes. */
  lemma AcceptanceCompleteIff(d: Desc)
    requires DescOk(d) && DefaultsSmall(d)
    ensures MsgOk(InBounds, d, DefaultMsg(d))
    ensures (forall b :: Complete(d, b)) <==> RequiredBefore(d.fields, |d.fields|) <= MAX_REQUIRED
  {
    DefaultOk(d);
    ChecksAllIff(d);
    if RequiredBefore(d.fields, |d.fields|) <= MAX_REQUIRED {
      assert forall seen: set<nat> :: AllSeen(d, seen) ==> CoversRequired(d, seen);
    } else {
      var i := FieldOf(d, |d.fields|, MAX_REQUIRED);
      var b := AcceptedIncomplete(d, i);
    }
  }

  // ---- an instance ----

  // A message of 65 required bools, tagged 1 to 65.
  function SixtyFive(): Desc {
    Desc(seq(65, i requires 0 <= i < 65 => Field(i + 1, Bool, Required, Int(0))))
  }

  lemma {:induction false} AllRequired(n: nat)
    requires n <= 65
    ensures RequiredBefore(SixtyFive().fields, n) == n
  {
    if n > 0 {
      AllRequired(n - 1);
    }
  }

  /** Its first 64 fields alone are accepted, with the 65th left at its default. */
  lemma SixtyFifthUnchecked()
    ensures DescOk(SixtyFive()) && MsgOk(InBounds, SixtyFive(), DefaultMsg(SixtyFive()))
    ensures ItemsOk(SixtyFive(), Knowns(AllBut(SixtyFive(), 65, 64)))
      && 64 !in Occurring(Knowns(AllBut(SixtyFive(), 65, 64)))
    ensures MessageFrom(SixtyFive(), DefaultMsg(SixtyFive()),
      ItemsBytes(SixtyFive(), Knowns(AllBut(SixtyFive(), 65, 64)))) == Some(DefaultMsg(SixtyFive()))
  {
    var d := SixtyFive();
    forall i | 0 <= i < |d.fields| ensures FieldTypeOk(d, i) {}
    forall i, j | 0 <= i < j < |d.fields| ensures TagsDiffer(d, i, j) {}
    forall i | 0 <= i < |d.fields| ensures DefaultSmall(d, i) {}
    AllRequired(64);
    AcceptedWithout(d, 64);
  }
}
