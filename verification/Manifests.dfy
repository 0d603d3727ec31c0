/** The descriptor log as bytes: VersionSet::LogAndApply, WriteSnapshot and Recover
    (db/version_set.cc, db/version_edit.cc). */
module Manifests {
  import opened Options
  import opened Keys
  import opened Versions
  import Engine
  import opened DbImpl
  import opened Durability
  import opened DurabilityProofs
  import opened Recovery
  import opened RecoveryRuns
  import opened EditHistory
  import opened Descriptors
  import opened Spellings
  import Coding
  import ByteKeys
  import LogFormat
  import LogProofs
  import Logs
  import VE = VersionEdits
  import B = Builders

  // ---- keys, files and records as bytes ----

  /** How user keys are spelled, and what the table with a number holds. */
  datatype Naming = Naming(
    name: UserKey -> Coding.Bytes, rank: Coding.Bytes -> UserKey, contents: nat -> seq<Entry>)

  ghost predicate Spells(nm: Naming) {
    forall u {:trigger nm.name(u)} :: nm.rank(nm.name(u)) == u
  }

  function KeyBytes(nm: Naming, k: IKey): Coding.Bytes {
    ByteKeys.Tagged(nm.name(k.user), k)
  }

  function KeyFrom(nm: Naming, b: Coding.Bytes): IKey {
    if !ByteKeys.IsInternal(b) || ByteKeys.SequenceOf(b) > MAX_SEQUENCE then IKey(0, 0, Deletion)
    else IKey(nm.rank(ByteKeys.User(b)), ByteKeys.SequenceOf(b),
      if ByteKeys.Packed(b) % 256 == 1 then Put else Deletion)
  }

  lemma KeyBack(nm: Naming, k: IKey)
    requires Spells(nm)
    ensures KeyFrom(nm, KeyBytes(nm, k)) == k
  {
    ByteKeys.TaggedParts(nm.name(k.user), k);
  }

  function MetaOf(nm: Naming, f: File): VE.FileMeta {
    VE.FileMeta(f.number, f.size, KeyBytes(nm, f.smallest), KeyBytes(nm, f.largest))
  }

  function FileFrom(nm: Naming, m: VE.FileMeta): File {
    File(m.number, m.size, KeyFrom(nm, m.smallest), KeyFrom(nm, m.largest), nm.contents(m.number))
  }

  function EncodedEdit(nm: Naming, r: Record): VE.Edit {
    VE.Edit(r.comparator, r.logNumber, r.prevLogNumber, r.nextFile, r.lastSeq,
      seq(|r.pointers|, i requires 0 <= i < |r.pointers| => (r.pointers[i].0, KeyBytes(nm, r.pointers[i].1))),
      r.edit.deleted,
      seq(|r.edit.added|, i requires 0 <= i < |r.edit.added| => (r.edit.added[i].0, MetaOf(nm, r.edit.added[i].1))))
  }

  function RecordFrom(nm: Naming, e: VE.Edit): Record {
    var added := seq(|e.newFiles|, i requires 0 <= i < |e.newFiles| =>
      (e.newFiles[i].0, FileFrom(nm, e.newFiles[i].1)));
    var pointers := seq(|e.compactPointers|, i requires 0 <= i < |e.compactPointers| =>
      (e.compactPointers[i].0, KeyFrom(nm, e.compactPointers[i].1)));
    Record(B.Edit(e.deletedFiles, added), e.comparator, e.logNumber, e.prevLogNumber, e.nextFileNumber, e.lastSequence,
      pointers)
  }

  // The tables hold what the added files are said to hold.
  ghost predicate OnFile(nm: Naming, r: Record) {
    forall i | 0 <= i < |r.edit.added| :: nm.contents(r.edit.added[i].1.number) == r.edit.added[i].1.entries
  }

  /** A record can be written: widths and levels are those of the C++ types. */
  ghost predicate Writable(nm: Naming, r: Record) {
    VE.EditOk(EncodedEdit(nm, r)) && OnFile(nm, r)
  }

  lemma RecordBack(nm: Naming, r: Record)
    requires Spells(nm) && OnFile(nm, r)
    ensures RecordFrom(nm, EncodedEdit(nm, r)) == r
  {
    var x := RecordFrom(nm, EncodedEdit(nm, r));
    forall i | 0 <= i < |r.edit.added| ensures x.edit.added[i] == r.edit.added[i] {
      KeyBack(nm, r.edit.added[i].1.smallest);
      KeyBack(nm, r.edit.added[i].1.largest);
    }
    forall i | 0 <= i < |r.pointers| ensures x.pointers[i] == r.pointers[i] {
      KeyBack(nm, r.pointers[i].1);
    }
    assert x.edit.added == r.edit.added && x.pointers == r.pointers;
  }

  /** b is what EncodeTo may write for r; deleted files come in any order. */
  ghost predicate Encodes(nm: Naming, r: Record, b: Coding.Bytes) {
    exists ds :: EncodesWith(nm, r, b, ds)
  }

  ghost predicate EncodesWith(nm: Naming, r: Record, b: Coding.Bytes, ds: seq<(nat, nat)>) {
    (set d | d in ds) == r.edit.deleted && b == VE.EncodeItems(VE.ItemsOf(EncodedEdit(nm, r), ds))
  }

  ghost predicate EncodeAll(nm: Naming, rs: seq<Record>, bs: seq<Coding.Bytes>) {
    |bs| == |rs| && forall i | 0 <= i < |rs| :: EncodesAt(nm, rs, bs, i)
  }

  ghost predicate EncodesAt(nm: Naming, rs: seq<Record>, bs: seq<Coding.Bytes>, i: nat)
    requires i < |rs| == |bs|
  {
    Encodes(nm, rs[i], bs[i])
  }

  lemma EncodeMore(nm: Naming, rs: seq<Record>, bs: seq<Coding.Bytes>, r: Record, b: Coding.Bytes)
    requires EncodeAll(nm, rs, bs) && Encodes(nm, r, b)
    ensures EncodeAll(nm, rs + [r], bs + [b])
  {
    forall i | 0 <= i < |rs| + 1 ensures EncodesAt(nm, rs + [r], bs + [b], i) {
      assert i < |rs| ==> EncodesAt(nm, rs, bs, i);
    }
  }

  lemma EncodePrefix(nm: Naming, rs: seq<Record>, bs: seq<Coding.Bytes>, k: nat)
    requires EncodeAll(nm, rs, bs) && k <= |rs|
    ensures EncodeAll(nm, rs[..k], bs[..k])
  {
    forall i | 0 <= i < k ensures EncodesAt(nm, rs[..k], bs[..k], i) {
      assert EncodesAt(nm, rs, bs, i);
    }
  }

  /** dest is the file of a log of the records, encoded as bs. */
  ghost predicate IsLogOf(nm: Naming, crc: Coding.Crc, dest: Coding.Bytes, rs: seq<Record>, bs: seq<Coding.Bytes>) {
    EncodeAll(nm, rs, bs) && dest == LogFormat.Log(crc, bs)
  }

  // ---- what recovery computes ----

  datatype Status = Ok | InvalidArgument | Corruption

  function WithPointers(cp: seq<Option<IKey>>, ps: seq<(nat, IKey)>): (r: seq<Option<IKey>>)
    ensures |r| == |cp|
  {
    if ps == [] then cp
    else
      var before := WithPointers(cp, ps[..|ps| - 1]);
      var (level, k) := ps[|ps| - 1];
      if level < |cp| then before[level := Some(k)] else before
  }

  function PointersAfter(cp: seq<Option<IKey>>, rs: seq<Record>): (r: seq<Option<IKey>>)
    ensures |r| == |cp|
  {
    if rs == [] then cp else WithPointers(PointersAfter(cp, rs[..|rs| - 1]), rs[|rs| - 1].pointers)
  }

  predicate Mismatch(r: Record, comparator: Coding.Bytes) {
    r.comparator.Some? && r.comparator.value != comparator
  }

  ghost predicate Foreign(rs: seq<Record>, comparator: Coding.Bytes) {
    exists i :: 0 <= i < |rs| && Mismatch(rs[i], comparator)
  }

  /** Recover's verdict on the records it finds. */
  ghost function StatusOf(rs: seq<Record>, comparator: Coding.Bytes): Status {
    if Foreign(rs, comparator) then InvalidArgument
    else if Latest(rs, NextFileOf).None? || Latest(rs, LogNumberOf).None? || Latest(rs, LastSeqOf).None? then Corruption
    else Ok
  }

  function OrZero(x: Option<nat>): nat {
    if x.Some? then x.value else 0
  }

  function OrElse(x: Option<nat>, y: Option<nat>): Option<nat> {
    if x.Some? then x else y
  }

  /** v holds, level by level, what applying the edits one by one to base leaves. */
  ghost predicate Folds(base: Version, es: seq<B.Edit>, v: Version) {
    forall l | 0 <= l < NUM_LEVELS ::
      SortedBySmallest(v[l]) && B.FileISet(v[l]) == B.ApplyAll(B.FileISet(base[l]), l, es)
  }

  /** The records were written for a version that grew out of base. */
  ghost predicate Replayable(nm: Naming, base: Version, rs: seq<Record>) {
    && WellFormed(Edits(rs)) && (forall i | 0 <= i < |rs| :: Writable(nm, rs[i]))
    && forall l | 0 <= l < NUM_LEVELS :: SortedBySmallest(base[l]) && B.AddsAreNew(B.FileISet(base[l]), l, Edits(rs))
  }

  // ---- what is written ----

  function PointersOf(cp: seq<Option<IKey>>, n: nat): seq<(nat, IKey)>
    requires n <= |cp|
  {
    if n == 0 then [] else PointersOf(cp, n - 1) + if cp[n - 1].Some? then [(n - 1, cp[n - 1].value)] else []
  }

  function SnapshotRecord(comparator: Coding.Bytes, cp: seq<Option<IKey>>, v: Version): (r: Record)
    ensures SetsNothing(r) && r.edit == SnapshotEdit(v)
  {
    Record(SnapshotEdit(v), Some(comparator), None, None, None, None, PointersOf(cp, |cp|))
  }

  // What a descriptor log holds once it is open.
  function Begun(isNew: bool, snapshot: Record, written: seq<Record>): seq<Record> {
    if isNew then [snapshot] else written
  }

  // ---- steps of the loop ----

  /** The fields a run of records has set. */
  datatype Heads = Heads(logNumber: Option<nat>, prevLogNumber: Option<nat>, nextFile: Option<nat>,
    lastSeq: Option<nat>)

  function HeadsOf(rs: seq<Record>): Heads {
    Heads(Latest(rs, LogNumberOf), Latest(rs, PrevLogNumberOf), Latest(rs, NextFileOf), Latest(rs, LastSeqOf))
  }

  function HeadsWith(h: Heads, r: Record): Heads {
    Heads(OrElse(r.logNumber, h.logNumber), OrElse(r.prevLogNumber, h.prevLogNumber), OrElse(r.nextFile, h.nextFile),
      OrElse(r.lastSeq, h.lastSeq))
  }

  lemma HeadsMore(rs: seq<Record>, i: nat)
    requires i < |rs|
    ensures HeadsOf(rs[..i + 1]) == HeadsWith(HeadsOf(rs[..i]), rs[i])
  {
    assert rs[..i + 1] == rs[..i] + [rs[i]];
    LatestMore(rs[..i], rs[i], LogNumberOf);
    LatestMore(rs[..i], rs[i], PrevLogNumberOf);
    LatestMore(rs[..i], rs[i], NextFileOf);
    LatestMore(rs[..i], rs[i], LastSeqOf);
  }

  lemma NewPrefix(base: iset<File>, l: nat, es: seq<B.Edit>, n: nat)
    requires B.AddsAreNew(base, l, es) && n <= |es|
    ensures B.AddsAreNew(base, l, es[..n])
  {
    forall i | 0 <= i < n ensures es[..n][i] == es[i] && es[..n][..i] == es[..i] {}
  }

  lemma EditsPrefix(rs: seq<Record>, i: nat)
    requires i < |rs|
    ensures Edits(rs[..i]) + [rs[i].edit] == Edits(rs[..i + 1]) == Edits(rs)[..i + 1]
  {}

  /** One record: EncodeTo undone. */
  method DecodeRecord(nm: Naming, b: Coding.Bytes, ghost r: Record) returns (x: Option<Record>)
    requires Spells(nm) && Writable(nm, r) && Encodes(nm, r, b)
    ensures x == Some(r)
  {
    ghost var ds :| EncodesWith(nm, r, b, ds);
    ghost var e := EncodedEdit(nm, r);
    VE.EntriesOk(e, ds);
    VE.ItemsMean(VE.EMPTY, e, ds);
    assert [] + e.compactPointers == e.compactPointers;
    RecordBack(nm, r);
    var edit := new VE.VersionEdit();
    var ok := edit.DecodeFrom(b, VE.ItemsOf(e, ds));
    x := if ok then Some(RecordFrom(nm, edit.Contents())) else None;
  }

  method EncodeRecord(nm: Naming, r: Record) returns (b: Coding.Bytes)
    ensures Encodes(nm, r, b)
  {
    var edit := FillEdit(EncodedEdit(nm, r));
    ghost var ds;
    b, ds := edit.EncodeTo([]);
    Coding.NoneBefore(VE.EncodeItems(VE.ItemsOf(edit.Contents(), ds)));
    assert EncodesWith(nm, r, b, ds);
  }

  // An edit object with its fields set.
  method FillEdit(e: VE.Edit) returns (edit: VE.VersionEdit)
    ensures fresh(edit) && edit.Contents() == e
  {
    edit := new VE.VersionEdit();
    edit.comparator, edit.logNumber, edit.prevLogNumber := e.comparator, e.logNumber, e.prevLogNumber;
    edit.nextFileNumber, edit.lastSequence := e.nextFileNumber, e.lastSequence;
    edit.compactPointers, edit.deletedFiles, edit.newFiles := e.compactPointers, e.deletedFiles, e.newFiles;
  }

  // The edit gives no level of v a number that it has.
  ghost predicate Fresh(v: Version, e: B.Edit) {
    SortedVersion(v) && EditIsFresh(v, e)
  }

  method Applied(v: Version, e: B.Edit) returns (v': Version)
    requires Fresh(v, e)
    ensures EditApplied(v, v', e)
  {
    v' := ApplyEdit(v, e);
  }

  class Descriptor {
    const names: Naming
    const comparator: Coding.Bytes
    const crc: Coding.Crc
    var current: Version
    var compactPointer: seq<Option<IKey>>
    var logNumber: nat
    var prevLogNumber: nat
    var nextFileNumber: nat
    var manifestFileNumber: nat
    var lastSequence: nat
    var descriptorLog: Logs.Writer?
    // What has been written to the descriptor log, as records and as bytes.
    ghost var written: seq<Record>
    ghost var bytes: seq<Coding.Bytes>

    ghost predicate Logged()
      reads this`descriptorLog, this`written, this`bytes, descriptorLog
    {
      descriptorLog != null ==>
        && descriptorLog.Valid() && descriptorLog.crc == crc
        && IsLogOf(names, crc, descriptorLog.dest, written, bytes)
    }

    constructor (names: Naming, comparator: Coding.Bytes, crc: Coding.Crc)
      ensures this.names == names && this.comparator == comparator && this.crc == crc
      ensures current == NO_FILES && compactPointer == [None, None, None, None, None, None, None]
      ensures descriptorLog == null && Logged() && Numbers() == Heads(Some(0), Some(0), Some(2), Some(0))
    {
      this.names, this.comparator, this.crc := names, comparator, crc;
      current, compactPointer := NO_FILES, [None, None, None, None, None, None, None];
      logNumber, prevLogNumber, nextFileNumber, manifestFileNumber, lastSequence := 0, 0, 2, 0, 0;
      descriptorLog, written, bytes := null, [], [];
    }

    // EncodeTo, then AddRecord.
    method AddEdit(r: Record)
      requires descriptorLog != null && Logged()
      modifies this`written, this`bytes, descriptorLog
      ensures Logged() && written == old(written) + [r]
    {
      var record := EncodeRecord(names, r);
      EncodeMore(names, written, bytes, r, record);
      descriptorLog.AddRecord(record);
      written, bytes := written + [r], bytes + [record];
    }

    /** WriteSnapshot */
    method WriteSnapshot()
      requires descriptorLog != null && Logged()
      modifies this`written, this`bytes, descriptorLog
      ensures Logged() && written == old(written) + [SnapshotRecord(comparator, compactPointer, current)]
    {
      AddEdit(SnapshotRecord(comparator, compactPointer, current));
    }

    // A new descriptor log starts with a snapshot.
    method OpenLog()
      requires Logged()
      modifies this`descriptorLog, this`written, this`bytes
      ensures descriptorLog != null && Logged() && (old(descriptorLog) != null ==> descriptorLog == old(descriptorLog))
      ensures old(descriptorLog) == null ==> fresh(descriptorLog)
      ensures written == Begun(old(descriptorLog) == null, SnapshotRecord(comparator, compactPointer, current),
        old(written))
    {
      if descriptorLog == null {
        descriptorLog := new Logs.Writer(crc, []);
        written, bytes := [], [];
        WriteSnapshot();
        assert [] + [SnapshotRecord(comparator, compactPointer, current)]
          == [SnapshotRecord(comparator, compactPointer, current)];
      }
    }

    function Numbers(): Heads
      reads this`logNumber, this`prevLogNumber, this`nextFileNumber, this`lastSequence
    {
      Heads(Some(logNumber), Some(prevLogNumber), Some(nextFileNumber), Some(lastSequence))
    }

    // The edit with the fields that LogAndApply fills in.
    function RecordOf(e: B.Edit, number: nat, pointers: seq<(nat, IKey)>): Record
      reads this`prevLogNumber, this`nextFileNumber, this`lastSequence
    {
      Record(e, None, Some(number), Some(prevLogNumber), Some(nextFileNumber), Some(lastSequence), pointers)
    }

    /** Writes the edit, then installs the version it leads to. */
    method LogEdit(e: B.Edit, v: Version, pointers: seq<(nat, IKey)>, number: nat)
      requires Logged()
      modifies this`current, this`compactPointer, this`logNumber, this`descriptorLog, this`written, this`bytes
      modifies descriptorLog
      ensures current == v && logNumber == number
      ensures descriptorLog != null && Logged() && (old(descriptorLog) != null ==> descriptorLog == old(descriptorLog))
      ensures old(descriptorLog) == null ==> fresh(descriptorLog)
      ensures compactPointer == WithPointers(old(compactPointer), pointers)
      ensures written == Begun(old(descriptorLog) == null, SnapshotRecord(comparator, compactPointer, old(current)),
        old(written)) + [RecordOf(e, number, pointers)]
    {
      SetPointers(pointers);
      OpenLog();
      AddEdit(RecordOf(e, number, pointers));
      current, logNumber := v, number;
    }

    /** LogAndApply: the edit joins the descriptor log, a new one starting with the
        version so far, and then becomes visible. */
    method LogAndApply(e: B.Edit, pointers: seq<(nat, IKey)>, newLog: Option<nat>)
      requires Logged() && Fresh(current, e)
      requires newLog.Some? ==> logNumber <= newLog.value < nextFileNumber
      modifies this`current, this`compactPointer, this`logNumber, this`descriptorLog, this`written, this`bytes
      modifies descriptorLog
      ensures descriptorLog != null && Logged() && (old(descriptorLog) != null ==> descriptorLog == old(descriptorLog))
      ensures old(descriptorLog) == null ==> fresh(descriptorLog)
      ensures EditApplied(old(current), current, e) && compactPointer == WithPointers(old(compactPointer), pointers)
      ensures logNumber == if newLog.Some? then newLog.value else old(logNumber)
      ensures written == Begun(old(descriptorLog) == null, SnapshotRecord(comparator, compactPointer, old(current)),
        old(written)) + [RecordOf(e, logNumber, pointers)]
    {
      var number := if newLog.Some? then newLog.value else logNumber;
      var v := Applied(current, e);
      LogEdit(e, v, pointers, number);
    }

    method MarkFileNumberUsed(number: nat)
      modifies this`nextFileNumber
      ensures number < nextFileNumber && old(nextFileNumber) <= nextFileNumber
    {
      if nextFileNumber <= number {
        nextFileNumber := number + 1;
      }
    }

    /** Builder::Apply's other effect. */
    method SetPointers(ps: seq<(nat, IKey)>)
      modifies this`compactPointer
      ensures compactPointer == WithPointers(old(compactPointer), ps)
    {
      for i := 0 to |ps|
        invariant compactPointer == WithPointers(old(compactPointer), ps[..i])
      {
        assert ps[..i + 1][..i] == ps[..i];
        if ps[i].0 < |compactPointer| {
          compactPointer := compactPointer[ps[i].0 := Some(ps[i].1)];
        }
      }
      assert ps[..|ps|] == ps;
    }

    /** One turn of Recover's loop. */
    method TakeRecord(builder: B.Builder, h: Heads, b: Coding.Bytes, ghost rs: seq<Record>, ghost i: nat)
      returns (status: Status, h': Heads)
      requires i < |rs| && Spells(names) && Encodes(names, rs[i], b) && Replayable(names, builder.base, rs)
      requires builder.Valid() && builder.edits == Edits(rs[..i]) && h == HeadsOf(rs[..i])
      modifies builder, this`compactPointer
      ensures builder.Valid() && h' == HeadsOf(rs[..i + 1])
      ensures status == if Mismatch(rs[i], comparator) then InvalidArgument else Ok
      ensures status.Ok? ==> builder.edits == Edits(rs[..i + 1])
      ensures status.Ok? ==> compactPointer == WithPointers(old(compactPointer), rs[i].pointers)
    {
      HeadsMore(rs, i);
      EditsPrefix(rs, i);
      h' := h;
      var x := DecodeRecord(names, b, rs[i]);
      match x
      case None => status := Corruption;
      case Some(r) =>
        status := if Mismatch(r, comparator) then InvalidArgument else Ok;
        if status.Ok? {
          assert B.ValidEdit(Edits(rs)[i]) && B.DistinctAdds(Edits(rs)[i]);
          forall l | 0 <= l < NUM_LEVELS ensures B.AddsAreNew(B.FileISet(builder.base[l]), l, Edits(rs)[..i + 1]) {
            NewPrefix(B.FileISet(builder.base[l]), l, Edits(rs), i + 1);
          }
          builder.Apply(r.edit);
          SetPointers(r.pointers);
        }
        h' := HeadsWith(h, r);
    }

    /** What Recover's loop has done with the first i records. */
    ghost predicate Taken(builder: B.Builder, base: Version, cp: seq<Option<IKey>>, rs: seq<Record>, i: nat,
      status: Status, h: Heads)
      reads this`compactPointer, builder
      requires i <= |rs|
    {
      && builder.Valid() && builder.base == base && h == HeadsOf(rs[..i])
      && if Foreign(rs[..i], comparator) then status == InvalidArgument else
        status == Ok && builder.edits == Edits(rs[..i]) && compactPointer == PointersAfter(cp, rs[..i])
    }

    // The reader has yet to give the records from the i-th on.
    ghost predicate Reading(reader: Logs.Reader, file: Coding.Bytes, rest: seq<Coding.Bytes>)
      reads reader
    {
      && reader.Valid() && reader.crc == crc && reader.file == file
      && LogProofs.AllFrom(LogFormat.ReadingOf(crc, file), |file|, reader.Pos()).0 == rest
    }

    method TakeNext(builder: B.Builder, b: Coding.Bytes, status: Status, h: Heads,
      ghost cp: seq<Option<IKey>>, ghost seen: seq<Record>, ghost i: nat)
      returns (status': Status, h': Heads)
      requires i < |seen| && Spells(names) && Encodes(names, seen[i], b) && Replayable(names, builder.base, seen)
      requires status.Ok? && Taken(builder, builder.base, cp, seen, i, status, h)
      modifies builder, this`compactPointer
      ensures Taken(builder, builder.base, cp, seen, i + 1, status', h')
    {
      OneTaken(cp, seen, i, comparator);
      status', h' := TakeRecord(builder, h, b, seen, i);
    }

    /** One turn of Recover's loop. */
    method Turn(builder: B.Builder, reader: Logs.Reader, file: Coding.Bytes, status: Status, h: Heads,
      ghost cp: seq<Option<IKey>>, ghost seen: seq<Record>, ghost bs: seq<Coding.Bytes>, ghost i: nat)
      returns (more: bool, status': Status, h': Heads)
      requires Spells(names) && EncodeAll(names, seen, bs) && Replayable(names, builder.base, seen) && i <= |seen|
      requires Reading(reader, file, bs[i..]) && Taken(builder, builder.base, cp, seen, i, status, h)
      modifies this`compactPointer, builder, reader
      ensures if more then i < |seen| && Reading(reader, file, bs[i + 1..])
          && Taken(builder, builder.base, cp, seen, i + 1, status', h')
        else Taken(builder, builder.base, cp, seen, i, status', h') && (status'.Ok? ==> i == |seen|)
    {
      status', h' := status, h;
      var record := reader.ReadNext(bs[i..]);
      more := record.Some? && status.Ok?;
      if more {
        assert bs[i..][1..] == bs[i + 1..] && EncodesAt(names, seen, bs, i);
        status', h' := TakeNext(builder, record.value, status, h, cp, seen, i);
      }
    }

    /** Reads edit after edit until the log ends or one is refused. `seen` are the
        records that are complete in the file. */
    method ReadEdits(builder: B.Builder, reader: Logs.Reader, file: Coding.Bytes, ghost seen: seq<Record>,
      ghost bs: seq<Coding.Bytes>)
      returns (status: Status, h: Heads, ghost i: nat)
      requires Spells(names) && EncodeAll(names, seen, bs) && Replayable(names, builder.base, seen)
      requires Reading(reader, file, bs) && builder.Valid() && builder.edits == []
      modifies this`compactPointer, builder, reader
      ensures i <= |seen| && Taken(builder, builder.base, old(compactPointer), seen, i, status, h)
      ensures status.Ok? ==> i == |seen|
    {
      status, h, i := Ok, HeadsOf([]), 0;
      NothingTaken(seen);
      assert bs[0..] == bs;
      var more := true;
      while more
        invariant i <= |seen| && Taken(builder, builder.base, old(compactPointer), seen, i, status, h)
        invariant if more then Reading(reader, file, bs[i..]) else status.Ok? ==> i == |seen|
        decreases more, |seen| - i
      {
        more, status, h := Turn(builder, reader, file, status, h, old(compactPointer), seen, bs, i);
        i := if more then i + 1 else i;
      }
    }

    /** VersionSet::Recover on a descriptor log, or on any beginning of one: rs are
        the records that were written. */
    method Recover(file: Coding.Bytes, ghost rs: seq<Record>, ghost bs: seq<Coding.Bytes>) returns (status: Status)
      requires Spells(names) && EncodeAll(names, rs, bs) && Replayable(names, current, rs)
      requires file <= LogFormat.Log(crc, bs)
      modifies this
      ensures var seen := rs[..LogProofs.CompleteIn(0, bs, |file|)];
        && status == StatusOf(seen, comparator)
        && if status.Ok? then Recovered(old(current), old(compactPointer), seen) else current == old(current)
    {
      ghost var k := LogProofs.CompleteIn(0, bs, |file|);
      LogProofs.LogReadsBack(crc, bs, file);
      ReplayablePrefix(names, current, rs, k);
      EncodePrefix(names, rs, bs, k);
      var builder := new B.Builder(current);
      var reader := new Logs.Reader(crc, file);
      var h;
      ghost var i;
      status, h, i := ReadEdits(builder, reader, file, rs[..k], bs[..k]);
      FirstForeign(rs[..k], i, comparator);
      if status.Ok? {
        status := Install(builder, h, current, old(compactPointer), rs[..k]);
      }
    }

    /** The end of Recover. */
    method Install(builder: B.Builder, h: Heads, ghost base: Version, ghost cp: seq<Option<IKey>>,
      ghost seen: seq<Record>)
      returns (status: Status)
      requires Replayable(names, base, seen) && Taken(builder, base, cp, seen, |seen|, Ok, h)
      modifies this
      ensures status == StatusOf(seen, comparator)
      ensures if status.Ok? then Recovered(base, cp, seen) else current == old(current)
    {
      FirstForeign(seen, |seen|, comparator);
      status := Ok;
      if h.nextFile.None? || h.logNumber.None? || h.lastSeq.None? {
        status := Corruption;
      }
      MarkFileNumberUsed(OrZero(h.prevLogNumber));
      MarkFileNumberUsed(OrZero(h.logNumber));
      if status.Ok? {
        current := builder.SaveTo();
        manifestFileNumber := h.nextFile.value;
        nextFileNumber := h.nextFile.value + 1;
        lastSequence := h.lastSeq.value;
        logNumber := h.logNumber.value;
        prevLogNumber := OrZero(h.prevLogNumber);
      }
    }

    ghost predicate Recovered(base: Version, cp: seq<Option<IKey>>, seen: seq<Record>)
      reads this
    {
      && Folds(base, Edits(seen), current) && compactPointer == PointersAfter(cp, seen)
      && Latest(seen, LogNumberOf) == Some(logNumber) && OrZero(Latest(seen, PrevLogNumberOf)) == prevLogNumber
      && Latest(seen, NextFileOf) == Some(manifestFileNumber) && nextFileNumber == manifestFileNumber + 1
      && Latest(seen, LastSeqOf) == Some(lastSequence)
    }
  }

  lemma NothingTaken(rs: seq<Record>)
    ensures rs[..0] == [] && Edits(rs[..0]) == []
  {}

  lemma FirstForeign(rs: seq<Record>, i: nat, comparator: Coding.Bytes)
    requires i <= |rs|
    ensures Foreign(rs[..i], comparator) ==> Foreign(rs, comparator)
    ensures rs[..|rs|] == rs
  {
    if Foreign(rs[..i], comparator) {
      var j :| 0 <= j < i && Mismatch(rs[..i][j], comparator);
      assert Mismatch(rs[j], comparator);
    }
  }

  lemma OneTaken(cp: seq<Option<IKey>>, rs: seq<Record>, i: nat, comparator: Coding.Bytes)
    requires i < |rs|
    ensures Foreign(rs[..i + 1], comparator) <==> Foreign(rs[..i], comparator) || Mismatch(rs[i], comparator)
    ensures PointersAfter(cp, rs[..i + 1]) == WithPointers(PointersAfter(cp, rs[..i]), rs[i].pointers)
  {
    var more := rs[..i + 1];
    assert more[..i] == rs[..i] && more[i] == rs[i];
    if j :| 0 <= j < i && Mismatch(rs[..i][j], comparator) {
      assert Mismatch(more[j], comparator);
    }
    if j :| 0 <= j < i + 1 && Mismatch(more[j], comparator) {
      assert j < i ==> Mismatch(rs[..i][j], comparator);
    }
  }

  lemma ReplayablePrefix(nm: Naming, base: Version, rs: seq<Record>, k: nat)
    requires Replayable(nm, base, rs) && k <= |rs|
    ensures Replayable(nm, base, rs[..k])
  {
    assert Edits(rs[..k]) == Edits(rs)[..k];
    forall l | 0 <= l < NUM_LEVELS ensures B.AddsAreNew(B.FileISet(base[l]), l, Edits(rs[..k])) {
      NewPrefix(B.FileISet(base[l]), l, Edits(rs), k);
    }
  }

  // ---- what is written is recovered ----

  lemma SameVersion(base: Version, es: seq<B.Edit>, v: Version, v': Version)
    requires Folds(base, es, v) && Folds(base, es, v')
    ensures v == v'
  {
    forall l | 0 <= l < NUM_LEVELS ensures v[l] == v'[l] {
      assert B.FileISet(v[l]) == B.FileISet(v'[l]);
      forall f ensures f in v[l] <==> f in v'[l] {
        assert f in B.FileISet(v[l]) <==> f in B.FileISet(v'[l]);
      }
      DbImpl.SameFiles(v[l], v'[l]);
    }
  }

  lemma TracedFolds(s: Engine.State, rs: seq<Record>, bound: nat)
    requires Traced(s, Edits(rs)) && ValidVersion(s.version, bound)
    ensures Folds(NO_FILES, Edits(rs), s.version)
    ensures forall l | 0 <= l < NUM_LEVELS ::
      SortedBySmallest(NO_FILES[l]) && B.AddsAreNew(B.FileISet(NO_FILES[l]), l, Edits(rs))
  {
    LevelIsSorted(s.version, bound);
    forall l | 0 <= l < NUM_LEVELS
      ensures SortedBySmallest(NO_FILES[l]) && B.AddsAreNew(B.FileISet(NO_FILES[l]), l, Edits(rs))
      ensures B.FileISet(s.version[l]) == B.ApplyAll(B.FileISet(NO_FILES[l]), l, Edits(rs)) {
      assert NO_FILES[l] == [];
      assert B.FileISet(NO_FILES[l]) == iset{};
    }
  }

  lemma RunReplayable(nm: Naming, dbs: seq<Db>, descriptors: seq<seq<Record>>, n: nat)
    requires DbRun(dbs) && Written(dbs, descriptors) && n < |dbs|
    requires forall i | 0 <= i < |descriptors[n]| :: Writable(nm, descriptors[n][i])
    ensures Replayable(nm, NO_FILES, descriptors[n])
  {
    DescriptorIsManifest(dbs, descriptors, n);
    RunVersion(dbs, n);
    TracedFolds(Durable(dbs[n]), descriptors[n], Durable(dbs[n]).nextFile);
  }

  lemma RunVersion(dbs: seq<Db>, n: nat)
    requires DbRun(dbs) && n < |dbs|
    ensures ValidVersion(Durable(dbs[n]).version, Durable(dbs[n]).nextFile)
    ensures Durable(dbs[n]).version == dbs[n].disk.manifest.version
  {
    DbRunInv(dbs, n);
    DurableIsValid(dbs[n]);
  }

  /** What recovery finds in a file that holds exactly the records of state m. */
  lemma RunRecovers(dbs: seq<Db>, descriptors: seq<seq<Record>>, m: nat, comparator: Coding.Bytes)
    requires DbRun(dbs) && Written(dbs, descriptors) && m < |dbs| && !Foreign(descriptors[m], comparator)
    ensures StatusOf(descriptors[m], comparator) == Ok
    ensures Describes(descriptors[m], dbs[m].disk.manifest)
    ensures Folds(NO_FILES, Edits(descriptors[m]), dbs[m].disk.manifest.version)
  {
    DescriptorIsManifest(dbs, descriptors, m);
    RunVersion(dbs, m);
    TracedFolds(Durable(dbs[m]), descriptors[m], Durable(dbs[m]).nextFile);
  }

  /** Recovery finds the manifest. The file is the descriptor log of state n of any
      run with crashes, or what a crash has left of it: as long as it holds the
      records of state m, what is recovered is state m's manifest. */
  method RecoverManifest(d: Descriptor, file: Coding.Bytes, ghost dbs: seq<Db>, ghost descriptors: seq<seq<Record>>,
    ghost n: nat, ghost m: nat, ghost bs: seq<Coding.Bytes>)
    returns (status: Status)
    requires DbRun(dbs) && Written(dbs, descriptors) && n < |dbs| && m < |dbs|
    requires Spells(d.names) && (forall i | 0 <= i < |descriptors[n]| :: Writable(d.names, descriptors[n][i]))
    requires EncodeAll(d.names, descriptors[n], bs) && file <= LogFormat.Log(d.crc, bs)
    requires descriptors[n][..LogProofs.CompleteIn(0, bs, |file|)] == descriptors[m]
    requires !Foreign(descriptors[m], d.comparator) && d.current == NO_FILES
    modifies d
    ensures status == Ok && d.current == dbs[m].disk.manifest.version
    ensures d.logNumber == dbs[m].disk.manifest.logNumber && d.lastSequence == dbs[m].disk.manifest.lastSeq
    ensures d.manifestFileNumber == dbs[m].disk.manifest.nextFile && d.nextFileNumber == d.manifestFileNumber + 1
  {
    RunReplayable(d.names, dbs, descriptors, n);
    RunRecovers(dbs, descriptors, m, d.comparator);
    status := d.Recover(file, descriptors[n], bs);
    SameVersion(NO_FILES, Edits(descriptors[m]), d.current, dbs[m].disk.manifest.version);
  }

  /** There are table contents that go with the descriptor log of any run. */
  lemma RunOnFile(nm: Naming, dbs: seq<Db>, descriptors: seq<seq<Record>>, n: nat)
    requires DbRun(dbs) && Written(dbs, descriptors) && n < |dbs|
    requires forall k :: nm.contents(k) == HeldBy(Edits(descriptors[n]), k)
    ensures forall i | 0 <= i < |descriptors[n]| :: OnFile(nm, descriptors[n][i])
  {
    var rs := descriptors[n];
    DescriptorIsManifest(dbs, descriptors, n);
    forall i, j | 0 <= i < |rs| && 0 <= j < |rs[i].edit.added|
      ensures nm.contents(rs[i].edit.added[j].1.number) == rs[i].edit.added[j].1.entries {
      var (l, f) := rs[i].edit.added[j];
      assert B.ValidEdit(Edits(rs)[i]) && B.EditAdds(Edits(rs)[i], l, f);
      AddedIsGiven(Edits(rs), i, l, f);
      HeldByGiven(Durable(dbs[n]), Edits(rs), l, f);
    }
  }

  // ---- any edits ----

  const NO_EDIT := B.Edit({}, [])

  lemma {:induction false} NothingFirst(l: nat, es: seq<B.Edit>)
    ensures B.ApplyAll(iset{}, l, [NO_EDIT] + es) == B.ApplyAll(iset{}, l, es)
    ensures B.AddedAll(l, [NO_EDIT] + es) == B.AddedAll(l, es)
  {
    var more, n := [NO_EDIT] + es, |es|;
    if es == [] {
      assert more == [NO_EDIT] && more[..0] == [];
      assert forall f :: !B.EditAdds(NO_EDIT, l, f);
    } else {
      NothingFirst(l, es[..n - 1]);
      assert more[..n] == [NO_EDIT] + es[..n - 1] && more[n] == es[n - 1];
    }
  }

  lemma NothingFirstNew(l: nat, es: seq<B.Edit>)
    requires B.AddsAreNew(iset{}, l, es)
    ensures B.AddsAreNew(iset{}, l, [NO_EDIT] + es)
  {
    var more := [NO_EDIT] + es;
    forall i, f, g | 0 <= i < |more| && B.EditAdds(more[i], l, f) && (g in iset{} || g in B.AddedAll(l, more[..i]))
      ensures f.number != g.number {
      assert i > 0 && more[i] == es[i - 1] && more[..i] == [NO_EDIT] + es[..i - 1];
      NothingFirst(l, es[..i - 1]);
    }
  }

  lemma NoFilesEdit()
    ensures SnapshotEdit(NO_FILES) == NO_EDIT
  {
    NoneBelow(NO_FILES, |NO_FILES|);
  }

  lemma {:induction false} NoneBelow(v: Version, n: nat)
    requires n <= |v| && forall l | 0 <= l < |v| :: v[l] == []
    ensures FilesBelow(v, n) == []
  {
    if n > 0 {
      NoneBelow(v, n - 1);
    }
  }

  function Numbered(h: Heads, e: B.Edit): Record {
    Record(e, None, h.logNumber, h.prevLogNumber, h.nextFile, h.lastSeq, [])
  }

  // A snapshot, then the first n edits.
  ghost predicate Series(rs: seq<Record>, snapshot: Record, es: seq<B.Edit>, n: nat, h: Heads)
    requires n <= |es|
  {
    |rs| == n + 1 && rs[0] == snapshot && forall i | 0 <= i < n :: rs[i + 1] == Numbered(h, es[i])
  }

  lemma SeriesEdits(rs: seq<Record>, snapshot: Record, es: seq<B.Edit>, h: Heads)
    requires Series(rs, snapshot, es, |es|, h) && snapshot.edit == NO_EDIT
    ensures Edits(rs) == [NO_EDIT] + es
  {}

  // The first n edits were handed over, one after another.
  ghost predicate HandedOver(d: Descriptor, snapshot: Record, es: seq<B.Edit>, n: nat)
    requires n <= |es|
    reads d, d.descriptorLog
  {
    && d.Logged() && d.descriptorLog != null && Series(d.written, snapshot, es, n, d.Numbers())
    && LeadTo(es[..n], d.current) && SortedVersion(d.current)
  }

  ghost predicate SortedVersion(v: Version) {
    forall l | 0 <= l < NUM_LEVELS :: SortedBySmallest(v[l])
  }

  lemma OneApplied(es: seq<B.Edit>, i: nat, v: Version, v': Version)
    requires i < |es| && LeadTo(es[..i], v) && EditApplied(v, v', es[i])
    ensures LeadTo(es[..i + 1], v') && SortedVersion(v')
  {
    LeadsOn(v, v', es[..i], es[i]);
    assert es[..i + 1] == es[..i] + [es[i]];
  }

  method LogFirst(d: Descriptor, es: seq<B.Edit>)
    requires d.Logged() && d.descriptorLog == null && d.current == NO_FILES && es != []
    requires WellFormed(es) && AddsOnce(es)
    modifies d`current, d`compactPointer, d`logNumber, d`descriptorLog, d`written, d`bytes
    ensures HandedOver(d, SnapshotRecord(d.comparator, old(d.compactPointer), NO_FILES), es, 1)
    ensures fresh(d.descriptorLog) && d.logNumber == old(d.logNumber)
  {
    NothingLeads();
    assert es[..0] == [];
    FreshInTurn(es, 0, d.current);
    d.LogAndApply(es[0], [], None);
    OneApplied(es, 0, NO_FILES, d.current);
  }

  method LogNext(d: Descriptor, es: seq<B.Edit>, i: nat, ghost snapshot: Record)
    requires 0 < i < |es| && HandedOver(d, snapshot, es, i) && WellFormed(es) && AddsOnce(es)
    modifies d`current, d`compactPointer, d`logNumber, d`descriptorLog, d`written, d`bytes, d.descriptorLog
    ensures HandedOver(d, snapshot, es, i + 1)
    ensures d.descriptorLog == old(d.descriptorLog) && d.logNumber == old(d.logNumber)
  {
    FreshInTurn(es, i, d.current);
    ghost var v := d.current;
    d.LogAndApply(es[i], [], None);
    OneApplied(es, i, v, d.current);
  }

  /** Hands over edit after edit; each is applied to the version the one before
      left. */
  method LogAll(d: Descriptor, es: seq<B.Edit>)
    requires d.Logged() && d.descriptorLog == null && d.current == NO_FILES && es != []
    requires WellFormed(es) && AddsOnce(es)
    modifies d`current, d`compactPointer, d`logNumber, d`descriptorLog, d`written, d`bytes
    ensures HandedOver(d, SnapshotRecord(d.comparator, old(d.compactPointer), NO_FILES), es, |es|)
    ensures d.Numbers() == old(d.Numbers()) && LeadTo(es, d.current)
  {
    ghost var snapshot := SnapshotRecord(d.comparator, d.compactPointer, NO_FILES);
    LogFirst(d, es);
    for i := 1 to |es|
      invariant HandedOver(d, snapshot, es, i) && fresh(d.descriptorLog) && d.logNumber == old(d.logNumber)
    {
      LogNext(d, es, i, snapshot);
    }
    assert es[..|es|] == es;
  }

  lemma NothingLeads()
    ensures LeadTo([], NO_FILES) && SortedVersion(NO_FILES)
  {
    forall l | 0 <= l < NUM_LEVELS
      ensures B.ApplyAll(iset{}, l, []) == B.FileISet(NO_FILES[l]) && SortedBySmallest(NO_FILES[l]) {
      assert NO_FILES[l] == [];
    }
  }

  lemma SeriesNew(es: seq<B.Edit>)
    requires WellFormed(es) && AddsOnce(es)
    ensures WellFormed([NO_EDIT] + es)
    ensures forall l | 0 <= l < NUM_LEVELS ::
      SortedBySmallest(NO_FILES[l]) && B.AddsAreNew(B.FileISet(NO_FILES[l]), l, [NO_EDIT] + es)
  {
    forall l | 0 <= l < NUM_LEVELS
      ensures SortedBySmallest(NO_FILES[l]) && B.AddsAreNew(B.FileISet(NO_FILES[l]), l, [NO_EDIT] + es) {
      assert B.AddsAreNew(iset{}, l, es);
      NothingFirstNew(l, es);
      assert NO_FILES[l] == [];
      assert B.FileISet(NO_FILES[l]) == iset{};
    }
  }

  lemma SeriesFolds(es: seq<B.Edit>, v: Version)
    requires LeadTo(es, v) && SortedVersion(v)
    ensures Folds(NO_FILES, [NO_EDIT] + es, v)
  {
    forall l | 0 <= l < NUM_LEVELS
      ensures B.FileISet(v[l]) == B.ApplyAll(B.FileISet(NO_FILES[l]), l, [NO_EDIT] + es) {
      NothingFirst(l, es);
      assert NO_FILES[l] == [];
      assert B.FileISet(NO_FILES[l]) == iset{};
    }
  }

  lemma SeriesStatus(rs: seq<Record>, snapshot: Record, es: seq<B.Edit>, h: Heads, comparator: Coding.Bytes)
    requires Series(rs, snapshot, es, |es|, h) && es != [] && snapshot.comparator == Some(comparator)
    requires h.logNumber.Some? && h.prevLogNumber.Some? && h.nextFile.Some? && h.lastSeq.Some?
    ensures StatusOf(rs, comparator) == Ok && HeadsOf(rs) == h
  {
    assert rs[|rs| - 1] == rs[|es| - 1 + 1] == Numbered(h, es[|es| - 1]);
    forall i | 0 <= i < |rs| ensures !Mismatch(rs[i], comparator) {
      assert i > 0 ==> rs[i] == rs[i - 1 + 1] == Numbered(h, es[i - 1]);
    }
  }

  lemma SeriesReplayable(nm: Naming, rs: seq<Record>, snapshot: Record, es: seq<B.Edit>, h: Heads)
    requires Series(rs, snapshot, es, |es|, h) && snapshot.edit == NO_EDIT && WellFormed(es) && AddsOnce(es)
    requires Writable(nm, snapshot) && AllWritable(nm, h, es)
    ensures Replayable(nm, NO_FILES, rs)
  {
    SeriesEdits(rs, snapshot, es, h);
    SeriesNew(es);
    forall i | 0 <= i < |rs| ensures Writable(nm, rs[i]) {
      assert i > 0 ==> rs[i] == rs[i - 1 + 1] == Numbered(h, es[i - 1]) && WritableAt(nm, h, es, i - 1);
    }
  }

  ghost predicate AllWritable(nm: Naming, h: Heads, es: seq<B.Edit>) {
    forall i | 0 <= i < |es| :: WritableAt(nm, h, es, i)
  }

  ghost predicate WritableAt(nm: Naming, h: Heads, es: seq<B.Edit>, i: nat)
    requires i < |es|
  {
    Writable(nm, Numbered(h, es[i]))
  }

  /** Edits handed over one by one, and a new object that recovers the file: it has
      the version that applying them one at a time has led to. */
  method ThereAndBack(d: Descriptor, es: seq<B.Edit>) returns (r: Descriptor, status: Status)
    requires d.Logged() && d.descriptorLog == null && d.current == NO_FILES && es != []
    requires WellFormed(es) && AddsOnce(es) && Spells(d.names)
    requires Writable(d.names, SnapshotRecord(d.comparator, d.compactPointer, NO_FILES))
    requires AllWritable(d.names, d.Numbers(), es)
    modifies d`current, d`compactPointer, d`logNumber, d`descriptorLog, d`written, d`bytes
    ensures status == Ok && LeadTo(es, d.current) && r.current == d.current
    ensures r.Numbers() == d.Numbers().(nextFile := Some(d.nextFileNumber + 1))
  {
    ghost var snapshot := SnapshotRecord(d.comparator, d.compactPointer, NO_FILES);
    NoFilesEdit();
    LogAll(d, es);
    r := new Descriptor(d.names, d.comparator, d.crc);
    status := RecoverSeries(d, r, es, snapshot);
  }

  method RecoverSeries(d: Descriptor, r: Descriptor, ghost es: seq<B.Edit>, ghost snapshot: Record)
    returns (status: Status)
    requires d != r && HandedOver(d, snapshot, es, |es|) && es != [] && r.current == NO_FILES
    requires r.names == d.names && r.comparator == d.comparator && r.crc == d.crc
    requires WellFormed(es) && AddsOnce(es) && Spells(d.names)
    requires snapshot.edit == NO_EDIT && snapshot.comparator == Some(d.comparator) && Writable(d.names, snapshot)
    requires AllWritable(d.names, d.Numbers(), es)
    modifies r
    ensures status == Ok && r.current == d.current
    ensures r.Numbers() == d.Numbers().(nextFile := Some(d.nextFileNumber + 1))
  {
    ghost var rs, h := d.written, d.Numbers();
    assert es[..|es|] == es;
    SeriesEdits(rs, snapshot, es, h);
    SeriesReplayable(d.names, rs, snapshot, es, h);
    SeriesStatus(rs, snapshot, es, h, d.comparator);
    SeriesFolds(es, d.current);
    LogProofs.AllComplete(d.crc, d.bytes);
    assert rs[..|rs|] == rs;
    status := r.Recover(d.descriptorLog.dest, rs, d.bytes);
    SameVersion(NO_FILES, Edits(rs), d.current, r.current);
  }

  // ---- databases all this applies to ----

  /** There are as many byte strings as ranks. */
  lemma UnarySpells(nm: Naming)
    requires nm.name == Unary && nm.rank == FromUnary
    ensures Spells(nm)
  {
    forall u {:trigger nm.name(u)} ensures nm.rank(nm.name(u)) == u {
      UnaryBack(u);
    }
  }

  const FIRST := File(5, 1, IKey(1, 1, Put), IKey(1, 1, Put), [Entry(IKey(1, 1, Put), "one")])

  function FirstNames(): Naming {
    Naming(Unary, FromUnary, n => FIRST.entries)
  }

  lemma FirstIsWritable(h: Heads)
    requires h == Heads(Some(0), Some(0), Some(2), Some(0))
    ensures AllWritable(FirstNames(), h, [B.Edit({}, [(0, FIRST)])])
  {
    var es := [B.Edit({}, [(0, FIRST)])];
    var r := Numbered(h, es[0]);
    assert |KeyBytes(FirstNames(), FIRST.smallest)| == 10;
    assert VE.AllOk(VE.Heads(EncodedEdit(FirstNames(), r)));
    forall i | 0 <= i < |es| ensures WritableAt(FirstNames(), h, es, i) {}
  }

  lemma FirstIsNew()
    ensures WellFormed([B.Edit({}, [(0, FIRST)])]) && AddsOnce([B.Edit({}, [(0, FIRST)])])
  {
    var es := [B.Edit({}, [(0, FIRST)])];
    assert es[..0] == [];
  }

  // A snapshot of nothing.
  lemma {:induction false} NoPointers(cp: seq<Option<IKey>>, n: nat)
    requires n <= |cp| && forall i | 0 <= i < |cp| :: cp[i] == None
    ensures PointersOf(cp, n) == []
  {
    if n > 0 {
      NoPointers(cp, n - 1);
    }
  }

  lemma EmptySnapshotWritable(nm: Naming, comparator: Coding.Bytes, cp: seq<Option<IKey>>)
    requires |comparator| < Coding.LIMIT32 && forall i | 0 <= i < |cp| :: cp[i] == None
    ensures Writable(nm, SnapshotRecord(comparator, cp, NO_FILES))
  {
    NoPointers(cp, |cp|);
    NoFilesEdit();
    var e := EncodedEdit(nm, SnapshotRecord(comparator, cp, NO_FILES));
    assert e.compactPointers == [] && e.newFiles == [];
    OnlyName(e, comparator);
  }

  lemma OnlyName(e: VE.Edit, comparator: Coding.Bytes)
    requires e == VE.EMPTY.(comparator := Some(comparator)) && |comparator| < Coding.LIMIT32
    ensures VE.EditOk(e)
  {
    assert VE.Maybe(VE.NamePart(e)) == [VE.Comparator(comparator)];
    assert VE.Maybe(VE.LogPart(e)) == VE.Maybe(VE.PrevPart(e)) == [];
    assert VE.Maybe(VE.NextPart(e)) == VE.Maybe(VE.SequencePart(e)) == [];
    assert VE.Heads(e) == [VE.Comparator(comparator)];
  }

  // LeadTo, for one edit that adds one file.
  lemma OneAdded(e: B.Edit, f: File, v: Version)
    requires LeadTo([e], v) && B.EditAdds(e, 0, f)
    ensures f in v[0]
  {
    assert [e][..0] == [];
    assert f in B.FileISet(v[0]);
  }

  /** One table: its edit is written and recovered. */
  method FirstTable(crc: Coding.Crc) returns (r: Descriptor, status: Status)
    ensures status == Ok && FIRST in r.current[0]
  {
    var e := B.Edit({}, [(0, FIRST)]);
    var d := new Descriptor(FirstNames(), [], crc);
    UnarySpells(FirstNames());
    EmptySnapshotWritable(FirstNames(), [], d.compactPointer);
    FirstIsNew();
    FirstIsWritable(d.Numbers());
    r, status := ThereAndBack(d, [e]);
    OneAdded(e, FIRST, r.current);
  }

  // A database that has just been created.
  ghost function NewDb(logNumber: nat, nextFile: nat): Db {
    Db(Engine.State([], None, NO_FILES, 0, [], nextFile, None, [], iset{}, 0), logNumber, logNumber, 0, None, false, {},
      [], Settled, Disk(map[logNumber := []], map[], Manifest(NO_FILES, logNumber, nextFile, 0)))
  }

  lemma NewRun(snapshot: Record, logNumber: nat, nextFile: nat)
    requires logNumber < nextFile && SetsNothing(snapshot) && snapshot.edit == SnapshotEdit(NO_FILES)
    ensures DbRun([NewDb(logNumber, nextFile)])
    ensures Written([NewDb(logNumber, nextFile)], [[snapshot, OpeningRecord(logNumber, nextFile)]])
  {}

  function OpeningRecord(logNumber: nat, nextFile: nat): Record {
    Record(NO_EDIT, None, Some(logNumber), Some(0), Some(nextFile), Some(0), [])
  }

  lemma OpeningWritable(nm: Naming, logNumber: nat, nextFile: nat)
    requires logNumber < Coding.LIMIT64 && nextFile < Coding.LIMIT64
    ensures Writable(nm, OpeningRecord(logNumber, nextFile))
  {}

  // The file of a log of these records.
  method LogRecords(nm: Naming, crc: Coding.Crc, rs: seq<Record>)
    returns (file: Coding.Bytes, ghost bs: seq<Coding.Bytes>)
    ensures IsLogOf(nm, crc, file, rs, bs)
  {
    var writer := new Logs.Writer(crc, []);
    bs := [];
    for i := 0 to |rs|
      invariant writer.Valid() && writer.crc == crc && fresh(writer) && IsLogOf(nm, crc, writer.dest, rs[..i], bs)
    {
      var b := EncodeRecord(nm, rs[i]);
      EncodeMore(nm, rs[..i], bs, rs[i], b);
      assert rs[..i + 1] == rs[..i] + [rs[i]];
      writer.AddRecord(b);
      bs := bs + [b];
    }
    assert rs[..|rs|] == rs;
    file := writer.dest;
  }

  /** The descriptor log of a new database is recovered. */
  method RecoverNew(nm: Naming, comparator: Coding.Bytes, crc: Coding.Crc, logNumber: nat, nextFile: nat)
    returns (d: Descriptor, status: Status)
    requires Spells(nm) && |comparator| < Coding.LIMIT32 && logNumber < nextFile < Coding.LIMIT64
    ensures status == Ok && d.current == NO_FILES && d.logNumber == logNumber && d.manifestFileNumber == nextFile
  {
    d := new Descriptor(nm, comparator, crc);
    var snapshot, opening := SnapshotRecord(comparator, d.compactPointer, NO_FILES), OpeningRecord(logNumber, nextFile);
    EmptySnapshotWritable(nm, comparator, d.compactPointer);
    OpeningWritable(nm, logNumber, nextFile);
    NewRun(snapshot, logNumber, nextFile);
    var file;
    ghost var bs;
    file, bs := LogRecords(nm, crc, [snapshot, opening]);
    LogProofs.AllComplete(crc, bs);
    assert [snapshot, opening][..2] == [snapshot, opening];
    status := RecoverManifest(d, file, [NewDb(logNumber, nextFile)], [[snapshot, opening]], 0, 0, bs);
  }
}
