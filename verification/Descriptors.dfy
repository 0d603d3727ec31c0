/** The records of a descriptor log (MANIFEST), and which manifest they stand for
    in every run of the database (db/version_set.cc). */
module Descriptors {
  import opened Options
  import opened Keys
  import opened Versions
  import opened Engine
  import opened EngineRuns
  import opened DbImpl
  import opened Durability
  import opened DurabilityProofs
  import opened Recovery
  import opened RecoveryRuns
  import opened EditHistory
  import Coding
  import B = Builders

  /** A version edit: its file changes and the other fields it may set. */
  datatype Record = Record(
    edit: B.Edit, comparator: Option<Coding.Bytes>, logNumber: Option<nat>, prevLogNumber: Option<nat>,
    nextFile: Option<nat>, lastSeq: Option<nat>, pointers: seq<(nat, IKey)>)

  function Edits(rs: seq<Record>): (es: seq<B.Edit>)
    ensures |es| == |rs|
  {
    seq(|rs|, i requires 0 <= i < |rs| => rs[i].edit)
  }

  function LogNumberOf(r: Record): Option<nat> { r.logNumber }

  function PrevLogNumberOf(r: Record): Option<nat> { r.prevLogNumber }

  function NextFileOf(r: Record): Option<nat> { r.nextFile }

  function LastSeqOf(r: Record): Option<nat> { r.lastSeq }

  /** The last record that sets a field decides it. */
  function Latest(rs: seq<Record>, field: Record -> Option<nat>): Option<nat> {
    if rs == [] then None
    else if field(rs[|rs| - 1]).Some? then field(rs[|rs| - 1])
    else Latest(rs[..|rs| - 1], field)
  }

  lemma LatestMore(rs: seq<Record>, r: Record, field: Record -> Option<nat>)
    ensures Latest(rs + [r], field) == if field(r).Some? then field(r) else Latest(rs, field)
  {
    assert (rs + [r])[..|rs|] == rs;
  }

  lemma EditsMore(rs: seq<Record>, r: Record)
    ensures Edits(rs + [r]) == Edits(rs) + [r.edit]
  {}

  // ---- what is written ----

  // The fields LogAndApply fills in.
  ghost predicate Fills(r: Record, m: Manifest) {
    && r.comparator == None && r.logNumber == Some(m.logNumber) && r.prevLogNumber == Some(0)
    && r.nextFile == Some(m.nextFile) && r.lastSeq == Some(m.lastSeq)
  }

  ghost predicate SetsNothing(r: Record) {
    r.logNumber == None && r.prevLogNumber == None && r.nextFile == None && r.lastSeq == None
  }

  // The files of the first n levels.
  function FilesBelow(v: Version, n: nat): seq<(nat, File)>
    requires n <= |v|
  {
    if n == 0 then [] else FilesBelow(v, n - 1) + Additions(n - 1, v[n - 1])
  }

  /** WriteSnapshot: every file of the version in one edit. */
  function SnapshotEdit(v: Version): B.Edit {
    B.Edit({}, FilesBelow(v, |v|))
  }

  // The edit of a commit.
  ghost function CommittedEdit(s: State, k: Commit): B.Edit {
    match k
    case Settled => B.Edit({}, [])
    case OfFlush(level, size) => if s.imm.Some? then FlushedEdit(s, level, size) else B.Edit({}, [])
    case OfCompaction(outs) => if s.running.Some? then InstallEdit(s.running.value, outs) else B.Edit({}, [])
    case OfMove(c) => InstallEdit(c, c.in0)
  }

  // The recovered tables join level 0.
  function ReplayedEdit(files: seq<File>): B.Edit {
    B.Edit({}, Additions(0, files))
  }

  ghost predicate Describes(rs: seq<Record>, m: Manifest) {
    && Latest(rs, LogNumberOf) == Some(m.logNumber) && Latest(rs, PrevLogNumberOf) == Some(0)
    && Latest(rs, NextFileOf) == Some(m.nextFile) && Latest(rs, LastSeqOf) == Some(m.lastSeq)
  }

  /** rs is the descriptor log of db: replaying it gives db's manifest. */
  ghost predicate DescriptorOf(rs: seq<Record>, db: Db) {
    Traced(Durable(db), Edits(rs)) && Describes(rs, db.disk.manifest)
  }

  lemma FillsDescribes(rs: seq<Record>, r: Record, m: Manifest)
    requires Fills(r, m)
    ensures Describes(rs + [r], m)
  {
    LatestMore(rs, r, LogNumberOf);
    LatestMore(rs, r, PrevLogNumberOf);
    LatestMore(rs, r, NextFileOf);
    LatestMore(rs, r, LastSeqOf);
  }

  // ---- a commit ----

  lemma CommitTraced(s: State, k: Commit, v: Version, es: seq<B.Edit>)
    requires Inv(s) && Traced(s, es) && k != Settled && Commits(s, k, v)
    ensures Traced(Installed(s, k, v), es + [CommittedEdit(s, k)])
  {
    match k
    case OfFlush(level, size) => FlushTraced(s, Installed(s, k, v), es, level, size);
    case OfCompaction(outs) => InstallTraced(s, Installed(s, k, v), es, outs);
    case OfMove(c) => MoveTraced(s, Installed(s, k, v), es, c);
  }

  lemma CommitForm(db: Db, db': Db)
    requires DbInv(db) && CommitStep(db, db')
    ensures db'.s == db.s && db'.commit != Settled && Commits(db.s, db'.commit, db'.disk.manifest.version)
    ensures Durable(db) == db.s && Durable(db') == Installed(db.s, db'.commit, db'.disk.manifest.version)
  {
    if level, size, v :| CommitFlush(db, db', level, size, v) {
    } else if outs, v :| CommitCompaction(db, db', outs, v) {
    } else {
      var c, v :| CommitMove(db, db', c, v);
    }
  }

  lemma CommitDescribed(db: Db, db': Db, rs: seq<Record>, r: Record)
    requires DbInv(db) && DescriptorOf(rs, db) && CommitStep(db, db')
    requires Fills(r, db'.disk.manifest) && r.edit == CommittedEdit(db.s, db'.commit)
    ensures DescriptorOf(rs + [r], db')
  {
    CommitForm(db, db');
    CommitTraced(db.s, db'.commit, db'.disk.manifest.version, Edits(rs));
    EditsMore(rs, r);
    FillsDescribes(rs, r, db'.disk.manifest);
  }

  // ---- other steps ----

  ghost predicate DbQuiet(db: Db, db': Db) {
    || (exists ops :: AppendLog(db, db', ops)) || ApplyBatch(db, db') || SwitchLog(db, db')
    || Snapshots(db, db') || Hold(db, db')
    || BuildTable(db, db') || (exists c :: BeginCompaction(db, db', c)) || ReserveOutput(db, db')
    || (exists n, es :: WriteOutput(db, db', n, es)) || AbandonCompaction(db, db')
    || Settle(db, db') || Collect(db, db')
  }

  lemma SwitchOnward(db: Db, db': Db)
    requires CommitMatches(db) && SwitchLog(db, db')
    ensures Onward(Durable(db), Durable(db'))
  {
    assert !db.commit.OfFlush?;
  }

  lemma ForegroundOnward(db: Db, db': Db)
    requires (exists ops :: AppendLog(db, db', ops)) || ApplyBatch(db, db') || Snapshots(db, db') || Hold(db, db')
    ensures Onward(Durable(db), Durable(db')) && db'.disk.manifest == db.disk.manifest
  {}

  lemma BackgroundOnward(db: Db, db': Db)
    requires BuildTable(db, db') || (exists c :: BeginCompaction(db, db', c)) || ReserveOutput(db, db')
      || (exists n, es :: WriteOutput(db, db', n, es)) || AbandonCompaction(db, db')
    ensures Onward(Durable(db), Durable(db')) && db'.disk.manifest == db.disk.manifest
  {}

  lemma SettleOnward(db: Db, db': Db)
    requires Settle(db, db') || Collect(db, db')
    ensures Durable(db') == Durable(db) && db'.disk.manifest == db.disk.manifest
  {}

  lemma QuietDescribed(db: Db, db': Db, rs: seq<Record>)
    requires CommitMatches(db) && DescriptorOf(rs, db) && DbQuiet(db, db')
    ensures DescriptorOf(rs, db')
  {
    if SwitchLog(db, db') {
      SwitchOnward(db, db');
    } else if Settle(db, db') || Collect(db, db') {
      SettleOnward(db, db');
    } else if (exists ops :: AppendLog(db, db', ops)) || ApplyBatch(db, db') || Snapshots(db, db') || Hold(db, db') {
      ForegroundOnward(db, db');
    } else {
      BackgroundOnward(db, db');
    }
    OnwardTraced(Durable(db), Durable(db'), Edits(rs));
  }

  // ---- opening the database ----

  lemma {:induction false} FilesMembers(v: Version, n: nat)
    requires n <= |v|
    ensures forall m, f :: (m, f) in FilesBelow(v, n) <==> 0 <= m < n && f in v[m]
  {
    if n > 0 {
      FilesMembers(v, n - 1);
      AdditionsMembers(n - 1, v[n - 1]);
    }
  }

  lemma AdditionsMembers(l: nat, fs: seq<File>)
    ensures forall m, f :: (m, f) in Additions(l, fs) <==> m == l && f in fs
  {
    forall m, f | m == l && f in fs ensures (m, f) in Additions(l, fs) {
      var i :| 0 <= i < |fs| && fs[i] == f;
      assert Additions(l, fs)[i] == (m, f);
    }
  }

  // No two of the additions give a level the same number.
  ghost predicate Apart(adds: seq<(nat, File)>) {
    forall i, j | 0 <= i < j < |adds| && adds[i].0 == adds[j].0 :: adds[i].1.number != adds[j].1.number
  }

  lemma ApartJoin(a: seq<(nat, File)>, b: seq<(nat, File)>)
    requires Apart(a) && Apart(b) && forall x, y | x in a && y in b :: x.0 != y.0
    ensures Apart(a + b)
  {
    forall i, j | 0 <= i < j < |a + b|
      ensures (a + b)[i].0 == (a + b)[j].0 ==> (a + b)[i].1.number != (a + b)[j].1.number {
      if i < |a| && j >= |a| {
        assert a[i] in a && b[j - |a|] in b;
      }
    }
  }

  lemma LevelApart(v: Version, bound: nat, l: nat)
    requires ValidVersion(v, bound) && l < NUM_LEVELS
    ensures Apart(Additions(l, v[l]))
  {
    LevelIsSorted(v, bound);
    forall i, j | 0 <= i < j < |v[l]| ensures v[l][i].number != v[l][j].number {
      assert BySmallest(v[l][i], v[l][j]) && v[l][i] in v[l] && v[l][j] in v[l];
    }
  }

  lemma {:induction false} FilesApart(v: Version, n: nat)
    requires (forall l | 0 <= l < |v| :: Apart(Additions(l, v[l]))) && n <= |v|
    ensures Apart(FilesBelow(v, n))
  {
    if n > 0 {
      FilesApart(v, n - 1);
      FilesMembers(v, n - 1);
      AdditionsMembers(n - 1, v[n - 1]);
      ApartJoin(FilesBelow(v, n - 1), Additions(n - 1, v[n - 1]));
    }
  }

  // A state of which only the version and the next file number matter.
  function Holding(v: Version, nextFile: nat): State {
    State([], None, v, 0, [], nextFile, None, [], iset{}, 0)
  }

  lemma SnapshotFits(v: Version, bound: nat)
    requires ValidVersion(v, bound)
    ensures B.ValidEdit(SnapshotEdit(v)) && B.DistinctAdds(SnapshotEdit(v))
    ensures AddsExactly(SnapshotEdit(v), v)
  {
    FilesMembers(v, |v|);
    forall l | 0 <= l < |v| ensures Apart(Additions(l, v[l])) {
      LevelApart(v, bound, l);
    }
    FilesApart(v, |v|);
    var adds := FilesBelow(v, |v|);
    forall i | 0 <= i < |adds| ensures adds[i].0 < NUM_LEVELS {
      assert (adds[i].0, adds[i].1) in adds;
    }
  }

  ghost predicate AddsExactly(e: B.Edit, v: Version) {
    e.deleted == {} && forall l: nat, f :: B.EditAdds(e, l, f) <==> l < NUM_LEVELS && f in v[l]
  }

  lemma SnapshotApplied(e: B.Edit, v: Version, bound: nat)
    requires ValidVersion(v, bound) && AddsExactly(e, v)
    ensures EditApplied(NO_FILES, v, e)
  {
    LevelIsSorted(v, bound);
    forall l | 0 <= l < NUM_LEVELS ensures NO_FILES[l] == [] {}
  }

  lemma AllTraced(e: B.Edit, v: Version, bound: nat, nextFile: nat)
    requires ValidVersion(v, bound) && Below(v, nextFile) && AddsExactly(e, v) && B.ValidEdit(e) && B.DistinctAdds(e)
    ensures Traced(Holding(v, nextFile), [e])
  {
    var s := Holding(NO_FILES, 0);
    NothingTraced(s);
    SnapshotApplied(e, v, bound);
    EditTraced(s, Holding(v, nextFile), [], e);
    assert [] + [e] == [e];
  }

  /** A new descriptor log begins with the version recovered. */
  lemma SnapshotTraced(v: Version, bound: nat, nextFile: nat)
    requires ValidVersion(v, bound) && Below(v, nextFile)
    ensures Traced(Holding(v, nextFile), [SnapshotEdit(v)])
  {
    SnapshotFits(v, bound);
    AllTraced(SnapshotEdit(v), v, bound, nextFile);
  }

  lemma ReplayedApplied(v: Version, v': Version, files: seq<File>, bound: nat)
    requires ValidVersion(v', bound) && AddsAll(v, v', files)
    requires forall i, j | 0 <= i < j < |files| :: files[i].number < files[j].number
    ensures EditApplied(v, v', ReplayedEdit(files))
    ensures B.ValidEdit(ReplayedEdit(files)) && B.DistinctAdds(ReplayedEdit(files))
    ensures forall l, f :: B.EditAdds(ReplayedEdit(files), l, f) <==> l == 0 && f in files
  {
    LevelIsSorted(v', bound);
    AdditionsMembers(0, files);
  }

  lemma ReplayedTraced(v: Version, nextFile: nat, s': State, files: seq<File>, bound: nat)
    requires ValidVersion(v, bound) && Below(v, nextFile)
    requires ValidVersion(s'.version, s'.nextFile) && AddsAll(v, s'.version, files) && s'.reserved == []
    requires nextFile <= s'.nextFile && forall f | f in files :: f.number > nextFile
    requires forall i, j | 0 <= i < j < |files| :: files[i].number < files[j].number
    ensures Traced(s', [SnapshotEdit(v), ReplayedEdit(files)])
  {
    SnapshotTraced(v, bound, nextFile);
    ReplayedApplied(v, s'.version, files, s'.nextFile);
    EditTraced(Holding(v, nextFile), s', [SnapshotEdit(v)], ReplayedEdit(files));
    assert [SnapshotEdit(v)] + [ReplayedEdit(files)] == [SnapshotEdit(v), ReplayedEdit(files)];
  }

  lemma ReopenFacts(db: Db, db': Db, litter: Disk, files: seq<File>, newLog: nat)
    requires DbInv(db) && Reopen(db, db', litter, files, newLog)
    ensures var m := db.disk.manifest;
      && ValidVersion(m.version, Durable(db).nextFile) && Below(m.version, m.nextFile)
      && ValidVersion(db'.s.version, db'.s.nextFile) && AddsAll(m.version, db'.s.version, files)
      && db'.s.reserved == [] && m.nextFile <= db'.s.nextFile && (forall f | f in files :: f.number > m.nextFile)
      && (forall i, j | 0 <= i < j < |files| :: files[i].number < files[j].number) && Durable(db') == db'.s
  {
    DurableIsValid(db);
    ReopenVersion(db, db', litter, files, newLog);
  }

  lemma ReopenTraced(db: Db, db': Db, litter: Disk, files: seq<File>, newLog: nat)
    requires DbInv(db) && Reopen(db, db', litter, files, newLog)
    ensures Traced(Durable(db'), [SnapshotEdit(db.disk.manifest.version), ReplayedEdit(files)])
  {
    ReopenFacts(db, db', litter, files, newLog);
    ReplayedTraced(db.disk.manifest.version, db.disk.manifest.nextFile, db'.s, files, Durable(db).nextFile);
  }

  // The first two records after opening: a snapshot, then what opening changed.
  ghost predicate Opening(rs: seq<Record>, v: Version, e: B.Edit, m: Manifest) {
    |rs| == 2 && SetsNothing(rs[0]) && rs[0].edit == SnapshotEdit(v) && Fills(rs[1], m) && rs[1].edit == e
  }

  lemma OpeningDescribes(rs: seq<Record>, v: Version, e: B.Edit, m: Manifest)
    requires Opening(rs, v, e, m)
    ensures Describes(rs, m) && Edits(rs) == [SnapshotEdit(v), e]
  {
    assert rs == rs[..1] + [rs[1]];
    FillsDescribes(rs[..1], rs[1], m);
  }

  // ---- whole runs, with crashes ----

  ghost predicate InitDescriptor(db: Db, rs: seq<Record>) {
    Opening(rs, NO_FILES, B.Edit({}, []), db.disk.manifest)
  }

  ghost predicate Reopened(db: Db, db': Db, rs: seq<Record>) {
    exists litter, files, newLog :: Reopen(db, db', litter, files, newLog)
      && Opening(rs, db.disk.manifest.version, ReplayedEdit(files), db'.disk.manifest)
  }

  ghost predicate Appended(db: Db, db': Db, rs: seq<Record>, rs': seq<Record>) {
    CommitStep(db, db') && |rs'| == |rs| + 1 && rs' == rs + [rs'[|rs|]]
    && Fills(rs'[|rs|], db'.disk.manifest) && rs'[|rs|].edit == CommittedEdit(db.s, db'.commit)
  }

  /** What a step does to the descriptor log. */
  ghost predicate Writes(db: Db, db': Db, rs: seq<Record>, rs': seq<Record>) {
    Appended(db, db', rs, rs') || Reopened(db, db', rs') || (DbQuiet(db, db') && rs' == rs)
  }

  ghost predicate Written(dbs: seq<Db>, descriptors: seq<seq<Record>>) {
    && |descriptors| == |dbs| && (dbs != [] ==> InitDescriptor(dbs[0], descriptors[0]))
    && forall i | 0 <= i < |dbs| - 1 :: WritesAt(dbs, descriptors, i)
  }

  ghost predicate WritesAt(dbs: seq<Db>, descriptors: seq<seq<Record>>, i: nat) {
    i + 1 < |dbs| && i + 1 < |descriptors| && Writes(dbs[i], dbs[i + 1], descriptors[i], descriptors[i + 1])
  }

  lemma WritesKeeps(db: Db, db': Db, rs: seq<Record>, rs': seq<Record>)
    requires DbInv(db) && DescriptorOf(rs, db) && Writes(db, db', rs, rs')
    ensures DescriptorOf(rs', db')
  {
    if Appended(db, db', rs, rs') {
      CommitDescribed(db, db', rs, rs'[|rs|]);
    } else if Reopened(db, db', rs') {
      var litter, files, newLog :| Reopen(db, db', litter, files, newLog)
        && Opening(rs', db.disk.manifest.version, ReplayedEdit(files), db'.disk.manifest);
      ReopenTraced(db, db', litter, files, newLog);
      OpeningDescribes(rs', db.disk.manifest.version, ReplayedEdit(files), db'.disk.manifest);
    } else {
      QuietDescribed(db, db', rs);
    }
  }

  lemma ThenNothing(s: State, es: seq<B.Edit>, nextFile: nat)
    requires Traced(Holding(s.version, nextFile), es) && nextFile <= s.nextFile
    requires ValidVersion(s.version, s.nextFile) && s.reserved == []
    ensures Traced(s, es + [B.Edit({}, [])])
  {
    NothingIsEdit(s.version, s.nextFile);
    EditTraced(Holding(s.version, nextFile), s, es, B.Edit({}, []));
  }

  lemma EmptyTraced(s: State)
    requires ValidVersion(s.version, s.nextFile) && Below(s.version, 0) && s.reserved == []
    ensures Traced(s, [SnapshotEdit(s.version), B.Edit({}, [])])
  {
    SnapshotTraced(s.version, s.nextFile, 0);
    var es := [SnapshotEdit(s.version)];
    ThenNothing(s, es, 0);
    assert es + [B.Edit({}, [])] == [es[0], B.Edit({}, [])];
  }

  lemma InitFacts(db: Db)
    requires InitDb(db)
    ensures db.s.version == NO_FILES && Durable(db) == db.s
    ensures ValidVersion(db.s.version, db.s.nextFile) && Below(db.s.version, 0) && db.s.reserved == []
  {
    InitInv(db.s);
    forall l | 0 <= l < NUM_LEVELS ensures NO_FILES[l] == [] {}
  }

  lemma InitDescribed(db: Db, rs: seq<Record>)
    requires InitDb(db) && InitDescriptor(db, rs)
    ensures DescriptorOf(rs, db)
  {
    InitFacts(db);
    OpeningDescribes(rs, db.s.version, B.Edit({}, []), db.disk.manifest);
    EmptyTraced(db.s);
  }

  /** Induction along a run. */
  lemma {:induction false} AlongRun(dbs: seq<Db>, ds: seq<seq<Record>>, n: nat, inv: Db -> bool,
    writes: (Db, Db, seq<Record>, seq<Record>) -> bool, holds: (seq<Record>, Db) -> bool)
    requires n < |dbs| == |ds| && holds(ds[0], dbs[0]) && forall i | 0 <= i < |dbs| :: inv(dbs[i])
    requires forall i | 0 <= i < |dbs| - 1 :: writes(dbs[i], dbs[i + 1], ds[i], ds[i + 1])
    requires forall db, db', rs, rs' | inv(db) && holds(rs, db) && writes(db, db', rs, rs') :: holds(rs', db')
    ensures holds(ds[n], dbs[n])
  {
    if n > 0 {
      AlongRun(dbs, ds, n - 1, inv, writes, holds);
      assert writes(dbs[n - 1], dbs[n - 1 + 1], ds[n - 1], ds[n - 1 + 1]);
    }
  }

  /** In every state of every run, crashes included, the descriptor log written so
      far gives no level a number twice and stands for the manifest. */
  lemma DescriptorIsManifest(dbs: seq<Db>, descriptors: seq<seq<Record>>, n: nat)
    requires DbRun(dbs) && Written(dbs, descriptors) && n < |dbs|
    ensures DescriptorOf(descriptors[n], dbs[n])
  {
    InitDescribed(dbs[0], descriptors[0]);
    forall i | 0 <= i < |dbs| ensures DbInv(dbs[i]) {
      DbRunInv(dbs, i);
    }
    forall i | 0 <= i < |dbs| - 1 ensures Writes(dbs[i], dbs[i + 1], descriptors[i], descriptors[i + 1]) {
      assert WritesAt(dbs, descriptors, i);
    }
    forall db, db', rs, rs' | DbInv(db) && DescriptorOf(rs, db) && Writes(db, db', rs, rs')
      ensures DescriptorOf(rs', db') {
      WritesKeeps(db, db', rs, rs');
    }
    AlongRun(dbs, descriptors, n, db => DbInv(db), (db, db', rs, rs') => Writes(db, db', rs, rs'),
      (rs, db) => DescriptorOf(rs, db));
  }

  function Filled(e: B.Edit, m: Manifest): Record {
    Record(e, None, Some(m.logNumber), Some(0), Some(m.nextFile), Some(m.lastSeq), [])
  }

  function Bare(e: B.Edit): Record {
    Record(e, None, None, None, None, None, [])
  }

  lemma QuietStep(db: Db, db': Db)
    requires DbStep(db, db') && !CommitStep(db, db') && !Crash(db, db')
    ensures DbQuiet(db, db')
  {}

  lemma MakeOpening(v: Version, e: B.Edit, m: Manifest) returns (rs: seq<Record>)
    ensures Opening(rs, v, e, m)
  {
    rs := [Bare(SnapshotEdit(v)), Filled(e, m)];
  }

  lemma CrashWrites(db: Db, db': Db) returns (rs': seq<Record>)
    requires Crash(db, db')
    ensures Reopened(db, db', rs')
  {
    var litter, files, newLog :| Reopen(db, db', litter, files, newLog);
    rs' := MakeOpening(db.disk.manifest.version, ReplayedEdit(files), db'.disk.manifest);
  }

  lemma StepWrites(db: Db, db': Db, rs: seq<Record>) returns (rs': seq<Record>)
    requires DbStep(db, db')
    ensures Writes(db, db', rs, rs')
  {
    if CommitStep(db, db') {
      rs' := rs + [Filled(CommittedEdit(db.s, db'.commit), db'.disk.manifest)];
    } else if Crash(db, db') {
      rs' := CrashWrites(db, db');
    } else {
      QuietStep(db, db');
      rs' := rs;
    }
  }

  /** Every run writes descriptor logs. */
  lemma RunIsWritten(dbs: seq<Db>) returns (descriptors: seq<seq<Record>>)
    requires DbRun(dbs)
    ensures Written(dbs, descriptors)
  {
    descriptors := FirstWritten(dbs, |dbs| - 1);
    forall i | 0 <= i < |dbs| - 1 ensures WritesAt(dbs, descriptors, i) {}
  }

  lemma {:induction false} FirstWritten(dbs: seq<Db>, n: nat) returns (descriptors: seq<seq<Record>>)
    requires DbRun(dbs) && n < |dbs|
    ensures |descriptors| == n + 1 && InitDescriptor(dbs[0], descriptors[0])
    ensures forall i: nat | i < n :: WritesAt(dbs, descriptors, i)
  {
    if n == 0 {
      var first := MakeOpening(NO_FILES, B.Edit({}, []), dbs[0].disk.manifest);
      descriptors := [first];
    } else {
      var before := FirstWritten(dbs, n - 1);
      assert DbStep(dbs[n - 1], dbs[n - 1 + 1]);
      var last := StepWrites(dbs[n - 1], dbs[n], before[n - 1]);
      descriptors := before + [last];
      forall i: nat | i < n ensures WritesAt(dbs, descriptors, i) {
        assert i < n - 1 ==> WritesAt(dbs, before, i);
      }
    }
  }
}
