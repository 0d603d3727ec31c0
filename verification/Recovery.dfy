/** Crashes and recovery (DB::Open, DBImpl::Recover, RecoverLogFile,
    VersionSet::Recover). */
module Recovery {
  import opened Options
  import opened Keys
  import opened Versions
  import opened Engine
  import opened EngineProofs
  import opened EngineRuns
  import opened FlushProofs
  import opened Durability
  import opened DurabilityProofs

  // ---- nothing that was written is missing from disk ----

  lemma LiveLogs(db: Db)
    requires LogsMatch(db) && CommitMatches(db)
    ensures forall e :: LiveLogHas(db.disk, e) <==>
      e in db.s.mem || e in Unapplied(db) || (Durable(db).imm.Some? && e in Durable(db).imm.value)
  {
    var logs, d := db.disk.logs, Durable(db);
    forall e ensures LiveLogHas(db.disk, e)
      <==> e in db.s.mem || e in Unapplied(db) || (d.imm.Some? && e in d.imm.value) {
      if n :| n in logs && n >= db.disk.manifest.logNumber && LogHas(logs[n], e) {
        assert e in LogEntries(logs[n]);
        assert n != db.logFile ==> e in SeqEntries(db.s.imm.value);
      }
      if e in db.s.mem || e in Unapplied(db) {
        assert e in LogEntries(logs[db.logFile]);
      }
      if d.imm.Some? && e in d.imm.value {
        assert e in LogEntries(logs[db.immLog]);
      }
    }
  }

  lemma DurableMem(db: Db)
    ensures Durable(db).mem == db.s.mem && Durable(db).hist == db.s.hist && Durable(db).lastSeq == db.s.lastSeq
    ensures db.commit == Settled || Durable(db).version == db.disk.manifest.version
      || (db.commit.OfCompaction? && db.s.running.None?)
  {}

  /** The manifest's tables and the logs from LogNumber on hold every entry of
      the database, and the batch on its way into the memtable. */
  lemma DiskHoldsEverything(db: Db)
    requires LogsMatch(db) && CommitMatches(db)
    ensures DiskEntries(db.disk) == DbEntries(Durable(db)) + Unapplied(db)
  {
    LiveLogs(db);
    DurableMem(db);
    forall e ensures DiskHas(db.disk, e) <==> DbHas(Durable(db), e) || e in Unapplied(db) {}
  }

  lemma UnappliedSequences(db: Db)
    requires CommitMatches(db)
    ensures DistinctSequences(Unapplied(db))
    ensures forall e | e in Unapplied(db) :: e.k.sn > db.s.lastSeq
    ensures db.logged.Some? ==> forall e | e in Unapplied(db) :: e.k.sn <= db.s.lastSeq + |db.logged.value|
  {
    if db.logged.Some? {
      BatchSequences(db.s.lastSeq + 1, db.logged.value);
    }
  }

  ghost function Logged(db: Db): iset<Entry> {
    db.s.hist + Unapplied(db)
  }

  lemma LoggedSequences(db: Db)
    requires History(db.s) && CommitMatches(db)
    ensures DistinctSequences(Logged(db))
  {
    UnappliedSequences(db);
  }

  /** At every step boundary the disk alone answers every read: each committed
      write is in a table of the manifest or in a live log, or is superseded by
      one that is. */
  lemma DiskAnswers(db: Db, u: UserKey, t: nat)
    requires DbInv(db) && Durable(db).horizon <= t
    ensures Lookup(DiskEntries(db.disk), u, t) == Lookup(Logged(db), u, t)
  {
    var d := Durable(db);
    CommitInv(db.s, db.commit, db.disk.manifest.version);
    DurableMem(db);
    DiskHoldsEverything(db);
    UnappliedSequences(db);
    LoggedSequences(db);
    assert forall e | e in DbEntries(d) :: DbHas(d, e);
    WriteLookup(DbEntries(d), d.hist, Unapplied(db), u, t, d.lastSeq);
  }

  // ---- replaying the logs ----

  /** Recovery's level-0 tables: together they hold the live logs' entries, later
      ones newer and with larger numbers. */
  ghost predicate Replayed(disk: Disk, files: seq<File>) {
    && (forall f | f in files :: ValidFile(f) && f.number > disk.manifest.nextFile)
    && (forall e :: LiveLogHas(disk, e) <==> exists f :: f in files && e in f.entries)
    && forall i, j | 0 <= i < j < |files| ::
      files[i].number < files[j].number && NewerThan(files[j].entries, files[i].entries)
  }

  ghost predicate AddsAll(v: Version, v': Version, files: seq<File>) {
    && SortedBySmallest(v'[0]) && (forall f :: f in v'[0] <==> f in v[0] || f in files)
    && forall l | 1 <= l < NUM_LEVELS :: v'[l] == v[l]
  }

  lemma ReplayHas(v: Version, v': Version, files: seq<File>)
    requires AddsAll(v, v', files)
    ensures forall e :: VersionHas(v', e) <==> VersionHas(v, e) || exists f :: f in files && e in f.entries
  {
    forall e ensures VersionHas(v', e) <==> VersionHas(v, e) || exists f :: f in files && e in f.entries {
      if l, f :| 0 <= l < NUM_LEVELS && f in v[l] && e in f.entries {
        assert f in v'[l];
      }
      if f :| f in files && e in f.entries {
        assert f in v'[0];
      }
      if l, f :| 0 <= l < NUM_LEVELS && f in v'[l] && e in f.entries {
        assert f in v[l] || f in files;
      }
    }
  }

  lemma ReplayOrder(v: Version, v': Version, files: seq<File>, bound: nat)
    requires AddsAll(v, v', files) && NewestOnTop(v) && Below(v, bound)
    requires forall f | f in files :: f.number > bound && NewerThanVersion(f.entries, v)
    requires forall i, j | 0 <= i < j < |files| ::
      files[i].number < files[j].number && NewerThan(files[j].entries, files[i].entries)
    ensures NewestOnTop(v')
  {
    forall l1, l2, f, g | 0 <= l1 < NUM_LEVELS && 0 <= l2 < NUM_LEVELS && f in v'[l1] && g in v'[l2]
      && Above(l1, f, l2, g)
      ensures NewerThan(f.entries, g.entries)
    {
      if l2 == 0 && g in files {
        assert f in files;
        var j :| 0 <= j < |files| && files[j] == f;
        var i :| 0 <= i < |files| && files[i] == g;
        assert i < j;
      } else {
        assert g in v[l2];
        if l1 == 0 && f in files {
          assert NewerThanVersion(f.entries, v);
        } else {
          assert f in v[l1];
        }
      }
    }
  }

  lemma ReplayNumbers(v: Version, v': Version, files: seq<File>, bound: nat, bound': nat)
    requires AddsAll(v, v', files) && DistinctNumbers(v, bound) && bound <= bound'
    requires forall f | f in files :: bound <= f.number < bound'
    requires forall i, j | 0 <= i < j < |files| :: files[i].number < files[j].number
    ensures DistinctNumbers(v', bound')
  {
    forall l, f | 0 <= l < NUM_LEVELS && f in v'[l] ensures f in v[l] || (l == 0 && f in files) {}
    forall f, g | f in files && g in files && f.number == g.number ensures f == g {
      var i :| 0 <= i < |files| && files[i] == f;
      var j :| 0 <= j < |files| && files[j] == g;
      assert i == j;
    }
  }

  lemma ReplayVersion(v: Version, v': Version, files: seq<File>, bound: nat, bound': nat, b: nat)
    requires ValidVersion(v, b) && Below(v, bound) && AddsAll(v, v', files) && bound <= bound'
    requires forall f | f in files :: ValidFile(f) && bound < f.number < bound' && NewerThanVersion(f.entries, v)
    requires forall i, j | 0 <= i < j < |files| ::
      files[i].number < files[j].number && NewerThan(files[j].entries, files[i].entries)
    ensures ValidVersion(v', bound')
  {
    ReplayOrder(v, v', files, bound);
    assert DistinctNumbers(v, bound);
    ReplayNumbers(v, v', files, bound, bound');
    forall l, f | 0 <= l < NUM_LEVELS && f in v'[l] ensures ValidFile(f) {
      assert f in v[l] || f in files;
    }
  }

  // ---- a crash, and opening the database again ----

  /** What earlier attempts to recover may have left besides: unnamed tables and
      empty logs. */
  ghost predicate Littered(disk: Disk, litter: Disk) {
    && litter.manifest == disk.manifest
    && (forall n | n in disk.logs :: n in litter.logs && litter.logs[n] == disk.logs[n])
    && (forall n | n in litter.logs && n !in disk.logs :: litter.logs[n] == [])
    && AllOnDisk(litter.tables, disk.manifest.version)
  }

  ghost predicate LastLogged(disk: Disk, n: nat) {
    && disk.manifest.lastSeq <= n && (forall e | LiveLogHas(disk, e) :: e.k.sn <= n)
    && (n == disk.manifest.lastSeq || exists e :: LiveLogHas(disk, e) && e.k.sn == n)
  }

  /** Recovery reads only the disk; hist and horizon are specification. */
  ghost predicate Reopen(db: Db, db': Db, litter: Disk, files: seq<File>, newLog: nat) {
    var m := litter.manifest;
    && Littered(db.disk, litter) && Replayed(litter, files)
    && newLog > m.nextFile && (forall f | f in files :: f.number < newLog)
    && (forall n | n in litter.logs && n >= m.logNumber :: n < newLog)
    && LastLogged(litter, db'.s.lastSeq) && AddsAll(m.version, db'.s.version, files)
    && AllOnDisk(db'.disk.tables, db'.s.version)
    && db' == Db(
         State([], None, db'.s.version, db'.s.lastSeq, [], newLog + 1, None, [], Logged(db), Durable(db).horizon),
         newLog, newLog, 0, None, false, {}, [], Settled,
         Disk(litter.logs[newLog := []], db'.disk.tables, Manifest(db'.s.version, newLog, newLog + 1, db'.s.lastSeq)))
  }

  lemma LitterHasNothing(disk: Disk, litter: Disk)
    requires Littered(disk, litter)
    ensures forall e :: LiveLogHas(litter, e) <==> LiveLogHas(disk, e)
    ensures DiskEntries(litter) == DiskEntries(disk)
  {
    forall e ensures LiveLogHas(litter, e) <==> LiveLogHas(disk, e) {
      if n :| n in litter.logs && n >= disk.manifest.logNumber && LogHas(litter.logs[n], e) {
        assert n in disk.logs;
      }
      if n :| n in disk.logs && n >= disk.manifest.logNumber && LogHas(disk.logs[n], e) {
        assert n in litter.logs;
      }
    }
    assert forall e :: DiskHas(litter, e) <==> DiskHas(disk, e);
  }

  lemma LastLoggedIs(db: Db, n: nat)
    requires LogsMatch(db) && CommitMatches(db) && SequencesKept(db) && History(db.s) && LastLogged(db.disk, n)
    ensures n == db.s.lastSeq + if db.logged.Some? then |db.logged.value| else 0
  {
    LiveLogs(db);
    UnappliedSequences(db);
    LiveAreWritten(db);
    if db.logged.Some? && db.logged.value != [] {
      var ops := db.logged.value;
      var e := EntryOf(ops[|ops| - 1], db.s.lastSeq + 1 + (|ops| - 1));
      assert InBatch(db.s.lastSeq + 1, ops, |ops| - 1, e);
      assert e in Unapplied(db) && LiveLogHas(db.disk, e);
    }
  }

  lemma LiveAreWritten(db: Db)
    requires LogsMatch(db) && CommitMatches(db) && History(db.s)
    ensures forall e | LiveLogHas(db.disk, e) :: e in Unapplied(db) || e.k.sn <= db.s.lastSeq
  {
    LiveLogs(db);
    forall e | LiveLogHas(db.disk, e) && e !in Unapplied(db) ensures e.k.sn <= db.s.lastSeq {
      assert DbHas(db.s, e) by {
        if e !in db.s.mem {
          assert db.s.imm.Some? && e in db.s.imm.value;
        }
      }
    }
  }

  /** What is in the logs is newer than what is in the tables. */
  lemma LogsAreNewer(db: Db, f: File)
    requires LogsMatch(db) && CommitMatches(db) && MemOrder(Durable(db)) && History(Durable(db))
    requires Durable(db).version == db.disk.manifest.version
    requires forall e | e in f.entries :: LiveLogHas(db.disk, e)
    ensures NewerThanVersion(f.entries, db.disk.manifest.version)
  {
    var d := Durable(db);
    LiveLogs(db);
    UnappliedSequences(db);
    DurableMem(db);
    forall l, g, e, x | 0 <= l < NUM_LEVELS && g in d.version[l] && e in f.entries && x in g.entries
      && e.k.user == x.k.user
      ensures e.k.sn > x.k.sn
    {
      assert DbHas(d, x);
      assert LiveLogHas(db.disk, e);
    }
  }

  lemma ManifestIsDurable(db: Db)
    requires CommitMatches(db)
    ensures Durable(db).version == db.disk.manifest.version
  {}

  lemma DurableIsValid(db: Db)
    requires DbInv(db)
    ensures var d := Durable(db);
      && ValidVersion(d.version, d.nextFile) && MemOrder(d) && History(d) && d.version == db.disk.manifest.version
        && d.horizon <= d.lastSeq
  {
    CommitInv(db.s, db.commit, db.disk.manifest.version);
    ManifestIsDurable(db);
  }

  lemma FilesAreNewer(db: Db, litter: Disk, files: seq<File>)
    requires DbInv(db) && Littered(db.disk, litter) && Replayed(litter, files)
    ensures forall f | f in files :: NewerThanVersion(f.entries, db.disk.manifest.version)
  {
    DurableIsValid(db);
    LitterHasNothing(db.disk, litter);
    forall f | f in files ensures NewerThanVersion(f.entries, db.disk.manifest.version) {
      forall e | e in f.entries ensures LiveLogHas(db.disk, e) {
        assert LiveLogHas(litter, e);
      }
      LogsAreNewer(db, f);
    }
  }

  lemma ReopenVersion(db: Db, db': Db, litter: Disk, files: seq<File>, newLog: nat)
    requires DbInv(db) && Reopen(db, db', litter, files, newLog)
    ensures ValidVersion(db'.s.version, db'.s.nextFile)
  {
    DurableIsValid(db);
    FilesAreNewer(db, litter, files);
    ReplayVersion(db.disk.manifest.version, db'.s.version, files, db.disk.manifest.nextFile, newLog + 1,
      Durable(db).nextFile);
  }

  lemma ReopenContents(db: Db, db': Db, litter: Disk, files: seq<File>, newLog: nat)
    requires LogsMatch(db) && CommitMatches(db) && Reopen(db, db', litter, files, newLog)
    ensures DbEntries(db'.s) == DiskEntries(db.disk)
  {
    LitterHasNothing(db.disk, litter);
    ReplayHas(db.disk.manifest.version, db'.s.version, files);
    forall e ensures DbHas(db'.s, e) <==> DiskHas(litter, e) {}
  }

  lemma ReopenLast(db: Db, db': Db, litter: Disk, files: seq<File>, newLog: nat)
    requires LogsMatch(db) && CommitMatches(db) && SequencesKept(db) && History(db.s)
      && Reopen(db, db', litter, files, newLog)
    ensures db'.s.lastSeq == db.s.lastSeq + if db.logged.Some? then |db.logged.value| else 0
    ensures db'.s.hist == Logged(db)
  {
    LitterHasNothing(db.disk, litter);
    LastLoggedIs(db, db'.s.lastSeq);
  }

  lemma LoggedHistory(db: Db, n: nat)
    requires History(db.s) && History(Durable(db)) && CommitMatches(db) && LogsMatch(db)
    requires n == db.s.lastSeq + if db.logged.Some? then |db.logged.value| else 0
    ensures DistinctSequences(Logged(db)) && (forall e | e in Logged(db) :: e.k.sn <= n)
    ensures DiskEntries(db.disk) <= Logged(db)
  {
    LoggedSequences(db);
    UnappliedSequences(db);
    DiskHoldsEverything(db);
    DurableMem(db);
    forall e | e in DbEntries(Durable(db)) ensures e in db.s.hist {
      assert DbHas(Durable(db), e);
    }
  }

  lemma ReopenHistory(db: Db, s': State)
    requires DbInv(db) && s'.hist == Logged(db) && s'.horizon == Durable(db).horizon && s'.snapshots == []
    requires s'.lastSeq == db.s.lastSeq + if db.logged.Some? then |db.logged.value| else 0
    requires DbEntries(s') == DiskEntries(db.disk)
    ensures History(s') && SnapshotOrder(s') && ExactReads(s')
  {
    DurableIsValid(db);
    DurableMem(db);
    LoggedHistory(db, s'.lastSeq);
    assert forall e | DbHas(s', e) :: e in DbEntries(s');
    forall u, t: nat | s'.horizon <= t ensures Lookup(DbEntries(s'), u, t) == Lookup(s'.hist, u, t) {
      DiskAnswers(db, u, t);
    }
  }

  lemma ReopenLogs(db: Db, db': Db, litter: Disk, files: seq<File>, newLog: nat)
    requires LogsMatch(db) && CommitMatches(db) && Reopen(db, db', litter, files, newLog)
    ensures LogsMatch(db') && RecordsAscend(db')
  {
    assert db.logFile in litter.logs && db.logFile < newLog;
    assert forall e :: !LogHas([], e);
    assert LogEntries([]) == SeqEntries([]) + iset{};
    assert LogsMatch(db');
    assert LiveRecords(db') == [];
  }

  /** After a crash at any point the reopened database satisfies the whole
      invariant again, with every logged write in its history. */
  lemma ReopenKeeps(db: Db, db': Db, litter: Disk, files: seq<File>, newLog: nat)
    requires DbInv(db) && Reopen(db, db', litter, files, newLog)
    ensures DbInv(db')
  {
    ReopenVersion(db, db', litter, files, newLog);
    ReopenContents(db, db', litter, files, newLog);
    ReopenLast(db, db', litter, files, newLog);
    ReopenHistory(db, db'.s);
    ReopenLogs(db, db', litter, files, newLog);
  }
}
