/** Every step keeps what recovery needs on disk. */
module DurabilityProofs {
  import opened Options
  import opened Keys
  import opened Versions
  import opened Engine
  import opened EngineProofs
  import opened EngineRuns
  import opened FlushProofs
  import opened CompactionProofs
  import opened Durability

  lemma LogAppend(log: Log, b: Batch)
    requires Fits(b)
    ensures LogEntries(log + [b]) == LogEntries(log) + BatchEntries(b.first, b.ops)
  {
    forall e ensures LogHas(log + [b], e) <==> LogHas(log, e) || e in BatchEntries(b.first, b.ops) {
      if c :| c in log && Fits(c) && e in BatchEntries(c.first, c.ops) {
        assert c in log + [b];
      }
      assert b in log + [b];
    }
  }

  // ---- what an installed commit leaves ----

  lemma CommitInv(s: State, k: Commit, v: Version)
    requires Inv(s) && Commits(s, k, v)
    ensures Inv(Installed(s, k, v))
  {
    match k
    case Settled =>
    case OfFlush(level, size) => FlushKeeps(s, Installed(s, k, v), level, size);
    case OfCompaction(outs) => InstallKeeps(s, Installed(s, k, v), outs);
    case OfMove(c) => MoveKeeps(s, Installed(s, k, v), c);
  }

  // ---- writers ----

  // Everything the tables and the manifest depend on is as before.
  ghost predicate SameFiles(db: Db, db': Db) {
    && db'.s.version == db.s.version && db'.s.nextFile == db.s.nextFile && db'.s.reserved == db.s.reserved
      && db'.s.imm == db.s.imm
    && db'.commit == db.commit && db'.flushing == db.flushing && db'.pending == db.pending && db'.held == db.held
    && db'.disk.tables == db.disk.tables && db'.disk.manifest == db.disk.manifest
  }

  lemma SameFilesKept(db: Db, db': Db)
    requires TablesKept(db) && SameFiles(db, db')
    ensures TablesKept(db')
  {}

  lemma AppendLogLogs(db: Db, db': Db, ops: seq<Op>)
    requires LogsMatch(db) && RecordsAscend(db) && AppendLog(db, db', ops)
    ensures LogsMatch(db') && RecordsAscend(db')
  {
    var log, b := db.disk.logs[db.logFile], Batch(db.s.lastSeq + 1, ops);
    LogAppend(log, b);
    assert SeqEntries(db.s.mem) + iset{} == SeqEntries(db.s.mem);
    assert LogsMatch(db');
    assert LiveRecords(db') == LiveRecords(db) + [b];
  }

  lemma LogsGrow(disk: Disk, disk': Disk, n: nat, b: Batch)
    requires n in disk.logs && disk' == disk.(logs := disk.logs[n := disk.logs[n] + [b]])
    ensures forall e | LiveLogHas(disk, e) :: LiveLogHas(disk', e)
  {
    forall e | LiveLogHas(disk, e) ensures LiveLogHas(disk', e) {
      var m :| m in disk.logs && m >= disk.manifest.logNumber && LogHas(disk.logs[m], e);
      var c :| c in disk.logs[m] && Fits(c) && e in BatchEntries(c.first, c.ops);
      assert c in disk'.logs[m];
    }
  }

  lemma AppendLogKeeps(db: Db, db': Db, ops: seq<Op>)
    requires DbInv(db) && AppendLog(db, db', ops)
    ensures DbInv(db')
  {
    AppendLogLogs(db, db', ops);
    SameFilesKept(db, db');
    LogsGrow(db.disk, db'.disk, db.logFile, Batch(db.s.lastSeq + 1, ops));
  }

  // The commit under way does not depend on what writers change.
  ghost predicate SameBackground(s: State, s': State) {
    && s'.imm == s.imm && s'.version == s.version && s'.nextFile == s.nextFile && s'.running == s.running
      && s'.reserved == s.reserved
    && s'.horizon == s.horizon
  }

  lemma CommitStays(s: State, s': State, k: Commit, v: Version)
    requires Commits(s, k, v) && SameBackground(s, s')
    ensures Commits(s', k, v)
  {}

  lemma ApplyLogs(db: Db, db': Db)
    requires LogsMatch(db) && RecordsAscend(db) && CommitMatches(db) && ApplyBatch(db, db')
    ensures LogsMatch(db') && RecordsAscend(db')
  {
    assert SeqEntries(db'.s.mem) + iset{} == SeqEntries(db.s.mem) + Unapplied(db);
    assert LogsMatch(db');
    assert LiveRecords(db') == LiveRecords(db);
  }

  lemma ApplySequences(db: Db, db': Db)
    requires LogsMatch(db) && SequencesKept(db) && CommitMatches(db) && ApplyBatch(db, db')
    ensures SequencesKept(db')
  {
    var ops := db.logged.value;
    if ops != [] {
      var e := EntryOf(ops[|ops| - 1], db.s.lastSeq + 1 + (|ops| - 1));
      assert InBatch(db.s.lastSeq + 1, ops, |ops| - 1, e);
      assert e in Unapplied(db) && e in LogEntries(db.disk.logs[db.logFile]);
      assert LiveLogHas(db'.disk, e) && e.k.sn == db'.s.lastSeq;
    }
  }

  lemma ApplyBatchKeeps(db: Db, db': Db)
    requires DbInv(db) && ApplyBatch(db, db')
    ensures DbInv(db')
  {
    WriteKeeps(db.s, db'.s, db.logged.value);
    ApplyLogs(db, db');
    ApplySequences(db, db');
    SameFilesKept(db, db');
    CommitStays(db.s, db'.s, db.commit, db.disk.manifest.version);
  }

  lemma SwitchLogs(db: Db, db': Db)
    requires LogsMatch(db) && RecordsAscend(db) && SwitchLog(db, db')
    ensures LogsMatch(db') && RecordsAscend(db')
  {
    assert SeqEntries(db.s.mem) + iset{} == SeqEntries(db.s.mem);
    assert forall e :: !LogHas([], e);
    assert LogEntries([]) == SeqEntries([]) + iset{};
    assert LogsMatch(db');
    assert LiveRecords(db') == LiveRecords(db);
  }

  lemma SwitchSequences(db: Db, db': Db)
    requires LogsMatch(db) && SequencesKept(db) && CommitMatches(db) && SwitchLog(db, db')
    ensures SequencesKept(db')
  {
    forall e | LiveLogHas(db.disk, e) ensures LiveLogHas(db'.disk, e) {
      var n :| n in db.disk.logs && n >= db.disk.manifest.logNumber && LogHas(db.disk.logs[n], e);
      assert n != db.s.nextFile;
      assert db'.disk.logs[n] == db.disk.logs[n];
    }
  }

  lemma SwitchTables(db: Db, db': Db)
    requires TablesKept(db) && CommitMatches(db) && SwitchLog(db, db')
    ensures TablesKept(db')
  {}

  lemma SwitchCommit(s: State, s': State, k: Commit, v: Version)
    requires Commits(s, k, v) && Switch(s, s')
    ensures Commits(s', k, v)
  {}

  lemma SwitchLogKeeps(db: Db, db': Db)
    requires DbInv(db) && SwitchLog(db, db')
    ensures DbInv(db')
  {
    SwitchKeeps(db.s, db'.s);
    SwitchLogs(db, db');
    SwitchSequences(db, db');
    SwitchTables(db, db');
    SwitchCommit(db.s, db'.s, db.commit, db.disk.manifest.version);
  }

  // Everything the logs are matched against is as before.
  ghost predicate SameLogs(db: Db, db': Db) {
    && db'.disk.logs == db.disk.logs && db'.s.mem == db.s.mem && db'.s.imm == db.s.imm && db'.s.lastSeq == db.s.lastSeq
    && db'.logged == db.logged && db'.logNumber == db.logNumber && db'.logFile == db.logFile && db'.immLog == db.immLog
    && db.s.nextFile <= db'.s.nextFile
  }

  lemma SameLogsKept(db: Db, db': Db)
    requires LogsMatch(db) && RecordsAscend(db) && SameLogs(db, db')
    ensures LogsMatch(db') && RecordsAscend(db')
  {
    assert Unapplied(db') == Unapplied(db);
    assert LogsMatch(db');
    assert LiveRecords(db') == LiveRecords(db);
  }

  lemma SameSequencesKept(db: Db, db': Db)
    requires SequencesKept(db) && db'.disk.logs == db.disk.logs && db'.disk.manifest == db.disk.manifest
    requires db'.s.lastSeq == db.s.lastSeq && Durable(db).nextFile <= Durable(db').nextFile
    ensures SequencesKept(db')
  {
    assert forall e :: LiveLogHas(db.disk, e) <==> LiveLogHas(db'.disk, e);
  }

  // ---- readers ----

  lemma SnapshotCommit(db: Db, db': Db)
    requires CommitMatches(db) && Snapshots(db, db')
    ensures CommitMatches(db')
  {
    CommitStays(db.s, db'.s, db.commit, db.disk.manifest.version);
  }

  lemma SnapshotsKeep(db: Db, db': Db)
    requires DbInv(db) && Snapshots(db, db')
    ensures DbInv(db')
  {
    assert Inv(db'.s) by {
      assert Step(db.s, db'.s);
      StepKeeps(db.s, db'.s);
    }
    SnapshotCommit(db, db');
    SameFilesKept(db, db');
    SameLogsKept(db, db');
    SameSequencesKept(db, db');
  }

  lemma HoldTables(db: Db, db': Db)
    requires TablesKept(db) && DistinctNumbers(db.s.version, db.s.nextFile)
      && ReservedNumbers(db.s.reserved, db.s.version, db.s.nextFile)
    requires Hold(db, db')
    ensures TablesKept(db')
  {
    forall n | n in db.s.reserved ensures !Names(db.s.version, n) {}
    forall i | 0 <= i < |db'.held| ensures db'.held[i] == db.s.version || db'.held[i] in db.held {}
  }

  lemma HoldKeeps(db: Db, db': Db)
    requires DbInv(db) && Hold(db, db')
    ensures DbInv(db')
  {
    HoldTables(db, db');
    SameLogsKept(db, db');
    SameSequencesKept(db, db');
  }

  // ---- the background thread ----

  lemma NewTable(tables: map<nat, seq<Entry>>, v: Version, n: nat, es: seq<Entry>)
    requires AllOnDisk(tables, v) && !Names(v, n)
    ensures AllOnDisk(tables[n := es], v)
  {
    forall l, f | 0 <= l < NUM_LEVELS && f in v[l] ensures OnDisk(tables[n := es], f) {
      assert OnDisk(tables, f) && f.number != n;
    }
  }

  lemma NotIn(v: Version, bound: nat, n: nat)
    requires Below(v, bound) && n >= bound
    ensures !Names(v, n)
  {}

  lemma BuildTables(db: Db, db': Db)
    requires TablesKept(db) && CommitMatches(db) && DistinctNumbers(db.s.version, db.s.nextFile) && BuildTable(db, db')
    ensures TablesKept(db')
  {
    var n, es := db.s.nextFile, db.s.imm.value;
    NotIn(db.s.version, n, n);
    NewTable(db.disk.tables, db.s.version, n, es);
    forall i | 0 <= i < |db.held| ensures AllOnDisk(db.disk.tables[n := es], db.held[i]) {
      NotIn(db.held[i], n, n);
      NewTable(db.disk.tables, db.held[i], n, es);
    }
  }

  lemma BuildTableKeeps(db: Db, db': Db)
    requires DbInv(db) && BuildTable(db, db')
    ensures DbInv(db')
  {
    BuildTables(db, db');
    SameLogsKept(db, db');
    SameSequencesKept(db, db');
  }

  lemma CommittedFiles(s: State, k: Commit, v: Version)
    requires Commits(s, k, v)
    ensures forall l, f | 0 <= l < NUM_LEVELS && f in v[l] ::
      (exists m :: 0 <= m < NUM_LEVELS && f in s.version[m])
      || (k.OfFlush? && s.imm.Some? && s.imm.value != [] && f == TableOf(s.nextFile, k.size, s.imm.value))
      || (k.OfCompaction? && f in k.outs)
  {
    forall l, f | 0 <= l < NUM_LEVELS && f in v[l]
      ensures (exists m :: 0 <= m < NUM_LEVELS && f in s.version[m])
        || (k.OfFlush? && s.imm.Some? && s.imm.value != [] && f == TableOf(s.nextFile, k.size, s.imm.value))
        || (k.OfCompaction? && f in k.outs)
    {
      if f !in s.version[l] && k.OfMove? {
        assert f in s.version[k.c.level];
      }
    }
  }

  lemma CommitTables(db: Db, k: Commit, v: Version)
    requires TablesKept(db) && Commits(db.s, k, v) && db.commit == Settled
    requires k.OfFlush? ==> db.flushing
    requires k.OfCompaction? ==> forall o | o in k.outs :: OnDisk(db.disk.tables, o)
    ensures AllOnDisk(db.disk.tables, v)
  {
    CommittedFiles(db.s, k, v);
    forall l, f | 0 <= l < NUM_LEVELS && f in v[l] ensures OnDisk(db.disk.tables, f) {
      if m :| 0 <= m < NUM_LEVELS && f in db.s.version[m] {
        assert OnDisk(db.disk.tables, f);
      }
    }
  }

  lemma CommitNumbers(s: State, k: Commit, v: Version)
    requires Commits(s, k, v) && Below(s.version, s.nextFile)
      && (forall n | n in s.reserved :: n < s.nextFile)
    ensures Below(v, Installed(s, k, v).nextFile)
  {
    CommittedFiles(s, k, v);
    forall l, f | 0 <= l < NUM_LEVELS && f in v[l] ensures f.number < Installed(s, k, v).nextFile {
      if m :| 0 <= m < NUM_LEVELS && f in s.version[m] {
        assert f.number < s.nextFile;
      } else if k.OfCompaction? {
        assert f.number in s.reserved;
      }
    }
  }

  // What the three ways of starting a commit have in common.
  ghost predicate Starts(db: Db, db': Db, k: Commit, v: Version) {
    && db.commit == Settled && k != Settled && Commits(db.s, k, v) && (k.OfFlush? <==> db.flushing)
    && (k.OfCompaction? ==> forall o | o in k.outs :: OnDisk(db.disk.tables, o))
    && db' == db.(commit := k, pending := db'.pending, disk := db.disk.(manifest := ManifestFor(
         db.s, v, if k.OfFlush? then db.logFile else db.logNumber, Installed(db.s, k, v).nextFile)))
    && db'.pending == if k.OfFlush? then db.pending - {db.s.nextFile} else db.pending
  }

  lemma StartTables(db: Db, db': Db, k: Commit, v: Version)
    requires TablesKept(db) && CommitMatches(db) && Starts(db, db', k, v) && forall n | n in db.s.reserved ::
      n < db.s.nextFile
    ensures TablesKept(db')
  {
    CommitTables(db, k, v);
  }

  lemma StartKeeps(db: Db, db': Db, k: Commit, v: Version)
    requires DbInv(db) && Starts(db, db', k, v)
    ensures DbInv(db')
  {
    StartTables(db, db', k, v);
    CommitNumbers(db.s, k, v);
    SameLogsKept(db, db');
  }

  lemma SubAscends(live: Log, k: nat, log: Log)
    requires Ascending(live) && k + |log| <= |live| && log == live[k..k + |log|]
    ensures Ascending(log)
  {
    assert forall i | 0 <= i < |log| :: log[i] == live[k + i];
    assert forall b | b in log :: b in live;
  }

  lemma SettleMatches(db: Db, db': Db)
    requires LogsMatch(db) && CommitMatches(db) && Settle(db, db')
    ensures LogsMatch(db') && Unapplied(db') == Unapplied(db)
  {}

  lemma SettleLogs(db: Db, db': Db)
    requires LogsMatch(db) && RecordsAscend(db) && CommitMatches(db) && Settle(db, db')
    ensures LogsMatch(db') && RecordsAscend(db')
  {
    SettleMatches(db, db');
    var k := if db.s.imm.Some? && db'.s.imm.None? then |db.disk.logs[db.immLog]| else 0;
    var rest := LiveRecords(db');
    assert rest == LiveRecords(db)[k..k + |rest|];
    SubAscends(LiveRecords(db), k, rest);
    assert forall b | b in rest :: b in LiveRecords(db);
  }

  lemma SettleTables(db: Db, db': Db)
    requires TablesKept(db) && CommitMatches(db) && Settle(db, db')
    ensures TablesKept(db')
  {}

  lemma SettleRest(db: Db, db': Db)
    requires SequencesKept(db) && CommitMatches(db) && Settle(db, db')
    ensures SequencesKept(db') && CommitMatches(db')
  {
    SameSequencesKept(db, db');
  }

  lemma SettleKeeps(db: Db, db': Db)
    requires DbInv(db) && Settle(db, db')
    ensures DbInv(db')
  {
    CommitInv(db.s, db.commit, db.disk.manifest.version);
    SettleLogs(db, db');
    SettleTables(db, db');
    SettleRest(db, db');
  }

  lemma BeginKept(db: Db, db': Db, c: Compaction)
    requires DbInv(db) && BeginCompaction(db, db', c)
    ensures DbInv(db')
  {
    BeginKeeps(db.s, db'.s, c);
    SameLogsKept(db, db');
    SameSequencesKept(db, db');
  }

  lemma ReserveTables(db: Db, db': Db)
    requires TablesKept(db) && ReserveOutput(db, db')
    ensures TablesKept(db')
  {
    forall i | 0 <= i < |db.held| ensures !Names(db.held[i], db.s.nextFile) {
      NotIn(db.held[i], db.s.nextFile, db.s.nextFile);
    }
  }

  lemma ReserveKept(db: Db, db': Db)
    requires DbInv(db) && ReserveOutput(db, db')
    ensures DbInv(db')
  {
    ReserveKeeps(db.s, db'.s);
    ReserveTables(db, db');
    SameLogsKept(db, db');
    SameSequencesKept(db, db');
  }

  lemma OutputTables(db: Db, db': Db, n: nat, es: seq<Entry>)
    requires TablesKept(db) && CommitMatches(db) && ReservedNumbers(db.s.reserved, db.s.version, db.s.nextFile)
      && WriteOutput(db, db', n, es)
    ensures TablesKept(db')
  {
    NewTable(db.disk.tables, db.s.version, n, es);
    forall i | 0 <= i < |db.held| ensures AllOnDisk(db.disk.tables[n := es], db.held[i]) {
      NewTable(db.disk.tables, db.held[i], n, es);
    }
  }

  lemma OutputKeeps(db: Db, db': Db, n: nat, es: seq<Entry>)
    requires DbInv(db) && WriteOutput(db, db', n, es)
    ensures DbInv(db')
  {
    OutputTables(db, db', n, es);
    SameLogsKept(db, db');
    SameSequencesKept(db, db');
  }

  lemma AbandonKept(db: Db, db': Db)
    requires DbInv(db) && AbandonCompaction(db, db')
    ensures DbInv(db')
  {
    AbandonKeeps(db.s, db'.s);
    SameLogsKept(db, db');
    SameSequencesKept(db, db');
  }

  // ---- collecting garbage ----

  /** DeleteObsoleteFiles never removes a table of a live version or a pending
      output ... */
  lemma CollectTables(db: Db, db': Db)
    requires TablesKept(db) && CommitMatches(db) && Collect(db, db')
    ensures TablesKept(db')
  {
    forall v, l, f | (v == db.s.version || v in db.held) && 0 <= l < NUM_LEVELS && f in v[l]
      && OnDisk(db.disk.tables, f)
      ensures OnDisk(db'.disk.tables, f)
    {
      assert Names(v, f.number);
      assert Referenced(db, f.number);
    }
  }

  /** ... nor a log with data in it that recovery would read. */
  lemma CollectLogs(db: Db, db': Db)
    requires LogsMatch(db) && RecordsAscend(db) && Collect(db, db')
    ensures LogsMatch(db') && RecordsAscend(db')
  {
    assert LogsMatch(db');
    assert LiveRecords(db') == LiveRecords(db);
  }

  lemma CollectSequences(db: Db, db': Db)
    requires SequencesKept(db) && CommitMatches(db) && Collect(db, db')
    ensures SequencesKept(db')
  {
    forall e | LiveLogHas(db.disk, e) ensures LiveLogHas(db'.disk, e) {
      var n :| n in db.disk.logs && n >= db.disk.manifest.logNumber && LogHas(db.disk.logs[n], e);
      assert n in db'.disk.logs && db'.disk.logs[n] == db.disk.logs[n];
    }
  }

  lemma CollectKeeps(db: Db, db': Db)
    requires DbInv(db) && Collect(db, db')
    ensures DbInv(db')
  {
    CollectTables(db, db');
    CollectLogs(db, db');
    CollectSequences(db, db');
  }
}
