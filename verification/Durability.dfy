/** What is on disk while the engine runs: logs, tables and the manifest
    (db/db_impl.cc, db/version_set.cc). */
module Durability {
  import opened Options
  import opened Keys
  import opened Versions
  import opened Engine

  // A write batch as its log record holds it.
  datatype Batch = Batch(first: nat, ops: seq<Op>)

  type Log = seq<Batch>

  ghost predicate Fits(b: Batch) {
    b.first + |b.ops| <= MAX_SEQUENCE + 1
  }

  ghost predicate LogHas(log: Log, e: Entry) {
    exists b :: b in log && Fits(b) && e in BatchEntries(b.first, b.ops)
  }

  ghost function LogEntries(log: Log): iset<Entry> {
    iset e | LogHas(log, e)
  }

  /** The installed manifest: what replaying the descriptor log yields, as
      Descriptors and Manifests prove. */
  datatype Manifest = Manifest(version: Version, logNumber: nat, nextFile: nat, lastSeq: Sequence)

  datatype Disk = Disk(logs: map<nat, Log>, tables: map<nat, seq<Entry>>, manifest: Manifest)

  // ---- the running database ----

  /** LogAndApply has written the manifest and not yet installed the version. */
  datatype Commit = Settled | OfFlush(level: nat, size: nat) | OfCompaction(outs: seq<File>) | OfMove(c: Compaction)

  /** `logged` is a batch that is in the log and not yet in the memtable;
      `flushing` says that the table for imm has been built; `held` are the
      versions that readers refer to. */
  datatype Db = Db(
    s: State, logNumber: nat, logFile: nat, immLog: nat, logged: Option<seq<Op>>,
    flushing: bool, pending: set<nat>, held: seq<Version>, commit: Commit, disk: Disk)

  /** The state once the version in the manifest is installed. */
  ghost function Installed(s: State, k: Commit, v: Version): State {
    match k
    case Settled => s
    case OfFlush(_, _) => s.(imm := None, nextFile := s.nextFile + 1, version := v)
    case OfCompaction(_) =>
      if s.running.None? then s else
        var snap := s.running.value.snap;
        s.(version := v, running := None, reserved := [], horizon := if s.horizon < snap then snap else s.horizon)
    case OfMove(_) => s.(version := v)
  }

  ghost predicate Commits(s: State, k: Commit, v: Version) {
    match k
    case Settled => v == s.version
    case OfFlush(level, size) => Flush(s, Installed(s, k, v), level, size)
    case OfCompaction(outs) => Install(s, Installed(s, k, v), outs)
    case OfMove(c) => Move(s, Installed(s, k, v), c)
  }

  ghost function Durable(db: Db): State {
    Installed(db.s, db.commit, db.disk.manifest.version)
  }

  ghost predicate Names(v: Version, n: nat) {
    exists l, f :: 0 <= l < NUM_LEVELS && f in v[l] && f.number == n
  }

  // ---- the steps ----

  /** The leader appends its group's batch to the log, without the mutex. */
  ghost predicate AppendLog(db: Db, db': Db, ops: seq<Op>) {
    && db.logged == None && db.s.lastSeq + |ops| < MAX_SEQUENCE && db.logFile in db.disk.logs
    && var log := db.disk.logs[db.logFile];
       db' == db.(logged := Some(ops),
                  disk := db.disk.(logs := db.disk.logs[db.logFile := log + [Batch(db.s.lastSeq + 1, ops)]]))
  }

  ghost predicate ApplyBatch(db: Db, db': Db) {
    db.logged.Some? && Write(db.s, db'.s, db.logged.value) && db' == db.(s := db'.s, logged := None)
  }

  /** MakeRoomForWrite: a new log, named by the next file number. */
  ghost predicate SwitchLog(db: Db, db': Db) {
    && db.logged == None && Switch(db.s, db'.s)
    && db' == db.(s := db'.s, immLog := db.logFile, logFile := db.s.nextFile,
                  disk := db.disk.(logs := db.disk.logs[db.s.nextFile := []]))
  }

  ghost predicate Snapshots(db: Db, db': Db) {
    (Snapshot(db.s, db'.s) || exists i :: Release(db.s, db'.s, i)) && db' == db.(s := db'.s)
  }

  // A reader takes or drops a reference to a version.
  ghost predicate Hold(db: Db, db': Db) {
    || db' == db.(held := db.held + [db.s.version])
    || exists i :: 0 <= i < |db.held| && db' == db.(held := db.held[..i] + db.held[i + 1..])
  }

  // The one background thread is not inside LogAndApply or BuildTable.
  ghost predicate Free(db: Db) {
    db.commit == Settled && !db.flushing
  }

  /** WriteLevel0Table up to the end of BuildTable. */
  ghost predicate BuildTable(db: Db, db': Db) {
    && Free(db) && db.s.imm.Some? && (db.s.running.Some? ==> db.s.running.value.picked)
    && var n := db.s.nextFile;
       db' == db.(flushing := true, pending := db.pending + {n},
                  disk := if db.s.imm.value == [] then db.disk
                    else db.disk.(tables := db.disk.tables[n := db.s.imm.value]))
  }

  ghost function ManifestFor(s: State, v: Version, logNumber: nat, next: nat): Manifest {
    Manifest(v, logNumber, next, s.lastSeq)
  }

  /** The flush's edit reaches the manifest; earlier logs are no longer
      needed. */
  ghost predicate CommitFlush(db: Db, db': Db, level: nat, size: nat, v: Version) {
    && db.commit == Settled && db.flushing && Commits(db.s, OfFlush(level, size), v)
    && db' == db.(commit := OfFlush(level, size), pending := db.pending - {db.s.nextFile},
                  disk := db.disk.(manifest := ManifestFor(db.s, v, db.logFile, db.s.nextFile + 1)))
  }

  ghost predicate BeginCompaction(db: Db, db': Db, c: Compaction) {
    Free(db) && Begin(db.s, db'.s, c) && db' == db.(s := db'.s)
  }

  ghost predicate ReserveOutput(db: Db, db': Db) {
    Free(db) && Reserve(db.s, db'.s) && db' == db.(s := db'.s, pending := db.pending + {db.s.nextFile})
  }

  // An output file is written under a reserved number.
  ghost predicate WriteOutput(db: Db, db': Db, n: nat, es: seq<Entry>) {
    Free(db) && n in db.s.reserved && db' == db.(disk := db.disk.(tables := db.disk.tables[n := es]))
  }

  ghost predicate OnDisk(tables: map<nat, seq<Entry>>, f: File) {
    f.number in tables && tables[f.number] == f.entries
  }

  ghost predicate CommitCompaction(db: Db, db': Db, outs: seq<File>, v: Version) {
    && Free(db) && Commits(db.s, OfCompaction(outs), v) && (forall o | o in outs :: OnDisk(db.disk.tables, o))
    && db' == db.(commit := OfCompaction(outs), disk :=
      db.disk.(manifest := ManifestFor(db.s, v, db.logNumber, db.s.nextFile)))
  }

  ghost predicate CommitMove(db: Db, db': Db, c: Compaction, v: Version) {
    && Free(db) && Commits(db.s, OfMove(c), v)
    && db' == db.(commit := OfMove(c), disk := db.disk.(manifest := ManifestFor(db.s, v, db.logNumber, db.s.nextFile)))
  }

  /** LogAndApply takes the mutex again and installs what it wrote. */
  ghost predicate Settle(db: Db, db': Db) {
    && db.commit != Settled
    && db' == db.(s := Durable(db), commit := Settled, logNumber := db.disk.manifest.logNumber, flushing := false,
                  pending := if db.commit.OfCompaction? then db.pending - (set n | n in db.s.reserved) else db.pending)
  }

  ghost predicate AbandonCompaction(db: Db, db': Db) {
    Free(db) && Abandon(db.s, db'.s) && db' == db.(s := db'.s, pending := db.pending - (set n | n in db.s.reserved))
  }

  ghost predicate Referenced(db: Db, n: nat) {
    n in db.pending || Names(db.s.version, n) || exists i :: 0 <= i < |db.held| && Names(db.held[i], n)
  }

  /** DeleteObsoleteFiles: keeps the logs from LogNumber on, and the tables that
      are pending or in a live version. */
  ghost predicate Collect(db: Db, db': Db) {
    && db.commit == Settled
    && (forall n :: n in db'.disk.logs <==> n in db.disk.logs && n >= db.logNumber)
    && (forall n | n in db'.disk.logs :: db'.disk.logs[n] == db.disk.logs[n])
    && (forall n :: n in db'.disk.tables <==> n in db.disk.tables && Referenced(db, n))
    && (forall n | n in db'.disk.tables :: db'.disk.tables[n] == db.disk.tables[n])
    && db'.disk.manifest == db.disk.manifest && db' == db.(disk := db'.disk)
  }

  // ---- what the disk always holds ----

  ghost function Unapplied(db: Db): iset<Entry> {
    if db.logged.Some? && db.s.lastSeq + |db.logged.value| < MAX_SEQUENCE
      then BatchEntries(db.s.lastSeq + 1, db.logged.value) else iset{}
  }

  ghost function SeqEntries(es: seq<Entry>): iset<Entry> {
    iset e | e in es
  }

  /** The current log holds the memtable and the batch on its way there, the
      log before it the immutable memtable, and other live logs nothing. */
  ghost predicate LogsMatch(db: Db) {
    var logs := db.disk.logs;
    && db.logNumber <= db.logFile < db.s.nextFile && db.logFile in logs
    && LogEntries(logs[db.logFile]) == SeqEntries(db.s.mem) + Unapplied(db)
    && (db.s.imm.Some? ==>
          && db.logNumber <= db.immLog < db.logFile && db.immLog in logs
          && LogEntries(logs[db.immLog]) == SeqEntries(db.s.imm.value))
    && forall n | n in logs && n >= db.logNumber && n != db.logFile && !(db.s.imm.Some? && n == db.immLog) ::
      logs[n] == []
  }

  ghost predicate Ascending(log: Log) {
    && (forall b | b in log :: Fits(b))
    && forall i, j | 0 <= i < j < |log| :: log[i].first + |log[i].ops| <= log[j].first
  }

  // The live records in the order they were written.
  ghost function LiveRecords(db: Db): Log
    requires LogsMatch(db)
  {
    (if db.s.imm.Some? then db.disk.logs[db.immLog] else []) + db.disk.logs[db.logFile]
  }

  ghost predicate RecordsAscend(db: Db)
    requires LogsMatch(db)
  {
    && Ascending(LiveRecords(db))
    && forall b | b in LiveRecords(db) ::
      b.first + |b.ops| <= db.s.lastSeq + 1 + if db.logged.Some? then |db.logged.value| else 0
  }

  ghost predicate CommitMatches(db: Db) {
    && Commits(db.s, db.commit, db.disk.manifest.version)
    && db.disk.manifest.logNumber == (if db.commit.OfFlush? then db.logFile else db.logNumber)
    && (db.flushing ==>
      && db.s.imm.Some? && (db.s.running.Some? ==> db.s.running.value.picked)
      && (db.commit == Settled || db.commit.OfFlush?))
    && (db.commit.OfFlush? ==> db.flushing)
    && (db.logged.Some? ==> db.s.lastSeq + |db.logged.value| < MAX_SEQUENCE)
  }

  ghost predicate AllOnDisk(tables: map<nat, seq<Entry>>, v: Version) {
    forall l, f | 0 <= l < NUM_LEVELS && f in v[l] :: OnDisk(tables, f)
  }

  ghost predicate Below(v: Version, bound: nat) {
    forall l, f | 0 <= l < NUM_LEVELS && f in v[l] :: f.number < bound
  }

  /** Every table that a version in use, a reader or the manifest names is on
      disk, and a table in the making is protected. */
  ghost predicate TablesKept(db: Db) {
    && AllOnDisk(db.disk.tables, db.s.version) && AllOnDisk(db.disk.tables, db.disk.manifest.version)
    && (forall i | 0 <= i < |db.held| :: AllOnDisk(db.disk.tables, db.held[i]) && Below(db.held[i], db.s.nextFile))
    && (forall i | 0 <= i < |db.held|, n | n in db.s.reserved :: !Names(db.held[i], n))
    && (forall n | n in db.s.reserved :: n in db.pending)
    && (db.flushing && db.s.imm.Some? && db.s.imm.value != [] ==>
          && db.s.nextFile in db.disk.tables && db.disk.tables[db.s.nextFile] == db.s.imm.value
          && (db.commit == Settled ==> db.s.nextFile in db.pending))
  }

  ghost predicate LiveLogHas(disk: Disk, e: Entry) {
    exists n :: n in disk.logs && n >= disk.manifest.logNumber && LogHas(disk.logs[n], e)
  }

  /** The last sequence number can be recovered. */
  ghost predicate SequencesKept(db: Db) {
    var m := db.disk.manifest;
    && m.lastSeq <= db.s.lastSeq
    && (db.s.lastSeq > m.lastSeq ==> exists e :: LiveLogHas(db.disk, e) && e.k.sn == db.s.lastSeq)
    && Below(m.version, m.nextFile) && m.nextFile <= Durable(db).nextFile
  }

  ghost predicate DbInv(db: Db) {
    Inv(db.s) && LogsMatch(db) && RecordsAscend(db) && CommitMatches(db) && TablesKept(db) && SequencesKept(db)
  }

  // ---- what a crash leaves ----

  ghost predicate DiskHas(disk: Disk, e: Entry) {
    VersionHas(disk.manifest.version, e) || LiveLogHas(disk, e)
  }

  ghost function DiskEntries(disk: Disk): iset<Entry> {
    iset e | DiskHas(disk, e)
  }
}
