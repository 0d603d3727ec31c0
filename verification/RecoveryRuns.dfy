/** Runs of the database with crashes in them, and the loop that replays the
    logs (db/db_impl.cc). */
module RecoveryRuns {
  import opened Options
  import opened Keys
  import opened Versions
  import opened Engine
  import opened EngineProofs
  import opened EngineRuns
  import opened Durability
  import opened DurabilityProofs
  import opened ReplayCuts
  import opened Recovery
  import opened DbImpl

  ghost predicate InitDb(db: Db) {
    && Init(db.s) && db.logNumber == db.logFile < db.s.nextFile && db.logged == None && !db.flushing
    && db.held == [] && db.commit == Settled && db.disk.logs == map[db.logFile := []]
    && db.disk.manifest.version == db.s.version && db.disk.manifest.logNumber == db.logNumber
    && db.disk.manifest.nextFile <= db.s.nextFile && db.disk.manifest.lastSeq == 0
  }

  ghost predicate CommitStep(db: Db, db': Db) {
    || (exists level, size, v :: CommitFlush(db, db', level, size, v))
    || (exists outs, v :: CommitCompaction(db, db', outs, v))
    || (exists c, v :: CommitMove(db, db', c, v))
  }

  ghost predicate Crash(db: Db, db': Db) {
    exists litter, files, newLog :: Reopen(db, db', litter, files, newLog)
  }

  ghost predicate DbStep(db: Db, db': Db) {
    || (exists ops :: AppendLog(db, db', ops)) || ApplyBatch(db, db') || SwitchLog(db, db')
    || Snapshots(db, db') || Hold(db, db')
    || BuildTable(db, db') || (exists c :: BeginCompaction(db, db', c)) || ReserveOutput(db, db')
    || (exists n, es :: WriteOutput(db, db', n, es)) || AbandonCompaction(db, db')
    || CommitStep(db, db') || Settle(db, db') || Collect(db, db') || Crash(db, db')
  }

  ghost predicate DbRun(dbs: seq<Db>) {
    && 0 < |dbs| && InitDb(dbs[0])
    && forall i | 0 <= i < |dbs| - 1 :: DbStep(dbs[i], dbs[i + 1])
  }

  lemma InitLogs(db: Db)
    requires InitDb(db)
    ensures LogsMatch(db) && RecordsAscend(db)
  {
    assert forall e :: !LogHas([], e);
    assert LogEntries([]) == SeqEntries([]) + iset{};
    assert LogsMatch(db);
    assert LiveRecords(db) == [];
  }

  lemma InitDbInv(db: Db)
    requires InitDb(db)
    ensures DbInv(db)
  {
    InitInv(db.s);
    InitLogs(db);
    forall l | 0 <= l < NUM_LEVELS ensures db.s.version[l] == [] {}
  }

  lemma CommitFlushKeeps(db: Db, db': Db, level: nat, size: nat, v: Version)
    requires DbInv(db) && CommitFlush(db, db', level, size, v)
    ensures DbInv(db')
  {
    StartKeeps(db, db', OfFlush(level, size), v);
  }

  lemma CommitCompactionKeeps(db: Db, db': Db, outs: seq<File>, v: Version)
    requires DbInv(db) && CommitCompaction(db, db', outs, v)
    ensures DbInv(db')
  {
    StartKeeps(db, db', OfCompaction(outs), v);
  }

  lemma CommitMoveKeeps(db: Db, db': Db, c: Compaction, v: Version)
    requires DbInv(db) && CommitMove(db, db', c, v)
    ensures DbInv(db')
  {
    StartKeeps(db, db', OfMove(c), v);
  }

  lemma CommitKeeps(db: Db, db': Db)
    requires DbInv(db) && CommitStep(db, db')
    ensures DbInv(db')
  {
    if level, size, v :| CommitFlush(db, db', level, size, v) {
      CommitFlushKeeps(db, db', level, size, v);
    } else if outs, v :| CommitCompaction(db, db', outs, v) {
      CommitCompactionKeeps(db, db', outs, v);
    } else {
      var c, v :| CommitMove(db, db', c, v);
      CommitMoveKeeps(db, db', c, v);
    }
  }

  lemma ForegroundKeeps(db: Db, db': Db)
    requires DbInv(db)
    requires (exists ops :: AppendLog(db, db', ops)) || ApplyBatch(db, db') || SwitchLog(db, db') || Snapshots(db, db')
      || Hold(db, db')
    ensures DbInv(db')
  {
    if ops :| AppendLog(db, db', ops) {
      AppendLogKeeps(db, db', ops);
    } else if ApplyBatch(db, db') {
      ApplyBatchKeeps(db, db');
    } else if SwitchLog(db, db') {
      SwitchLogKeeps(db, db');
    } else if Snapshots(db, db') {
      SnapshotsKeep(db, db');
    } else {
      HoldKeeps(db, db');
    }
  }

  lemma BackgroundKeeps(db: Db, db': Db)
    requires DbInv(db)
    requires BuildTable(db, db') || (exists c :: BeginCompaction(db, db', c)) || ReserveOutput(db, db')
      || (exists n, es :: WriteOutput(db, db', n, es)) || AbandonCompaction(db, db')
    ensures DbInv(db')
  {
    if BuildTable(db, db') {
      BuildTableKeeps(db, db');
    } else if c :| BeginCompaction(db, db', c) {
      BeginKept(db, db', c);
    } else if ReserveOutput(db, db') {
      ReserveKept(db, db');
    } else if n, es :| WriteOutput(db, db', n, es) {
      OutputKeeps(db, db', n, es);
    } else {
      AbandonKept(db, db');
    }
  }

  lemma DbStepKeeps(db: Db, db': Db)
    requires DbInv(db) && DbStep(db, db')
    ensures DbInv(db')
  {
    if CommitStep(db, db') {
      CommitKeeps(db, db');
    } else if Settle(db, db') {
      SettleKeeps(db, db');
    } else if Collect(db, db') {
      CollectKeeps(db, db');
    } else if Crash(db, db') {
      var litter, files, newLog :| Reopen(db, db', litter, files, newLog);
      ReopenKeeps(db, db', litter, files, newLog);
    } else if (exists ops :: AppendLog(db, db', ops)) || ApplyBatch(db, db') || SwitchLog(db, db') || Snapshots(db, db')
      || Hold(db, db') {
      ForegroundKeeps(db, db');
    } else {
      BackgroundKeeps(db, db');
    }
  }

  lemma {:induction false} DbRunInv(dbs: seq<Db>, n: nat)
    requires DbRun(dbs) && n < |dbs|
    ensures DbInv(dbs[n])
  {
    if n == 0 {
      InitDbInv(dbs[0]);
    } else {
      DbRunInv(dbs, n - 1);
      assert DbStep(dbs[n - 1], dbs[n - 1 + 1]);
      DbStepKeeps(dbs[n - 1], dbs[n]);
    }
  }

  /** In every reachable state of every run, crashes included: a read in memory
      at the last sequence number sees the latest write, and the disk alone
      would answer the same for everything that is in the log. */
  lemma NothingIsLost(dbs: seq<Db>, n: nat, u: UserKey)
    requires DbRun(dbs) && n < |dbs|
    ensures var db := dbs[n];
      && Lookup(DbEntries(db.s), u, db.s.lastSeq) == Lookup(db.s.hist, u, db.s.lastSeq)
      && forall t: nat | t >= db.s.lastSeq :: Lookup(DiskEntries(db.disk), u, t) == Lookup(Logged(db), u, t)
  {
    DbRunInv(dbs, n);
    var db := dbs[n];
    DurableIsValid(db);
    DurableMem(db);
    forall t: nat | t >= db.s.lastSeq ensures Lookup(DiskEntries(db.disk), u, t) == Lookup(Logged(db), u, t) {
      DiskAnswers(db, u, t);
    }
  }

  lemma ReopenForgetsNothing(db: Db, db': Db, u: UserKey)
    requires DbInv(db) && Inv(db'.s) && db.logged == None
    requires db'.s.hist == db.s.hist && db'.s.lastSeq == db.s.lastSeq
    ensures Lookup(DbEntries(db'.s), u, db'.s.lastSeq) == Lookup(DbEntries(db.s), u, db.s.lastSeq)
  {
    assert db.s.horizon <= db.s.lastSeq && db'.s.horizon <= db'.s.lastSeq;
  }

  lemma NoneUnapplied(db: Db)
    requires db.logged == None
    ensures Logged(db) == db.s.hist
  {
    assert db.s.hist + iset{} == db.s.hist;
  }

  /** A crash followed by recovery forgets no write: what was in the history
      still is, and reads see it. */
  lemma CrashForgetsNothing(dbs: seq<Db>, n: nat, u: UserKey)
    requires DbRun(dbs) && n + 1 < |dbs| && Crash(dbs[n], dbs[n + 1])
    ensures var db, db' := dbs[n], dbs[n + 1];
      && db.s.hist <= db'.s.hist && (db.logged == None ==> db'.s.hist == db.s.hist && db'.s.lastSeq == db.s.lastSeq)
      && (db.logged == None ==> Lookup(DbEntries(db'.s), u, db'.s.lastSeq) == Lookup(DbEntries(db.s), u, db.s.lastSeq))
  {
    DbRunInv(dbs, n);
    DbRunInv(dbs, n + 1);
    var litter, files, newLog :| Reopen(dbs[n], dbs[n + 1], litter, files, newLog);
    ReopenLast(dbs[n], dbs[n + 1], litter, files, newLog);
    if dbs[n].logged == None {
      NoneUnapplied(dbs[n]);
      ReopenForgetsNothing(dbs[n], dbs[n + 1], u);
    }
  }

  // ---- the replay loop ----

  /** The tables' contents hold exactly P, oldest first. */
  ghost predicate Chunked(chunks: seq<seq<Entry>>, P: iset<Entry>) {
    && (forall c | c in chunks :: c != [] && SortedEntries(c))
    && (forall e :: e in P <==> exists c :: c in chunks && e in c)
    && forall i, j {:trigger Older(chunks[i], chunks[j])} | 0 <= i < j < |chunks| :: Older(chunks[i], chunks[j])
  }

  ghost predicate Older(c: seq<Entry>, d: seq<Entry>) {
    forall e, x | e in c && x in d :: e.k.sn < x.k.sn
  }

  lemma ChunkMore(chunks: seq<seq<Entry>>, P: iset<Entry>, c: seq<Entry>, Q: iset<Entry>)
    requires Chunked(chunks, P) && c != [] && SortedEntries(c) && (forall e :: e in Q <==> e in c)
    requires forall e, x | e in P && x in Q :: e.k.sn < x.k.sn
    ensures Chunked(chunks + [c], P + Q)
  {
    var r := chunks + [c];
    forall e ensures e in P + Q <==> exists d :: d in r && e in d {
      if e in P {
        var d :| d in chunks && e in d;
        assert d in r;
      }
      if e in Q {
        assert c in r && e in c;
      }
    }
    forall i, j | 0 <= i < j < |r| ensures Older(r[i], r[j]) {
      assert r[i] in chunks;
      if j < |chunks| {
        assert Older(chunks[i], chunks[j]);
      }
    }
  }

  lemma LogSplits(log: Log, i: nat)
    requires i < |log| && Fits(log[i])
    ensures LogEntries(log[..i + 1]) == LogEntries(log[..i]) + BatchEntries(log[i].first, log[i].ops)
  {
    assert log[..i + 1] == log[..i] + [log[i]];
    LogAppend(log[..i], log[i]);
  }

  // The entries of the first i records are numbered below any later record.
  lemma PrefixBound(log: Log, i: nat, bound: nat)
    requires Ascending(log) && i <= |log| && forall j | 0 <= j < i :: log[j].first + |log[j].ops| <= bound
    ensures forall e | e in LogEntries(log[..i]) :: e.k.sn < bound
  {
    forall e | e in LogEntries(log[..i]) ensures e.k.sn < bound {
      var b :| b in log[..i] && Fits(b) && e in BatchEntries(b.first, b.ops);
      BatchSequences(b.first, b.ops);
    }
  }

  // The tables made so far hold `done`, the memtable the newer rest of what was read.
  ghost predicate ReadSoFar(chunks: seq<seq<Entry>>, done: iset<Entry>, mem: seq<Entry>, read: iset<Entry>) {
    && Chunked(chunks, done) && SortedEntries(mem) && (forall e :: e in read <==> e in done || e in mem)
    && forall e, x | e in done && x in mem :: e.k.sn < x.k.sn
  }

  lemma ReadOne(chunks: seq<seq<Entry>>, done: iset<Entry>, mem: seq<Entry>, read: iset<Entry>, mem': seq<Entry>,
    more: iset<Entry>)
    requires ReadSoFar(chunks, done, mem, read) && SortedEntries(mem')
    requires forall e :: e in mem' <==> e in mem || e in more
    requires forall e, x | e in read && x in more :: e.k.sn < x.k.sn
    ensures ReadSoFar(chunks, done, mem', read + more)
  {}

  lemma TableMade(chunks: seq<seq<Entry>>, done: iset<Entry>, mem: seq<Entry>, read: iset<Entry>)
    requires ReadSoFar(chunks, done, mem, read)
    ensures ReadSoFar(if mem == [] then chunks else chunks + [mem], read, [], read)
  {
    var Q := iset e | e in mem;
    if mem == [] {
      assert read == done;
    } else {
      assert done + Q == read;
      ChunkMore(chunks, done, mem, Q);
    }
  }

  // One record: into the memtable, which becomes a table when it is full.
  method ReplayRecord(b: Batch, full: seq<Entry> -> bool, chunks: seq<seq<Entry>>, mem: seq<Entry>,
    ghost done: iset<Entry>, ghost read: iset<Entry>)
    returns (chunks': seq<seq<Entry>>, mem': seq<Entry>, ghost done': iset<Entry>, ghost filled: seq<Entry>)
    requires Fits(b) && ReadSoFar(chunks, done, mem, read) && forall e | e in read :: e.k.sn < b.first
    ensures ReadSoFar(chunks', done', mem', read + BatchEntries(b.first, b.ops))
    ensures SortedEntries(filled) && forall e :: e in filled <==> e in mem || e in BatchEntries(b.first, b.ops)
    ensures if full(filled) then mem' == [] && chunks' == (if filled == [] then chunks else chunks + [filled])
      else mem' == filled && chunks' == chunks
  {
    BatchSequences(b.first, b.ops);
    assert forall e | e in mem :: e in read;
    chunks', done' := chunks, done;
    mem' := InsertInto(mem, b.first, b.ops);
    filled := mem';
    ReadOne(chunks, done, mem, read, mem', BatchEntries(b.first, b.ops));
    if full(mem') {
      TableMade(chunks, done, mem', read + BatchEntries(b.first, b.ops));
      if mem' != [] {
        chunks' := chunks + [mem'];
      }
      done' := read + BatchEntries(b.first, b.ops);
      mem' := [];
    }
  }

  /** RecoverLogFile: inserts each record into a memtable and makes a table of it
      whenever it is full, and at the end. */
  method RecoverLogFile(log: Log, full: seq<Entry> -> bool) returns (chunks: seq<seq<Entry>>)
    requires Ascending(log)
    ensures Chunked(chunks, LogEntries(log)) && CutWhenFull(full, log, chunks)
  {
    chunks := [];
    var mem: seq<Entry> := [];
    ghost var done := iset{};
    ghost var groups: seq<Log>, mems: seq<seq<Entry>>, open: Log := [], [], [];
    NothingCut(full);
    assert forall e :: !LogHas(log[..0], e);
    for i := 0 to |log|
      invariant ReadSoFar(chunks, done, mem, LogEntries(log[..i]))
      invariant Cutting(full, log[..i], groups, mems, open, mem) && chunks == NonEmpty(mems)
    {
      assert log[i] in log;
      PrefixBound(log, i, log[i].first);
      LogSplits(log, i);
      ghost var was, filled := mem, [];
      chunks, mem, done, filled := ReplayRecord(log[i], full, chunks, mem, done, LogEntries(log[..i]));
      groups, mems, open := CutOne(full, log, i, groups, mems, open, was, filled);
    }
    assert log[..|log|] == log;
    LastOpen(full, log, groups, mems, open, mem, chunks);
    TableMade(chunks, done, mem, LogEntries(log));
    if mem != [] {
      chunks := chunks + [mem];
    }
  }

  lemma ChunkJoin(a: seq<seq<Entry>>, P: iset<Entry>, b: seq<seq<Entry>>, Q: iset<Entry>)
    requires Chunked(a, P) && Chunked(b, Q) && forall e, x | e in P && x in Q :: e.k.sn < x.k.sn
    ensures Chunked(a + b, P + Q)
  {
    var r := a + b;
    forall e ensures e in P + Q <==> exists d :: d in r && e in d {
      if e in P {
        var d :| d in a && e in d;
        assert d in r;
      }
      if e in Q {
        var d :| d in b && e in d;
        assert d in r;
      }
    }
    forall i, j | 0 <= i < j < |r| ensures Older(r[i], r[j]) {
      if j < |a| {
        assert Older(a[i], a[j]);
      } else if i >= |a| {
        assert Older(b[i - |a|], b[j - |a|]);
      } else {
        assert r[i] in a && r[j] in b;
      }
    }
  }

  // Each record of a log is numbered below every record of a later log.
  ghost predicate LogsAscend(logs: seq<Log>) {
    && (forall log | log in logs :: Ascending(log))
    && forall i, j, b, c | 0 <= i < j < |logs| && b in logs[i] && c in logs[j] :: b.first + |b.ops| <= c.first
  }

  ghost predicate AnyLogHas(logs: seq<Log>, e: Entry) {
    exists log :: log in logs && LogHas(log, e)
  }

  ghost function AllLogged(logs: seq<Log>): iset<Entry> {
    iset e | AnyLogHas(logs, e)
  }

  lemma LogsInOrder(logs: seq<Log>, i: nat)
    requires LogsAscend(logs) && i < |logs|
    ensures AllLogged(logs[..i + 1]) == AllLogged(logs[..i]) + LogEntries(logs[i])
    ensures forall e, x | e in AllLogged(logs[..i]) && x in LogEntries(logs[i]) :: e.k.sn < x.k.sn
  {
    assert logs[..i + 1] == logs[..i] + [logs[i]];
    forall e, x | e in AllLogged(logs[..i]) && x in LogEntries(logs[i]) ensures e.k.sn < x.k.sn {
      var log :| log in logs[..i] && LogHas(log, e);
      var b :| b in log && Fits(b) && e in BatchEntries(b.first, b.ops);
      var c :| c in logs[i] && Fits(c) && x in BatchEntries(c.first, c.ops);
      BatchSequences(b.first, b.ops);
      BatchSequences(c.first, c.ops);
    }
  }

  /** The loop of DBImpl::Recover over the logs in the order they were
      generated. */
  method RecoverLogs(logs: seq<Log>, full: seq<Entry> -> bool) returns (chunks: seq<seq<Entry>>)
    requires LogsAscend(logs)
    ensures Chunked(chunks, AllLogged(logs))
  {
    chunks := [];
    for i := 0 to |logs|
      invariant Chunked(chunks, AllLogged(logs[..i]))
    {
      var more := RecoverLogFile(logs[i], full);
      LogsInOrder(logs, i);
      ChunkJoin(chunks, AllLogged(logs[..i]), more, LogEntries(logs[i]));
      chunks := chunks + more;
    }
    assert logs[..|logs|] == logs;
  }

  /** The live logs, in order of their numbers. */
  ghost predicate InOrder(disk: Disk, ns: seq<nat>, logs: seq<Log>) {
    && |ns| == |logs| && (forall i, j | 0 <= i < j < |ns| :: ns[i] < ns[j])
    && (forall n :: n in ns <==> n in disk.logs && n >= disk.manifest.logNumber)
    && forall i | 0 <= i < |ns| :: ns[i] in disk.logs && logs[i] == disk.logs[ns[i]]
  }

  lemma PartAscends(db: Db, n: nat)
    requires LogsMatch(db) && RecordsAscend(db) && (n == db.logFile || (db.s.imm.Some? && n == db.immLog))
    ensures Ascending(db.disk.logs[n])
  {
    SubAscends(LiveRecords(db), if n == db.logFile && db.s.imm.Some? then |db.disk.logs[db.immLog]| else 0,
      db.disk.logs[n]);
  }

  lemma NonEmptyLog(db: Db, litter: Disk, ns: seq<nat>, logs: seq<Log>, i: nat)
    requires LogsMatch(db) && CommitMatches(db) && Littered(db.disk, litter) && InOrder(litter, ns, logs)
    requires i < |logs| && logs[i] != []
    ensures (ns[i] == db.logFile || (db.s.imm.Some? && ns[i] == db.immLog)) && logs[i] == db.disk.logs[ns[i]]
  {
    assert ns[i] in ns && ns[i] in litter.logs && ns[i] in db.disk.logs;
  }

  /** The order recovery relies on: sorting the logs by number sorts their
      records. */
  lemma LiveLogsAscend(db: Db, litter: Disk, ns: seq<nat>, logs: seq<Log>)
    requires LogsMatch(db) && RecordsAscend(db) && CommitMatches(db) && Littered(db.disk, litter)
      && InOrder(litter, ns, logs)
    ensures LogsAscend(logs)
  {
    forall log | log in logs ensures Ascending(log) {
      var i :| 0 <= i < |logs| && logs[i] == log;
      if log != [] {
        NonEmptyLog(db, litter, ns, logs, i);
        PartAscends(db, ns[i]);
      }
    }
    forall i, j, b: Batch, c: Batch | 0 <= i < j < |logs| && b in logs[i] && c in logs[j]
      ensures b.first + |b.ops| <= c.first {
      NonEmptyLog(db, litter, ns, logs, i);
      NonEmptyLog(db, litter, ns, logs, j);
      assert ns[i] < ns[j];
      ImmBeforeMem(db, b, c);
    }
  }

  lemma ImmBeforeMem(db: Db, b: Batch, c: Batch)
    requires LogsMatch(db) && RecordsAscend(db) && db.s.imm.Some? && b in db.disk.logs[db.immLog]
      && c in db.disk.logs[db.logFile]
    ensures b.first + |b.ops| <= c.first
  {
    var live, k := LiveRecords(db), |db.disk.logs[db.immLog]|;
    var i :| 0 <= i < k && db.disk.logs[db.immLog][i] == b;
    var j :| 0 <= j < |db.disk.logs[db.logFile]| && db.disk.logs[db.logFile][j] == c;
    assert live[i] == b && live[k + j] == c;
  }

  ghost predicate TableHolds(f: File, c: seq<Entry>) {
    c != [] && f == TableOf(f.number, f.size, c)
  }

  // Tables made of the chunks, under increasing new numbers.
  ghost predicate TablesFor(chunks: seq<seq<Entry>>, files: seq<File>, bound: nat) {
    && |files| == |chunks|
    && (forall i | 0 <= i < |files| :: TableHolds(files[i], chunks[i]) && files[i].number > bound)
    && forall i, j | 0 <= i < j < |files| :: files[i].number < files[j].number
  }

  lemma TablesHold(chunks: seq<seq<Entry>>, files: seq<File>, bound: nat, P: iset<Entry>)
    requires Chunked(chunks, P) && TablesFor(chunks, files, bound)
    ensures forall f | f in files :: ValidFile(f) && f.number > bound
    ensures forall e :: e in P <==> exists f :: f in files && e in f.entries
  {
    forall f | f in files ensures ValidFile(f) && f.number > bound {
      var i :| 0 <= i < |files| && files[i] == f;
      assert chunks[i] in chunks;
    }
    forall e ensures e in P <==> exists f :: f in files && e in f.entries {
      if e in P {
        var c :| c in chunks && e in c;
        var i :| 0 <= i < |chunks| && chunks[i] == c;
        assert files[i] in files && e in files[i].entries;
      }
      if f :| f in files && e in f.entries {
        var i :| 0 <= i < |files| && files[i] == f;
        assert chunks[i] in chunks && e in chunks[i];
      }
    }
  }

  lemma TablesNewer(chunks: seq<seq<Entry>>, files: seq<File>, bound: nat, P: iset<Entry>)
    requires Chunked(chunks, P) && TablesFor(chunks, files, bound)
    ensures forall i, j | 0 <= i < j < |files| :: NewerThan(files[j].entries, files[i].entries)
  {
    forall i, j | 0 <= i < j < |files| ensures NewerThan(files[j].entries, files[i].entries) {
      assert Older(chunks[i], chunks[j]);
      assert TableHolds(files[i], chunks[i]) && TableHolds(files[j], chunks[j]);
    }
  }

  /** The tables of the replayed chunks are what reopening needs. */
  lemma ChunksReplay(disk: Disk, chunks: seq<seq<Entry>>, files: seq<File>, P: iset<Entry>)
    requires Chunked(chunks, P) && TablesFor(chunks, files, disk.manifest.nextFile)
    requires P == iset e | LiveLogHas(disk, e)
    ensures Replayed(disk, files)
  {
    TablesHold(chunks, files, disk.manifest.nextFile, P);
    TablesNewer(chunks, files, disk.manifest.nextFile, P);
    forall e ensures LiveLogHas(disk, e) <==> e in P {}
  }
}
