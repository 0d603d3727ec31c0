/** The write-ahead log as bytes: batches written with AddRecord and replayed by
    RecoverLogFile (db/db_impl.cc, db/write_batch.cc). */
module BatchLogs {
  import opened Options
  import opened Keys
  import opened Engine
  import opened Durability
  import opened RecoveryRuns
  import opened Spellings
  import Coding
  import LogFormat
  import LogProofs
  import Logs
  import WB = WriteBatches

  // ---- batches as bytes ----

  /** How user keys and values are spelled. */
  datatype Spelling = Spelling(
    name: UserKey -> Coding.Bytes, rank: Coding.Bytes -> UserKey,
    show: Keys.Bytes -> Coding.Bytes, read: Coding.Bytes -> Keys.Bytes)

  ghost predicate Faithful(sp: Spelling) {
    && (forall u {:trigger sp.name(u)} :: sp.rank(sp.name(u)) == u)
    && forall v {:trigger sp.show(v)} :: sp.read(sp.show(v)) == v
  }

  function SpelledOp(sp: Spelling, op: Op): WB.Op {
    match op
    case PutOp(u, v) => WB.Put(sp.name(u), sp.show(v))
    case DeleteOp(u) => WB.Delete(sp.name(u))
  }

  function ReadOp(sp: Spelling, op: WB.Op): Op {
    match op
    case Put(key, value) => PutOp(sp.rank(key), sp.read(value))
    case Delete(key) => DeleteOp(sp.rank(key))
  }

  function SpelledOps(sp: Spelling, ops: seq<Op>): (r: seq<WB.Op>)
    ensures |r| == |ops|
  {
    seq(|ops|, i requires 0 <= i < |ops| => SpelledOp(sp, ops[i]))
  }

  lemma OpBack(sp: Spelling, op: Op)
    requires Faithful(sp)
    ensures ReadOp(sp, SpelledOp(sp, op)) == op
  {}

  /** rep is the batch's representation. */
  ghost predicate Represents(sp: Spelling, b: Batch, rep: Coding.Bytes) {
    WB.Holds(rep, b.first, SpelledOps(sp, b.ops))
  }

  // Lengths and numbers fit the C++ types.
  ghost predicate Writable(sp: Spelling, b: Batch) {
    b.first < Coding.LIMIT64 && |b.ops| < Coding.LIMIT32 && WB.AllOk(SpelledOps(sp, b.ops))
  }

  method WriteRep(sp: Spelling, b: Batch) returns (rep: Coding.Bytes)
    requires Writable(sp, b)
    ensures Represents(sp, b, rep)
  {
    ghost var ops := SpelledOps(sp, b.ops);
    var batch := new WB.WriteBatch();
    for i := 0 to |b.ops|
      invariant fresh(batch) && batch.Valid() && batch.ops == ops[..i]
    {
      assert WB.OpOk(ops[i]) && ops[..i + 1] == ops[..i] + [ops[i]];
      match b.ops[i]
      case PutOp(u, v) => batch.PutOp(sp.name(u), sp.show(v));
      case DeleteOp(u) => batch.DeleteOp(sp.name(u));
    }
    assert ops[..|b.ops|] == ops;
    batch.SetSequence(b.first);
    rep := batch.rep;
  }

  /** SetContents and Iterate: the batch comes back. */
  method ReadRep(sp: Spelling, record: Coding.Bytes, ghost b: Batch) returns (r: Option<Batch>)
    requires Faithful(sp) && Represents(sp, b, record)
    ensures r == Some(b)
  {
    ghost var ops := SpelledOps(sp, b.ops);
    var batch := new WB.WriteBatch();
    batch.SetContents(record, b.first, ops);
    var first := batch.Sequence();
    var ok, entries := batch.InsertInto();
    if !ok {
      return None;
    }
    var read := seq(|entries|, i requires 0 <= i < |entries| => ReadOp(sp, entries[i].1));
    forall i | 0 <= i < |b.ops| ensures read[i] == b.ops[i] {
      assert WB.NumberedAt(entries, b.first, ops, i);
      OpBack(sp, b.ops[i]);
    }
    assert read == b.ops;
    r := Some(Batch(first, read));
  }

  // ---- logs as bytes ----

  ghost predicate RepresentsAll(sp: Spelling, log: Log, bs: seq<Coding.Bytes>) {
    |bs| == |log| && forall i | 0 <= i < |log| :: RepresentsAt(sp, log, bs, i)
  }

  ghost predicate RepresentsAt(sp: Spelling, log: Log, bs: seq<Coding.Bytes>, i: nat)
    requires i < |log| == |bs|
  {
    Represents(sp, log[i], bs[i])
  }

  lemma RepresentsMore(sp: Spelling, log: Log, bs: seq<Coding.Bytes>, b: Batch, rep: Coding.Bytes)
    requires RepresentsAll(sp, log, bs) && Represents(sp, b, rep)
    ensures RepresentsAll(sp, log + [b], bs + [rep])
  {
    forall i | 0 <= i < |log| + 1 ensures RepresentsAt(sp, log + [b], bs + [rep], i) {
      assert i < |log| ==> RepresentsAt(sp, log, bs, i);
    }
  }

  /** file is the file of a log with these batches. */
  ghost predicate IsFileOf(sp: Spelling, crc: Coding.Crc, file: Coding.Bytes, log: Log, bs: seq<Coding.Bytes>) {
    RepresentsAll(sp, log, bs) && file == LogFormat.Log(crc, bs)
  }

  /** DBImpl::Write appends each batch to the log. */
  method WriteLog(sp: Spelling, crc: Coding.Crc, log: Log) returns (file: Coding.Bytes, ghost bs: seq<Coding.Bytes>)
    requires forall i | 0 <= i < |log| :: Writable(sp, log[i])
    ensures IsFileOf(sp, crc, file, log, bs)
  {
    var writer := new Logs.Writer(crc, []);
    bs := [];
    for i := 0 to |log|
      invariant writer.Valid() && writer.crc == crc && fresh(writer) && IsFileOf(sp, crc, writer.dest, log[..i], bs)
    {
      var rep := WriteRep(sp, log[i]);
      RepresentsMore(sp, log[..i], bs, log[i], rep);
      assert log[..i + 1] == log[..i] + [log[i]];
      writer.AddRecord(rep);
      bs := bs + [rep];
    }
    assert log[..|log|] == log;
    file := writer.dest;
  }

  // The reader has yet to give these records.
  ghost predicate Reading(reader: Logs.Reader, rest: seq<Coding.Bytes>)
    reads reader
  {
    && reader.Valid()
    && LogProofs.AllFrom(LogFormat.ReadingOf(reader.crc, reader.file), |reader.file|, reader.Pos()).0 == rest
  }

  // A record shorter than a header is passed over.
  method TakeBatch(sp: Spelling, data: Coding.Bytes, batches: Log, ghost b: Batch) returns (batches': Log)
    requires Faithful(sp) && Represents(sp, b, data)
    ensures batches' == batches + [b]
  {
    batches' := batches;
    if |data| >= WB.HEADER {
      var read := ReadRep(sp, data, b);
      if read.Some? {
        batches' := batches + [read.value];
      }
    }
  }

  method ReadBatches(sp: Spelling, reader: Logs.Reader, ghost log: Log, ghost bs: seq<Coding.Bytes>)
    returns (batches: Log)
    requires Faithful(sp) && RepresentsAll(sp, log, bs) && Reading(reader, bs)
    modifies reader
    ensures batches == log
  {
    batches := [];
    ghost var ls, rs := log, bs;
    var more := true;
    while more
      invariant RepresentsAll(sp, ls, rs) && batches + ls == log
      invariant if more then Reading(reader, rs) else ls == []
      decreases more, |ls|
    {
      var record := reader.ReadNext(rs);
      match record
      case None => more := false;
      case Some(data) =>
        assert RepresentsAt(sp, ls, rs, 0);
        RepresentsTail(sp, ls, rs, batches);
        batches := TakeBatch(sp, data, batches, ls[0]);
        ls, rs := ls[1..], rs[1..];
    }
    assert batches + [] == batches;
  }

  lemma RepresentsTail(sp: Spelling, log: Log, bs: seq<Coding.Bytes>, before: Log)
    requires RepresentsAll(sp, log, bs) && log != []
    ensures RepresentsAll(sp, log[1..], bs[1..]) && before + [log[0]] + log[1..] == before + log
  {
    forall i | 0 <= i < |log| - 1 ensures RepresentsAt(sp, log[1..], bs[1..], i) {
      assert RepresentsAt(sp, log, bs, i + 1);
    }
  }

  lemma RepresentsPrefix(sp: Spelling, log: Log, bs: seq<Coding.Bytes>, k: nat)
    requires RepresentsAll(sp, log, bs) && k <= |log|
    ensures RepresentsAll(sp, log[..k], bs[..k])
  {
    forall i | 0 <= i < k ensures RepresentsAt(sp, log[..k], bs[..k], i) {
      assert RepresentsAt(sp, log, bs, i);
    }
  }

  /** A file cut off anywhere gives the batches that are complete in it. */
  method ReadLog(sp: Spelling, crc: Coding.Crc, file: Coding.Bytes, ghost log: Log, ghost bs: seq<Coding.Bytes>)
    returns (batches: Log)
    requires Faithful(sp) && RepresentsAll(sp, log, bs) && file <= LogFormat.Log(crc, bs)
    ensures batches == log[..LogProofs.CompleteIn(0, bs, |file|)]
  {
    ghost var k := LogProofs.CompleteIn(0, bs, |file|);
    LogProofs.LogReadsBack(crc, bs, file);
    RepresentsPrefix(sp, log, bs, k);
    var reader := new Logs.Reader(crc, file);
    batches := ReadBatches(sp, reader, log[..k], bs[..k]);
  }

  lemma AscendingPrefix(log: Log, k: nat)
    requires Ascending(log) && k <= |log|
    ensures Ascending(log[..k])
  {}

  /** RecoverLogFile on bytes: a log file cut off anywhere is replayed as exactly the
      batches that are complete in it, oldest entries first. */
  method RecoverLogBytes(sp: Spelling, crc: Coding.Crc, file: Coding.Bytes, full: seq<Entry> -> bool, ghost log: Log,
    ghost bs: seq<Coding.Bytes>)
    returns (chunks: seq<seq<Entry>>)
    requires Faithful(sp) && RepresentsAll(sp, log, bs) && file <= LogFormat.Log(crc, bs) && Ascending(log)
    ensures Chunked(chunks, LogEntries(log[..LogProofs.CompleteIn(0, bs, |file|)]))
  {
    var batches := ReadLog(sp, crc, file, log, bs);
    AscendingPrefix(log, LogProofs.CompleteIn(0, bs, |file|));
    chunks := RecoverLogFile(batches, full);
  }

  lemma SpellingExists() returns (sp: Spelling)
    ensures Faithful(sp)
  {
    sp := Spelling(Unary, FromUnary, Show, Read);
    forall u {:trigger sp.name(u)} ensures sp.rank(sp.name(u)) == u {
      UnaryBack(u);
    }
    forall v {:trigger sp.show(v)} ensures sp.read(sp.show(v)) == v {
      ShowBack(v);
    }
  }

  /** Batches written to a log and replayed from its file, whole. */
  method ThereAndBack(sp: Spelling, crc: Coding.Crc, log: Log, full: seq<Entry> -> bool)
    returns (chunks: seq<seq<Entry>>)
    requires Faithful(sp) && Ascending(log) && forall i | 0 <= i < |log| :: Writable(sp, log[i])
    ensures Chunked(chunks, LogEntries(log))
  {
    var file;
    ghost var bs;
    file, bs := WriteLog(sp, crc, log);
    LogProofs.AllComplete(crc, bs);
    assert log[..|log|] == log;
    chunks := RecoverLogBytes(sp, crc, file, full, log, bs);
  }
}
