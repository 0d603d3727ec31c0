/** The queue of writers and group commit (DBImpl::Write, BuildBatchGroup,
    db/write_batch.cc). */
module WriterQueue {
  import opened Options
  import opened Keys
  import opened Engine

  /** A waiting writer; a null batch asks only for a memtable switch. */
  datatype Writer = Writer(id: nat, batch: Option<seq<Op>>, sync: bool)

  // WriteBatchInternal::ByteSize, left open.
  type ByteSize = seq<Op> -> nat

  // ---- building a group ----

  function OpsOf(ws: seq<Writer>): seq<Op> {
    if ws == [] then [] else
      var w := ws[|ws| - 1];
      OpsOf(ws[..|ws| - 1]) + if w.batch.Some? then w.batch.value else []
  }

  function SizeOf(ws: seq<Writer>, bytes: ByteSize): nat {
    if ws == [] then 0 else
      var w := ws[|ws| - 1];
      SizeOf(ws[..|ws| - 1], bytes) + if w.batch.Some? then bytes(w.batch.value) else 0
  }

  function MaxSize(first: nat): nat {
    if first <= 0x2_0000 then first + 0x2_0000 else 0x10_0000
  }

  // May the writer after the first n join them?
  predicate Joins(q: seq<Writer>, n: nat, bytes: ByteSize)
    requires 1 <= n < |q| && q[0].batch.Some?
  {
    && !(q[n].sync && !q[0].sync)
    && (q[n].batch.Some? ==> SizeOf(q[..n + 1], bytes) <= MaxSize(bytes(q[0].batch.value)))
  }

  /** The first n writers commit together: each was allowed to join, and the
      next one is not. */
  ghost predicate IsGroup(q: seq<Writer>, n: nat, bytes: ByteSize) {
    && 1 <= n <= |q| && q[0].batch.Some?
    && (forall i | 1 <= i < n :: Joins(q, i, bytes))
    && (n < |q| ==> !Joins(q, n, bytes))
  }

  method BuildBatchGroup(q: seq<Writer>, bytes: ByteSize) returns (n: nat, ops: seq<Op>)
    requires q != [] && q[0].batch.Some?
    ensures IsGroup(q, n, bytes) && ops == OpsOf(q[..n])
  {
    ops := q[0].batch.value;
    var size := bytes(ops);
    var maxSize := 0x10_0000;
    if size <= 0x2_0000 {
      maxSize := size + 0x2_0000;
    }
    n := 1;
    assert q[..1][..0] == [] && OpsOf([]) == [] && OpsOf(q[..1]) == [] + ops == ops;
    while n < |q|
      invariant 1 <= n <= |q| && ops == OpsOf(q[..n]) && size == SizeOf(q[..n], bytes)
      invariant forall i | 1 <= i < n :: Joins(q, i, bytes)
    {
      var w := q[n];
      assert q[..n + 1][..n] == q[..n];
      if w.sync && !q[0].sync {
        return;
      }
      if w.batch.Some? {
        size := size + bytes(w.batch.value);
        if size > maxSize {
          return;
        }
        ops := ops + w.batch.value;
      } else {
        assert ops + [] == ops;
      }
      n := n + 1;
    }
  }

  /** A group depends only on its members and the one after, so later arrivals
      do not change it. */
  lemma GroupKeepsSync(q: seq<Writer>, n: nat, bytes: ByteSize)
    requires IsGroup(q, n, bytes) && !q[0].sync
    ensures forall w | w in q[..n] :: !w.sync
  {
    forall i | 0 <= i < n ensures !q[i].sync {
      assert i >= 1 ==> Joins(q, i, bytes);
    }
  }

  // ---- the protocol ----

  /** A finished writer: its status, and the sequence numbers set aside for
      it. */
  datatype Finished = Finished(w: Writer, ok: bool, first: nat, count: nat)

  /** While a group commits, the mutex is free: `inserted` of its operations are
      in the memtable. */
  datatype Phase = Open | Committing(n: nat, ops: seq<Op>, logged: bool, inserted: nat)

  datatype Queue = Queue(waiting: seq<Writer>, phase: Phase, lastSeq: nat, mem: iset<Entry>, finished: seq<Finished>,
    arrived: seq<Writer>)

  ghost predicate InitQueue(s: Queue) {
    s == Queue([], Open, 0, iset{}, [], [])
  }

  ghost predicate Arrive(s: Queue, s': Queue, w: Writer) {
    && (forall x | x in s.arrived :: x.id != w.id)
    && s' == s.(waiting := s.waiting + [w], arrived := s.arrived + [w])
  }

  /** The writer at the front has made room and builds its group. */
  ghost predicate Lead(s: Queue, s': Queue, n: nat, bytes: ByteSize) {
    && s.phase == Open && IsGroup(s.waiting, n, bytes)
    && s.lastSeq + |OpsOf(s.waiting[..n])| < MAX_SEQUENCE
    && s' == s.(phase := Committing(n, OpsOf(s.waiting[..n]), false, 0))
  }

  // The front writer has no batch, or could not make room: it goes alone.
  ghost predicate Leave(s: Queue, s': Queue, ok: bool) {
    && s.phase == Open && s.waiting != [] && (s.waiting[0].batch.Some? ==> !ok)
    && s' == s.(waiting := s.waiting[1..], finished := s.finished + [Finished(s.waiting[0], ok, s.lastSeq + 1, 0)])
  }

  ghost predicate AddRecord(s: Queue, s': Queue) {
    s.phase.Committing? && !s.phase.logged && s' == s.(phase := s.phase.(logged := true))
  }

  ghost predicate InsertOne(s: Queue, s': Queue) {
    && s.phase.Committing? && s.phase.logged && s.phase.inserted < |s.phase.ops|
    && s.lastSeq + 1 + s.phase.inserted <= MAX_SEQUENCE
    && s' == s.(mem := s.mem + iset{EntryOf(s.phase.ops[s.phase.inserted], s.lastSeq + 1 + s.phase.inserted)},
                phase := s.phase.(inserted := s.phase.inserted + 1))
  }

  function CountOf(w: Writer): nat {
    if w.batch.Some? then |w.batch.value| else 0
  }

  function FinishedAs(ws: seq<Writer>, ok: bool, first: nat): (r: seq<Finished>)
    ensures |r| == |ws| && forall i | 0 <= i < |ws| :: r[i].w == ws[i] && r[i].ok == ok && r[i].count == CountOf(ws[i])
  {
    if ws == [] then [] else
      var before := ws[..|ws| - 1];
      FinishedAs(before, ok, first) + [Finished(ws[|ws| - 1], ok, first + |OpsOf(before)|, CountOf(ws[|ws| - 1]))]
  }

  /** The leader takes the mutex again, publishes the last sequence number and
      wakes its group. A failed group still uses up its numbers. */
  ghost predicate Publish(s: Queue, s': Queue) {
    && s.phase.Committing? && s.phase.n <= |s.waiting|
    && (if s.phase.logged then s.phase.inserted == |s.phase.ops| else s.phase.inserted == 0)
    && s' == s.(lastSeq := s.lastSeq + |s.phase.ops|, phase := Open, waiting := s.waiting[s.phase.n..],
                finished := s.finished + FinishedAs(s.waiting[..s.phase.n], s.phase.logged, s.lastSeq + 1))
  }

  ghost predicate QueueStep(s: Queue, s': Queue) {
    || (exists w :: Arrive(s, s', w)) || (exists n, bytes :: Lead(s, s', n, bytes)) || (exists ok :: Leave(s, s', ok))
    || AddRecord(s, s') || InsertOne(s, s') || Publish(s, s')
  }

  ghost predicate QueueRun(states: seq<Queue>) {
    && 0 < |states| && InitQueue(states[0])
    && forall i | 0 <= i < |states| - 1 :: QueueStep(states[i], states[i + 1])
  }

  // ---- what holds ----

  function WritersOf(fs: seq<Finished>): seq<Writer> {
    seq(|fs|, i requires 0 <= i < |fs| => fs[i].w)
  }

  // Each range follows the one before; together they end at `end`.
  ghost predicate Consecutive(fs: seq<Finished>, end: nat) {
    && (forall i | 0 <= i < |fs| - 1 :: fs[i].first + fs[i].count == fs[i + 1].first)
    && (if fs == [] then end == 1 else fs[0].first == 1 && fs[|fs| - 1].first + fs[|fs| - 1].count == end)
  }

  // The entries a finished writer put into the memtable.
  ghost predicate Wrote(f: Finished, e: Entry) {
    && f.ok && f.w.batch.Some? && f.first + |f.w.batch.value| <= MAX_SEQUENCE + 1
    && e in BatchEntries(f.first, f.w.batch.value)
  }

  ghost predicate AnyWrote(fs: seq<Finished>, e: Entry) {
    exists f :: f in fs && Wrote(f, e)
  }

  ghost predicate CountsRight(fs: seq<Finished>) {
    forall f | f in fs :: f.ok ==> f.count == CountOf(f.w)
  }

  ghost predicate QueueInv(s: Queue) {
    && s.arrived == WritersOf(s.finished) + s.waiting
    && (forall i, j | 0 <= i < j < |s.arrived| :: s.arrived[i].id != s.arrived[j].id)
    && Consecutive(s.finished, s.lastSeq + 1) && CountsRight(s.finished) && s.lastSeq < MAX_SEQUENCE
    && match s.phase
       case Open => forall e :: e in s.mem <==> AnyWrote(s.finished, e)
       case Committing(n, ops, _, k) =>
         && 1 <= n <= |s.waiting| && ops == OpsOf(s.waiting[..n]) && s.lastSeq + |ops| < MAX_SEQUENCE && k <= |ops|
         && (s.phase.logged || k == 0)
         && forall e :: e in s.mem <==> AnyWrote(s.finished, e) || e in BatchEntries(s.lastSeq + 1, ops[..k])
  }

  // ---- groups in the memtable ----

  lemma BatchJoin(first: nat, a: seq<Op>, b: seq<Op>)
    requires first + |a| + |b| <= MAX_SEQUENCE + 1
    ensures forall e ::
      e in BatchEntries(first, a + b) <==> e in BatchEntries(first, a) || e in BatchEntries(first + |a|, b)
  {
    var c, mid := a + b, first + |a|;
    forall e ensures e in BatchEntries(first, c) <==> e in BatchEntries(first, a) || e in BatchEntries(mid, b) {
      if i: nat :| InBatch(first, c, i, e) {
        if i < |a| {
          assert InBatch(first, a, i, e);
        } else {
          assert InBatch(mid, b, i - |a|, e);
        }
      }
      if i: nat :| InBatch(first, a, i, e) {
        assert InBatch(first, c, i, e);
      }
      if i: nat :| InBatch(mid, b, i, e) {
        assert InBatch(first, c, |a| + i, e);
      }
    }
  }

  lemma NoOps(first: nat)
    requires first <= MAX_SEQUENCE + 1
    ensures forall e :: e !in BatchEntries(first, [])
  {}

  lemma OneOp(first: nat, op: Op)
    requires first <= MAX_SEQUENCE
    ensures forall e :: e in BatchEntries(first, [op]) <==> e == EntryOf(op, first)
  {
    assert InBatch(first, [op], 0, EntryOf(op, first));
  }

  lemma AnyWroteMore(fs: seq<Finished>, gs: seq<Finished>)
    ensures forall e :: AnyWrote(fs + gs, e) <==> AnyWrote(fs, e) || AnyWrote(gs, e)
  {
    forall e ensures AnyWrote(fs + gs, e) <==> AnyWrote(fs, e) || AnyWrote(gs, e) {
      if f :| f in fs && Wrote(f, e) {
        assert f in fs + gs;
      }
      if f :| f in gs && Wrote(f, e) {
        assert f in fs + gs;
      }
    }
  }

  /** The group's one batch holds, writer by writer, what each one wrote. */
  lemma {:induction false} GroupWrote(ws: seq<Writer>, first: nat)
    requires first + |OpsOf(ws)| <= MAX_SEQUENCE + 1
    ensures forall e :: AnyWrote(FinishedAs(ws, true, first), e) <==> e in BatchEntries(first, OpsOf(ws))
    decreases |ws|
  {
    if ws != [] {
      var before, w := ws[..|ws| - 1], ws[|ws| - 1];
      var at, ops := first + |OpsOf(before)|, if w.batch.Some? then w.batch.value else [];
      var last := [Finished(w, true, at, CountOf(w))];
      GroupWrote(before, first);
      BatchJoin(first, OpsOf(before), ops);
      AnyWroteMore(FinishedAs(before, true, first), last);
      OneWrote(last[0], ops);
    }
  }

  lemma OneWrote(f: Finished, ops: seq<Op>)
    requires f.ok && ops == (if f.w.batch.Some? then f.w.batch.value else []) && f.first + |ops| <= MAX_SEQUENCE + 1
    ensures forall e :: AnyWrote([f], e) <==> e in BatchEntries(f.first, ops)
  {
    forall e ensures AnyWrote([f], e) <==> e in BatchEntries(f.first, ops) {
      assert f in [f];
    }
  }

  lemma FailedWroteNothing(ws: seq<Writer>, first: nat)
    ensures forall e :: !AnyWrote(FinishedAs(ws, false, first), e)
  {}

  lemma LastOfGroup(ws: seq<Writer>, ok: bool, first: nat) returns (before: seq<Writer>, last: Finished)
    requires ws != []
    ensures |before| < |ws| && last.first == first + |OpsOf(before)|
    ensures FinishedAs(ws, ok, first) == FinishedAs(before, ok, first) + [last]
      && |OpsOf(ws)| == |OpsOf(before)| + last.count
  {
    before := ws[..|ws| - 1];
    last := Finished(ws[|ws| - 1], ok, first + |OpsOf(before)|, CountOf(ws[|ws| - 1]));
  }

  lemma AddConsecutive(fs: seq<Finished>, gs: seq<Finished>, f: Finished)
    requires Consecutive(fs + gs, f.first)
    ensures Consecutive(fs + (gs + [f]), f.first + f.count)
  {
    OneConsecutive(fs + gs, f);
    assert fs + (gs + [f]) == (fs + gs) + [f];
  }

  lemma {:induction false} GroupConsecutive(fs: seq<Finished>, ws: seq<Writer>, ok: bool, first: nat)
    requires Consecutive(fs, first)
    ensures Consecutive(fs + FinishedAs(ws, ok, first), first + |OpsOf(ws)|)
    decreases |ws|
  {
    if ws == [] {
      assert fs + [] == fs;
    } else {
      var before, last := LastOfGroup(ws, ok, first);
      GroupConsecutive(fs, before, ok, first);
      AddConsecutive(fs, FinishedAs(before, ok, first), last);
    }
  }

  lemma OneConsecutive(fs: seq<Finished>, f: Finished)
    requires Consecutive(fs, f.first)
    ensures Consecutive(fs + [f], f.first + f.count)
  {
    var r := fs + [f];
    forall i | 0 <= i < |r| - 1 ensures r[i].first + r[i].count == r[i + 1].first {
      if i < |fs| - 1 {
        assert r[i] == fs[i] && r[i + 1] == fs[i + 1];
      }
    }
  }

  lemma {:induction false} RangesOrdered(fs: seq<Finished>, end: nat, i: nat, j: nat)
    requires Consecutive(fs, end) && i < j < |fs|
    ensures fs[i].first + fs[i].count <= fs[j].first
    decreases j
  {
    assert fs[j - 1].first + fs[j - 1].count == fs[j - 1 + 1].first;
    if i < j - 1 {
      RangesOrdered(fs, end, i, j - 1);
    }
  }

  lemma {:induction false} RangesEnd(fs: seq<Finished>, end: nat, i: nat)
    requires Consecutive(fs, end) && i < |fs|
    ensures 1 <= fs[i].first && fs[i].first + fs[i].count <= end
  {
    if i < |fs| - 1 {
      RangesOrdered(fs, end, i, |fs| - 1);
    }
    if i > 0 {
      RangesOrdered(fs, end, 0, i);
    }
  }

  // ---- every step ----

  lemma ArriveKeeps(s: Queue, s': Queue, w: Writer)
    requires QueueInv(s) && Arrive(s, s', w)
    ensures QueueInv(s')
  {
    assert s'.arrived == WritersOf(s'.finished) + s'.waiting;
    if s.phase.Committing? {
      assert s'.waiting[..s.phase.n] == s.waiting[..s.phase.n];
    }
  }

  lemma LeadKeeps(s: Queue, s': Queue, n: nat, bytes: ByteSize)
    requires QueueInv(s) && Lead(s, s', n, bytes)
    ensures QueueInv(s')
  {
    assert s'.phase.ops[..0] == [];
    NoOps(s.lastSeq + 1);
  }

  lemma LeaveKeeps(s: Queue, s': Queue, ok: bool)
    requires QueueInv(s) && Leave(s, s', ok)
    ensures QueueInv(s')
  {
    var f := Finished(s.waiting[0], ok, s.lastSeq + 1, 0);
    OneConsecutive(s.finished, f);
    AnyWroteMore(s.finished, [f]);
    forall e ensures !AnyWrote([f], e) {}
    assert s'.arrived == WritersOf(s'.finished) + s'.waiting;
  }

  lemma InsertOneKeeps(s: Queue, s': Queue)
    requires QueueInv(s) && InsertOne(s, s')
    ensures QueueInv(s')
  {
    var ops, k := s.phase.ops, s.phase.inserted;
    assert ops[..k + 1] == ops[..k] + [ops[k]];
    BatchJoin(s.lastSeq + 1, ops[..k], [ops[k]]);
    OneOp(s.lastSeq + 1 + k, ops[k]);
  }

  lemma PublishMem(s: Queue, s': Queue)
    requires QueueInv(s) && Publish(s, s')
    ensures forall e :: e in s'.mem <==> AnyWrote(s'.finished, e)
  {
    var ws := s.waiting[..s.phase.n];
    AnyWroteMore(s.finished, FinishedAs(ws, s.phase.logged, s.lastSeq + 1));
    if s.phase.logged {
      GroupWrote(ws, s.lastSeq + 1);
      assert s.phase.ops[..|s.phase.ops|] == s.phase.ops;
    } else {
      FailedWroteNothing(ws, s.lastSeq + 1);
      assert s.phase.ops[..0] == [];
      NoOps(s.lastSeq + 1);
    }
  }

  lemma PublishOrder(fs: seq<Finished>, gs: seq<Finished>, waiting: seq<Writer>, n: nat)
    requires n <= |waiting| && |gs| == n && forall i | 0 <= i < n :: gs[i].w == waiting[i]
    ensures WritersOf(fs) + waiting == WritersOf(fs + gs) + waiting[n..]
  {
    assert WritersOf(gs) == waiting[..n];
    assert WritersOf(fs + gs) == WritersOf(fs) + WritersOf(gs);
    assert waiting == waiting[..n] + waiting[n..];
  }

  lemma PublishCounts(s: Queue, s': Queue)
    requires QueueInv(s) && Publish(s, s')
    ensures Consecutive(s'.finished, s'.lastSeq + 1) && CountsRight(s'.finished)
  {
    GroupConsecutive(s.finished, s.waiting[..s.phase.n], s.phase.logged, s.lastSeq + 1);
  }

  lemma PublishKeeps(s: Queue, s': Queue)
    requires QueueInv(s) && Publish(s, s')
    ensures QueueInv(s')
  {
    PublishMem(s, s');
    PublishCounts(s, s');
    PublishOrder(s.finished, FinishedAs(s.waiting[..s.phase.n], s.phase.logged, s.lastSeq + 1), s.waiting, s.phase.n);
  }

  lemma QueueStepKeeps(s: Queue, s': Queue)
    requires QueueInv(s) && QueueStep(s, s')
    ensures QueueInv(s')
  {
    if w :| Arrive(s, s', w) {
      ArriveKeeps(s, s', w);
    } else if n, bytes :| Lead(s, s', n, bytes) {
      LeadKeeps(s, s', n, bytes);
    } else if ok :| Leave(s, s', ok) {
      LeaveKeeps(s, s', ok);
    } else if InsertOne(s, s') {
      InsertOneKeeps(s, s');
    } else if Publish(s, s') {
      PublishKeeps(s, s');
    }
  }

  lemma {:induction false} QueueRunInv(states: seq<Queue>, n: nat)
    requires QueueRun(states) && n < |states|
    ensures QueueInv(states[n])
  {
    if n == 0 {
      assert forall e :: !AnyWrote([], e);
    } else {
      QueueRunInv(states, n - 1);
      assert QueueStep(states[n - 1], states[n - 1 + 1]);
      QueueStepKeeps(states[n - 1], states[n]);
    }
  }

  // ---- the guarantees ----

  /** Every writer is served at most once, in the order of arrival. */
  lemma ServedOnceInOrder(states: seq<Queue>, n: nat)
    requires QueueRun(states) && n < |states|
    ensures WritersOf(states[n].finished) <= states[n].arrived
    ensures forall i, j | 0 <= i < j < |states[n].finished| :: states[n].finished[i].w.id != states[n].finished[j].w.id
  {
    QueueRunInv(states, n);
    var s := states[n];
    assert forall i | 0 <= i < |s.finished| :: s.arrived[i] == s.finished[i].w;
  }

  /** The sequence ranges of finished writers are disjoint, in queue order and
      without gaps, and never beyond the published last sequence. */
  lemma RangesAreDisjoint(states: seq<Queue>, n: nat, i: nat, j: nat)
    requires QueueRun(states) && n < |states| && i < j < |states[n].finished|
    ensures var fs := states[n].finished;
      fs[i].first + fs[i].count <= fs[j].first && fs[j].first + fs[j].count <= states[n].lastSeq + 1
  {
    QueueRunInv(states, n);
    RangesOrdered(states[n].finished, states[n].lastSeq + 1, i, j);
    RangesEnd(states[n].finished, states[n].lastSeq + 1, j);
  }

  /** A read at the last sequence number sees exactly the batches of the writers
      that finished with success, each of them whole. */
  lemma AllOrNothing(states: seq<Queue>, n: nat, e: Entry)
    requires QueueRun(states) && n < |states|
    ensures e in states[n].mem && e.k.sn <= states[n].lastSeq <==> AnyWrote(states[n].finished, e)
  {
    QueueRunInv(states, n);
    var s := states[n];
    if f :| f in s.finished && Wrote(f, e) {
      var i :| 0 <= i < |s.finished| && s.finished[i] == f;
      RangesEnd(s.finished, s.lastSeq + 1, i);
    }
  }
}
