/** The storage engine as a state machine (db/db_impl.cc, db/version_set.cc).

    A state is what the mutex protects, plus two specification fields: the write
    history and the oldest sequence number at which reads are still exact. */
module Engine {
  import opened Options
  import opened Keys
  import opened Versions

  /** A running compaction: its input files, the user-key range [lo, hi] of
      in0, the oldest snapshot it must serve and the version it started from. */
  datatype Compaction = Compaction(
    level: nat, in0: seq<File>, in1: seq<File>, lo: UserKey, hi: UserKey,
    snap: Sequence, input: Version, picked: bool)
  {
    ghost predicate Input(f: File) { f in in0 || f in in1 }
  }

  /** `reserved` holds the running compaction's output numbers
      (pending_outputs_). */
  datatype State = State(
    mem: seq<Entry>, imm: Option<seq<Entry>>, version: Version,
    lastSeq: Sequence, snapshots: seq<Sequence>, nextFile: nat,
    running: Option<Compaction>, reserved: seq<nat>, hist: iset<Entry>, horizon: nat)

  ghost predicate DbHas(s: State, e: Entry) {
    e in s.mem || (s.imm.Some? && e in s.imm.value) || VersionHas(s.version, e)
  }

  ghost function DbEntries(s: State): iset<Entry> {
    iset e | DbHas(s, e)
  }

  // ---- write batches ----

  datatype Op = PutOp(user: UserKey, v: Bytes) | DeleteOp(user: UserKey)

  function EntryOf(op: Op, sn: Sequence): Entry {
    match op
    case PutOp(u, v) => Entry(IKey(u, sn, Put), v)
    case DeleteOp(u) => Entry(IKey(u, sn, Deletion), "")
  }

  // MemTableInserter numbers the operations of a batch consecutively.
  ghost predicate InBatch(first: nat, ops: seq<Op>, i: nat, e: Entry)
    requires first + |ops| <= MAX_SEQUENCE + 1
  {
    i < |ops| && e == EntryOf(ops[i], first + i)
  }

  ghost predicate BatchHas(first: nat, ops: seq<Op>, e: Entry)
    requires first + |ops| <= MAX_SEQUENCE + 1
  {
    exists i: nat :: InBatch(first, ops, i, e)
  }

  ghost function BatchEntries(first: nat, ops: seq<Op>): iset<Entry>
    requires first + |ops| <= MAX_SEQUENCE + 1
  {
    iset e | BatchHas(first, ops, e)
  }

  // ---- compaction inputs and outputs ----

  /** No file of level+2 or deeper can hold u (IsBaseLevelForKey). */
  ghost predicate BaseFor(v: Version, level: nat, u: UserKey) {
    forall l, f | level + 2 <= l < NUM_LEVELS && f in v[l] :: !UserOverlap(f, u, u)
  }

  ghost predicate InputHas(c: Compaction, e: Entry) {
    exists f :: c.Input(f) && e in f.entries
  }

  // Rule (A): a newer input entry of the key is visible at every live snapshot.
  ghost predicate HiddenBy(c: Compaction, e: Entry, x: Entry) {
    InputHas(c, x) && x.k.user == e.k.user && e.k.sn < x.k.sn <= c.snap
  }

  ghost predicate Hidden(c: Compaction, e: Entry) {
    exists x :: HiddenBy(c, e, x)
  }

  ghost predicate ObsoleteTombstone(c: Compaction, e: Entry) {
    e.k.kind.Deletion? && e.k.sn <= c.snap && BaseFor(c.input, c.level, e.k.user)
  }

  ghost predicate Kept(c: Compaction, e: Entry) {
    InputHas(c, e) && !Hidden(c, e) && !ObsoleteTombstone(c, e)
  }

  ghost predicate Avoids(c: Compaction, a: UserKey, b: UserKey) {
    forall f | c.Input(f) :: !UserOverlap(f, a, b)
  }

  /** Every range that avoids each input file lies on one side of all of them. */
  ghost predicate GapFree(c: Compaction) {
    forall a, b | a <= b && Avoids(c, a, b) ::
      (forall f | c.Input(f) :: b < f.smallest.user) || (forall f | c.Input(f) :: f.largest.user < a)
  }

  ghost predicate OneSide(c: Compaction, g: File) {
    (forall f | c.Input(f) :: FileBefore(g, f)) || (forall f | c.Input(f) :: FileBefore(f, g))
  }

  /** The compaction's inputs are closed in v: what stays behind in `level` is
      newer, and what stays behind in `level + 1` is out of the way. */
  ghost predicate ClosedInputs(c: Compaction, v: Version) {
    && c.level + 1 < NUM_LEVELS && c.in0 != [] && NoDuplicates(c.in0) && NoDuplicates(c.in1)
    && (forall f | f in c.in0 :: f in v[c.level] && c.lo <= f.smallest.user && f.largest.user <= c.hi)
    && (exists f :: f in c.in0 && f.smallest.user == c.lo) && (exists f :: f in c.in0 && f.largest.user == c.hi)
    && (forall f | f in c.in1 :: f in v[c.level + 1])
    && (forall g, f | g in v[c.level] && g !in c.in0 && f in c.in0 :: NewerThan(g.entries, f.entries))
    && (forall g | g in v[c.level + 1] && g !in c.in1 :: OneSide(c, g) && !UserOverlap(g, c.lo, c.hi))
  }

  lemma InputsAreFiles(c: Compaction, v: Version, f: File)
    requires ClosedInputs(c, v) && AllValid(v) && c.Input(f)
    ensures ValidFile(f) && f.smallest.user <= f.largest.user
  {
    var l := if f in c.in0 then c.level else c.level + 1;
    assert f in v[l];
    assert 0 < |f.entries|;
    FileBounds(f, f.entries[0]);
  }

  /** The boundary condition: no file left behind in level + 1 starts with the
      user key an input file ends with. */
  ghost predicate NoSplitBoundary(c: Compaction, v: Version)
    requires c.level + 1 < NUM_LEVELS
  {
    forall g, f | g in v[c.level + 1] && g !in c.in1 && f in c.in1 && FileBefore(f, g) ::
      f.largest.user != g.smallest.user
  }

  // Holds while the compaction runs: no input key has gained data below.
  ghost predicate BaseStaysBase(c: Compaction, v: Version) {
    forall e, l, g | InputHas(c, e) && BaseFor(c.input, c.level, e.k.user) && c.level + 2 <= l < NUM_LEVELS
      && g in v[l] ::
      forall x | x in g.entries :: x.k.user != e.k.user
  }

  ghost predicate ReservedNumbers(reserved: seq<nat>, v: Version, bound: nat) {
    && (forall n | n in reserved :: n < bound)
    && forall l, f | 0 <= l < NUM_LEVELS && f in v[l] :: f.number !in reserved
  }

  ghost predicate ValidInputs(c: Compaction, v: Version) {
    && ClosedInputs(c, v) && NoSplitBoundary(c, v) && BaseStaysBase(c, v)
    && (c.picked ==> GapFree(c))
  }

  ghost predicate ServesSnapshots(c: Compaction, s: State) {
    c.snap <= s.lastSeq && forall i | 0 <= i < |s.snapshots| :: c.snap <= s.snapshots[i]
  }

  ghost predicate Outputs(c: Compaction, reserved: seq<nat>, outs: seq<File>) {
    && SortedFiles(outs)
    && (forall o | o in outs :: ValidFile(o) && o.number in reserved)
    && (forall i, j | 0 <= i < j < |outs| :: outs[i].number != outs[j].number)
    && (forall o, e | o in outs && e in o.entries :: Kept(c, e))
    && forall e | Kept(c, e) :: exists o :: o in outs && e in o.entries
  }

  // ---- the steps ----

  ghost predicate Init(s: State) {
    s == State([], None, [[], [], [], [], [], [], []], 0, [], s.nextFile, None, [], iset{}, 0)
  }

  /** DBImpl::Write by the leader of a group. */
  ghost predicate Write(s: State, s': State, ops: seq<Op>) {
    && s.lastSeq + |ops| < MAX_SEQUENCE
    && SortedEntries(s'.mem)
    && (forall e :: e in s'.mem <==> e in s.mem || e in BatchEntries(s.lastSeq + 1, ops))
    && s' == s.(mem := s'.mem, lastSeq := s.lastSeq + |ops|, hist := s.hist + BatchEntries(s.lastSeq + 1, ops))
  }

  /** MakeRoomForWrite: the full memtable becomes immutable; a log number is
      taken. */
  ghost predicate Switch(s: State, s': State) {
    s.imm.None? && s' == s.(mem := [], imm := Some(s.mem), nextFile := s.nextFile + 1)
  }

  ghost predicate Snapshot(s: State, s': State) {
    s' == s.(snapshots := s.snapshots + [s.lastSeq])
  }

  ghost predicate Release(s: State, s': State, i: nat) {
    i < |s.snapshots| && s' == s.(snapshots := s.snapshots[..i] + s.snapshots[i + 1..])
  }

  /** The level PickLevelForMemTableOutput may choose for a table over
      [lo, hi]. */
  ghost predicate FlushLevel(v: Version, lo: UserKey, hi: UserKey, level: nat) {
    level <= 2 && (level > 0 ==> forall l, g | 0 <= l <= level && g in v[l] :: !UserOverlap(g, lo, hi))
  }

  ghost function TableOf(number: nat, size: nat, es: seq<Entry>): File
    requires es != []
  {
    File(number, size, es[0].k, es[|es| - 1].k, es)
  }

  /** CompactMemTable. A compaction may be running, provided its inputs came
      from PickCompaction. */
  ghost predicate Flush(s: State, s': State, level: nat, size: nat) {
    && s.imm.Some? && (s.running.Some? ==> s.running.value.picked)
    && s' == s.(imm := None, nextFile := s.nextFile + 1, version := s'.version)
    && if s.imm.value == [] then s'.version == s.version else
         var f := TableOf(s.nextFile, size, s.imm.value);
         && FlushLevel(s.version, f.smallest.user, f.largest.user, level)
         && Edited(s.version[level], iset{}, iset{f}, s'.version[level])
         && forall l | 0 <= l < NUM_LEVELS && l != level :: s'.version[l] == s.version[l]
  }

  ghost function OldestSnapshot(s: State): Sequence {
    if s.snapshots == [] then s.lastSeq else s.snapshots[0]
  }

  /** The moment DoCompactionWork releases the mutex: inputs and the oldest
      snapshot are fixed. */
  ghost predicate Begin(s: State, s': State, c: Compaction) {
    && s.running.None? && s' == s.(running := Some(c), reserved := [])
    && c.input == s.version && c.snap == OldestSnapshot(s)
    && ClosedInputs(c, s.version) && NoSplitBoundary(c, s.version) && (c.picked ==> GapFree(c))
  }

  // OpenCompactionOutputFile
  ghost predicate Reserve(s: State, s': State) {
    s.running.Some? && s' == s.(nextFile := s.nextFile + 1, reserved := s.reserved + [s.nextFile])
  }

  ghost function Numbers(fs: seq<File>): iset<nat> {
    iset f | f in fs :: f.number
  }

  ghost function FileSet(fs: seq<File>): iset<File> {
    iset f | f in fs
  }

  ghost predicate Replaced(c: Compaction, v: Version, v': Version, outs: seq<File>) {
    && c.level + 1 < NUM_LEVELS
    && Edited(v[c.level], Numbers(c.in0), iset{}, v'[c.level])
    && Edited(v[c.level + 1], Numbers(c.in1), FileSet(outs), v'[c.level + 1])
    && forall l | 0 <= l < NUM_LEVELS && l != c.level && l != c.level + 1 :: v'[l] == v[l]
  }

  /** InstallCompactionResults. */
  ghost predicate Install(s: State, s': State, outs: seq<File>) {
    s.running.Some? &&
    var c := s.running.value;
    && Outputs(c, s.reserved, outs) && Replaced(c, s.version, s'.version, outs)
    && s' == s.(version := s'.version, running := None, reserved := [], horizon :=
      if s.horizon < c.snap then c.snap else s.horizon)
  }

  // The compaction is abandoned on an error or a shutdown.
  ghost predicate Abandon(s: State, s': State) {
    s.running.Some? && s' == s.(running := None, reserved := [])
  }

  /** BackgroundCompaction's trivial move of one file to the next level. */
  ghost predicate Move(s: State, s': State, c: Compaction) {
    && s.running.None? && c.in1 == [] && |c.in0| == 1 && ClosedInputs(c, s.version)
    && Replaced(c, s.version, s'.version, c.in0)
    && s' == s.(version := s'.version)
  }

  ghost predicate Step(s: State, s': State) {
    || (exists ops :: Write(s, s', ops))
    || Switch(s, s') || Snapshot(s, s') || (exists i :: Release(s, s', i))
    || (exists level, size :: Flush(s, s', level, size))
    || (exists c :: Begin(s, s', c)) || Reserve(s, s') || Abandon(s, s')
    || (exists outs :: Install(s, s', outs))
    || (exists c :: Move(s, s', c))
  }

  ghost predicate Run(states: seq<State>) {
    && 0 < |states| && Init(states[0])
    && forall i | 0 <= i < |states| - 1 :: Step(states[i], states[i + 1])
  }

  // ---- the invariant ----

  ghost predicate MemOrder(s: State) {
    && SortedEntries(s.mem) && (s.imm.Some? ==> SortedEntries(s.imm.value))
    && (s.imm.Some? ==> NewerThan(s.mem, s.imm.value))
    && forall l, f | 0 <= l < NUM_LEVELS && f in s.version[l] ::
      NewerThan(s.mem, f.entries) && (s.imm.Some? ==> NewerThan(s.imm.value, f.entries))
  }

  ghost predicate History(s: State) {
    && DistinctSequences(s.hist)
    && (forall e | e in s.hist :: e.k.sn <= s.lastSeq)
    && forall e | DbHas(s, e) :: e in s.hist
  }

  ghost predicate SnapshotOrder(s: State) {
    && s.lastSeq < MAX_SEQUENCE && s.horizon <= s.lastSeq
    && (forall i | 0 <= i < |s.snapshots| :: s.horizon <= s.snapshots[i] <= s.lastSeq)
    && forall i, j | 0 <= i < j < |s.snapshots| :: s.snapshots[i] <= s.snapshots[j]
  }

  // Reads at every sequence number from the horizon on see the true history.
  ghost predicate ExactReads(s: State) {
    forall u, t: nat | s.horizon <= t :: Lookup(DbEntries(s), u, t) == Lookup(s.hist, u, t)
  }

  ghost predicate Inv(s: State) {
    && ValidVersion(s.version, s.nextFile) && MemOrder(s) && History(s) && SnapshotOrder(s) && ExactReads(s)
    && ReservedNumbers(s.reserved, s.version, s.nextFile)
    && (s.running.Some? ==> ValidInputs(s.running.value, s.version) && ServesSnapshots(s.running.value, s))
  }
}
