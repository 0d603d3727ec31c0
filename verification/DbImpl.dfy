/** DBImpl (db/db_impl.cc): the methods that carry out the engine's steps, each
    at the point where it holds the mutex. */
module DbImpl {
  import opened Options
  import opened Keys
  import opened Versions
  import opened Engine
  import opened EngineProofs
  import opened FlushProofs
  import opened CompactionProofs
  import opened EngineRuns
  import opened Meanings
  import opened OutputCuts
  import opened CompactionLoop
  import opened Overlaps
  import opened CompactionPicker
  import opened VersionSets
  import opened Sequences
  import Reads = VersionReads
  import B = Builders

  // ---- the memtable ----

  /** SkipList::Insert on the memtable's sorted contents. */
  method MemInsert(mem: seq<Entry>, e: Entry) returns (r: seq<Entry>)
    requires SortedEntries(mem) && forall x | x in mem :: x.k != e.k
    ensures SortedEntries(r) && forall x :: x in r <==> x in mem || x == e
  {
    var i := 0;
    while i < |mem| && Less(mem[i].k, e.k)
      invariant i <= |mem|
      invariant forall j | 0 <= j < i :: Less(mem[j].k, e.k)
    {
      i := i + 1;
    }
    forall j | i <= j < |mem| ensures Less(e.k, mem[j].k) {
      assert mem[j] in mem && mem[i] in mem;
      KeyOrder(mem[i].k, e.k, mem[j].k);
      KeyOrder(e.k, mem[i].k, mem[j].k);
    }
    InsertMembers(mem, i, e);
    r := mem[..i] + [e] + mem[i..];
  }

  lemma BatchPrefix(first: nat, ops: seq<Op>, i: nat)
    requires first + |ops| <= MAX_SEQUENCE + 1 && i < |ops|
    ensures BatchEntries(first, ops[..i + 1]) == BatchEntries(first, ops[..i]) + iset{EntryOf(ops[i], first + i)}
  {
    var pre, next := ops[..i], ops[..i + 1];
    forall e ensures BatchHas(first, next, e) <==> BatchHas(first, pre, e) || e == EntryOf(ops[i], first + i) {
      if j: nat :| InBatch(first, next, j, e) {
        assert j < i ==> InBatch(first, pre, j, e);
      }
      if j: nat :| InBatch(first, pre, j, e) {
        assert InBatch(first, next, j, e);
      }
      assert InBatch(first, next, i, EntryOf(ops[i], first + i));
    }
  }

  /** WriteBatchInternal::InsertInto. */
  method InsertInto(mem: seq<Entry>, first: nat, ops: seq<Op>) returns (r: seq<Entry>)
    requires first + |ops| <= MAX_SEQUENCE + 1 && SortedEntries(mem) && forall e | e in mem :: e.k.sn < first
    ensures SortedEntries(r) && forall e :: e in r <==> e in mem || e in BatchEntries(first, ops)
  {
    r := mem;
    for i := 0 to |ops|
      invariant SortedEntries(r) && forall e :: e in r <==> e in mem || e in BatchEntries(first, ops[..i])
    {
      BatchSequences(first, ops[..i]);
      BatchPrefix(first, ops, i);
      r := MemInsert(r, EntryOf(ops[i], first + i));
    }
    assert ops[..|ops|] == ops;
  }

  /** MemTable::Get: one seek. */
  method MemGet(mem: seq<Entry>, u: UserKey, s: Sequence) returns (r: Reads.Found)
    requires SortedEntries(mem)
    ensures Reads.Answers(Reads.EntrySet(mem), u, s, r)
  {
    var i := 0;
    while i < |mem| && Less(mem[i].k, SeekKey(u, s))
      invariant i <= |mem|
      invariant forall j | 0 <= j < i :: Less(mem[j].k, SeekKey(u, s))
    {
      i := i + 1;
    }
    SeekFindsNewest(mem, u, s, i);
    r := if i < |mem| && mem[i].k.user == u then Reads.Hit(mem[i]) else Reads.NotFound;
  }

  // ---- placing a flushed table ----

  method SomeFileOverlapsRange(disjointSorted: bool, files: seq<File>, lo: UserKey, hi: UserKey) returns (r: bool)
    requires (forall f | f in files :: ValidFile(f)) && (disjointSorted ==> SortedFiles(files))
    ensures r <==> exists f :: f in files && UserOverlap(f, lo, hi)
  {
    if !disjointSorted {
      for i := 0 to |files|
        invariant forall f | f in files[..i] :: !UserOverlap(f, lo, hi)
      {
        assert files[..i + 1] == files[..i] + [files[i]] && files[i] in files;
        if !(lo > files[i].largest.user || hi < files[i].smallest.user) {
          return true;
        }
      }
      assert files[..|files|] == files;
      return false;
    }
    var index := Reads.FindFile(files, SeekKey(lo, MAX_SEQUENCE));
    FirstCandidate(files, lo, hi, index);
    r := index < |files| && !(hi < files[index].smallest.user);
  }

  lemma FirstCandidate(files: seq<File>, lo: UserKey, hi: UserKey, index: nat)
    requires (forall f | f in files :: ValidFile(f)) && SortedFiles(files) && index <= |files|
    requires forall j | 0 <= j < index :: Less(files[j].largest, SeekKey(lo, MAX_SEQUENCE))
    requires forall j | index <= j < |files| :: AtMost(SeekKey(lo, MAX_SEQUENCE), files[j].largest)
    ensures (exists f :: f in files && UserOverlap(f, lo, hi)) <==> index < |files| && files[index].smallest.user <= hi
  {
    forall j | index < j < |files| ensures files[index].smallest.user <= files[j].smallest.user {
      assert FileBefore(files[index], files[j]) && files[index] in files;
      FileBounds(files[index], files[index].entries[0]);
    }
    if index < |files| && files[index].smallest.user <= hi {
      assert UserOverlap(files[index], lo, hi) && files[index] in files;
    }
  }

  // A table over [lo, hi] may go from level l to the next.
  ghost predicate Descends(v: Version, lo: UserKey, hi: UserKey, maxOverlapBytes: nat, l: nat)
    requires l + 2 < NUM_LEVELS
  {
    && (forall g | g in v[l + 1] :: !UserOverlap(g, lo, hi))
    && TotalFileSize(Meeting(v[l + 2], Range(Some(lo), Some(hi)))) <= maxOverlapBytes
  }

  ghost predicate LevelClear(v: Version, lo: UserKey, hi: UserKey, l: nat)
    requires l < NUM_LEVELS
  {
    forall g | g in v[l] :: !UserOverlap(g, lo, hi)
  }

  /** The deepest level, down to level 2, that a new table may sink to: past levels it
      overlaps nothing in, and not over too many bytes in the level after. */
  ghost predicate Deepest(v: Version, lo: UserKey, hi: UserKey, maxOverlapBytes: nat, level: nat) {
    && level <= 2 && (level > 0 ==> LevelClear(v, lo, hi, 0))
    && (forall l | 0 <= l < level :: Descends(v, lo, hi, maxOverlapBytes, l))
    && (level < 2 && LevelClear(v, lo, hi, 0) ==> !Descends(v, lo, hi, maxOverlapBytes, level))
  }

  method MaySink(v: Version, lo: UserKey, hi: UserKey, maxOverlapBytes: nat, level: nat, ghost bound: nat)
    returns (ok: bool)
    requires ValidVersion(v, bound) && level + 2 < NUM_LEVELS
    ensures ok <==> Descends(v, lo, hi, maxOverlapBytes, level)
  {
    LevelFiles(v, bound, level + 1);
    var overlap := SomeFileOverlapsRange(true, v[level + 1], lo, hi);
    if overlap {
      return false;
    }
    LevelFiles(v, bound, level + 2);
    var overlaps, _ := GetOverlappingInputs(v[level + 2], level + 2, Range(Some(lo), Some(hi)), iset{});
    ok := TotalFileSize(overlaps) <= maxOverlapBytes;
  }

  /** PickLevelForMemTableOutput. */
  method PickLevelForMemTableOutput(v: Version, lo: UserKey, hi: UserKey, maxOverlapBytes: nat, ghost bound: nat)
    returns (level: nat)
    requires ValidVersion(v, bound)
    ensures Deepest(v, lo, hi, maxOverlapBytes, level)
  {
    level := 0;
    LevelFiles(v, bound, 0);
    var overlap := SomeFileOverlapsRange(false, v[0], lo, hi);
    if !overlap {
      while level < 2
        invariant level <= 2 && forall l | 0 <= l < level :: Descends(v, lo, hi, maxOverlapBytes, l)
      {
        var ok := MaySink(v, lo, hi, maxOverlapBytes, level, bound);
        if !ok {
          break;
        }
        level := level + 1;
      }
    }
  }

  lemma DeepestIsAllowed(v: Version, lo: UserKey, hi: UserKey, maxOverlapBytes: nat, level: nat)
    requires Deepest(v, lo, hi, maxOverlapBytes, level)
    ensures FlushLevel(v, lo, hi, level)
  {
    forall l, g | level > 0 && 0 <= l <= level && g in v[l] ensures !UserOverlap(g, lo, hi) {
      if l > 0 {
        assert Descends(v, lo, hi, maxOverlapBytes, l - 1);
      }
    }
  }

  // ---- LogAndApply ----

  lemma LevelIsSorted(v: Version, bound: nat)
    requires ValidVersion(v, bound)
    ensures forall l | 0 <= l < NUM_LEVELS :: SortedBySmallest(v[l])
  {
    forall l, i, j | 0 <= l < NUM_LEVELS && 0 <= i < j < |v[l]| ensures BySmallest(v[l][i], v[l][j]) {
      if l > 0 {
        var f := v[l][i];
        assert f in v[l] && FileBefore(f, v[l][j]) && ValidFile(f);
        FileBounds(f, f.entries[0]);
      }
    }
  }

  ghost predicate EditIsFresh(v: Version, e: B.Edit) {
    && B.ValidEdit(e) && B.DistinctAdds(e)
    && forall l, f, g | 0 <= l < NUM_LEVELS && B.EditAdds(e, l, f) && g in v[l] :: f.number != g.number
  }

  /** The version LogAndApply installs for an edit. */
  method ApplyEdit(v: Version, e: B.Edit) returns (v': Version)
    requires (forall l | 0 <= l < NUM_LEVELS :: SortedBySmallest(v[l])) && EditIsFresh(v, e)
    ensures forall l | 0 <= l < NUM_LEVELS :: SortedBySmallest(v'[l])
    ensures forall l, f | 0 <= l < NUM_LEVELS ::
      f in v'[l] <==> (f in v[l] && (l, f.number) !in e.deleted) || B.EditAdds(e, l, f)
  {
    var builder := new B.Builder(v);
    forall l | 0 <= l < NUM_LEVELS ensures B.AddsAreNew(B.FileISet(v[l]), l, [e]) {
      SingleEditIsNew(v[l], l, e);
    }
    assert [] + [e] == [e];
    builder.Apply(e);
    v' := builder.SaveTo();
    forall l | 0 <= l < NUM_LEVELS ensures forall f ::
      f in v'[l] <==> (f in v[l] && (l, f.number) !in e.deleted) || B.EditAdds(e, l, f) {
      SingleEdit(v[l], v'[l], l, e);
    }
  }

  lemma SingleEditIsNew(fs: seq<File>, l: nat, e: B.Edit)
    requires forall f, g | B.EditAdds(e, l, f) && g in fs :: f.number != g.number
    ensures B.AddsAreNew(B.FileISet(fs), l, [e])
  {
    assert [e][..0] == [];
  }

  lemma SingleEdit(fs: seq<File>, fs': seq<File>, l: nat, e: B.Edit)
    requires B.FileISet(fs') == B.ApplyAll(B.FileISet(fs), l, [e])
    ensures forall f :: f in fs' <==> (f in fs && (l, f.number) !in e.deleted) || B.EditAdds(e, l, f)
  {
    assert [e][..0] == [];
    assert B.FileISet(fs') == B.ApplyOne(B.FileISet(fs), l, e);
    forall f ensures f in fs' <==> f in B.FileISet(fs') {}
  }

  // ---- edits and the engine's steps ----

  function FlushEdit(level: nat, f: File): B.Edit {
    B.Edit({}, [(level, f)])
  }

  function Deletions(level: nat, fs: seq<File>): set<(nat, nat)> {
    set f | f in fs :: (level, f.number)
  }

  function Additions(level: nat, fs: seq<File>): seq<(nat, File)> {
    seq(|fs|, i requires 0 <= i < |fs| => (level, fs[i]))
  }

  // AddInputDeletions, then AddFile for every output.
  function InstallEdit(c: Compaction, outs: seq<File>): B.Edit {
    B.Edit(Deletions(c.level, c.in0) + Deletions(c.level + 1, c.in1), Additions(c.level + 1, outs))
  }

  ghost predicate EditApplied(v: Version, v': Version, e: B.Edit) {
    && (forall l | 0 <= l < NUM_LEVELS :: SortedBySmallest(v'[l]))
    && forall l, f | 0 <= l < NUM_LEVELS ::
      f in v'[l] <==> (f in v[l] && (l, f.number) !in e.deleted) || B.EditAdds(e, l, f)
  }

  lemma {:induction false} SameFiles(fs: seq<File>, gs: seq<File>)
    requires SortedBySmallest(fs) && SortedBySmallest(gs) && forall f :: f in fs <==> f in gs
    ensures fs == gs
  {
    assert fs == [] <==> gs == [] by {
      assert fs != [] ==> fs[0] in fs;
      assert gs != [] ==> gs[0] in gs;
    }
    if fs != [] {
      SameHead(fs, gs);
      TailMembers(fs);
      TailMembers(gs);
      SameFiles(fs[1..], gs[1..]);
      assert fs == [fs[0]] + fs[1..] && gs == [gs[0]] + gs[1..];
    }
  }

  lemma TailMembers(fs: seq<File>)
    requires SortedBySmallest(fs) && fs != []
    ensures forall f :: f in fs[1..] <==> f in fs && f != fs[0]
  {
    forall f | f in fs[1..] ensures f != fs[0] {
      assert BySmallest(fs[0], f);
    }
    assert fs == [fs[0]] + fs[1..];
  }

  lemma SameHead(fs: seq<File>, gs: seq<File>)
    requires fs != [] && gs != [] && SortedBySmallest(fs) && SortedBySmallest(gs) && forall f :: f in fs <==> f in gs
    ensures fs[0] == gs[0]
  {
    assert fs[0] in gs && gs[0] in fs;
    var i :| 0 <= i < |gs| && gs[i] == fs[0];
    var j :| 0 <= j < |fs| && fs[j] == gs[0];
    B.BySmallestTotal(fs[0], gs[0], fs[0]);
  }

  lemma UntouchedLevel(v: Version, v': Version, e: B.Edit, l: nat, bound: nat)
    requires ValidVersion(v, bound) && EditApplied(v, v', e) && l < NUM_LEVELS
    requires (forall n :: (l, n) !in e.deleted) && forall f :: !B.EditAdds(e, l, f)
    ensures v'[l] == v[l]
  {
    LevelIsSorted(v, bound);
    forall f ensures f in v'[l] <==> f in v[l] {
      assert (l, f.number) !in e.deleted && !B.EditAdds(e, l, f);
    }
    SameFiles(v'[l], v[l]);
  }

  lemma FlushApplied(v: Version, v': Version, level: nat, f: File, bound: nat)
    requires ValidVersion(v, bound) && level < NUM_LEVELS && EditApplied(v, v', FlushEdit(level, f))
    ensures Edited(v[level], iset{}, iset{f}, v'[level])
    ensures forall l | 0 <= l < NUM_LEVELS && l != level :: v'[l] == v[l]
  {
    var e := FlushEdit(level, f);
    assert forall l, g :: B.EditAdds(e, l, g) <==> l == level && g == f;
    forall l | 0 <= l < NUM_LEVELS && l != level ensures v'[l] == v[l] {
      UntouchedLevel(v, v', e, l, bound);
    }
  }

  lemma InstallEditFacts(c: Compaction, outs: seq<File>)
    ensures forall l, n ::
      (l, n) in InstallEdit(c, outs).deleted
      <==> (l == c.level && n in Numbers(c.in0)) || (l == c.level + 1 && n in Numbers(c.in1))
    ensures forall l, f :: B.EditAdds(InstallEdit(c, outs), l, f) <==> l == c.level + 1 && f in outs
  {
    var adds := Additions(c.level + 1, outs);
    forall l, f ensures (l, f) in adds <==> l == c.level + 1 && f in outs {
      if l == c.level + 1 && f in outs {
        var i :| 0 <= i < |outs| && outs[i] == f;
        assert adds[i] == (l, f);
      }
    }
    DeletionsMembers(c.level, c.in0);
    DeletionsMembers(c.level + 1, c.in1);
  }

  lemma DeletionsMembers(level: nat, fs: seq<File>)
    ensures forall l, n :: (l, n) in Deletions(level, fs) <==> l == level && n in Numbers(fs)
  {
    forall l, n ensures (l, n) in Deletions(level, fs) <==> l == level && n in Numbers(fs) {
      if l == level && n in Numbers(fs) {
        var f :| f in fs && f.number == n;
        assert (level, f.number) in Deletions(level, fs);
      }
    }
  }

  lemma InstallApplied(c: Compaction, v: Version, v': Version, outs: seq<File>, bound: nat)
    requires ValidVersion(v, bound) && c.level + 1 < NUM_LEVELS && EditApplied(v, v', InstallEdit(c, outs))
    ensures Replaced(c, v, v', outs)
  {
    var e := InstallEdit(c, outs);
    InstallEditFacts(c, outs);
    forall f ensures f in v'[c.level] <==> f in v[c.level] && f.number !in Numbers(c.in0) {
      assert (c.level, f.number) in e.deleted <==> f.number in Numbers(c.in0);
    }
    var next := c.level + 1;
    forall f ensures f in v'[next] <==> (f in v[next] && f.number !in Numbers(c.in1)) || f in outs {
      assert (next, f.number) in e.deleted <==> f.number in Numbers(c.in1);
      assert B.EditAdds(e, next, f) <==> f in outs;
    }
    forall l | 0 <= l < NUM_LEVELS && l != c.level && l != c.level + 1 ensures v'[l] == v[l] {
      UntouchedLevel(v, v', e, l, bound);
    }
  }

  lemma InstallEditFresh(c: Compaction, v: Version, outs: seq<File>)
    requires c.level + 1 < NUM_LEVELS
    requires forall i, j | 0 <= i < j < |outs| :: outs[i].number != outs[j].number
    requires forall f, g | f in outs && g in v[c.level + 1] :: f.number != g.number
    ensures EditIsFresh(v, InstallEdit(c, outs))
  {
    InstallEditFacts(c, outs);
  }

  // A flush to the deepest level the table may sink to.
  ghost predicate SinksTo(s: State, s': State, level: nat, size: nat, maxOverlapBytes: nat) {
    && Flush(s, s', level, size)
    && (s.imm.value != [] ==>
      var f := TableOf(s.nextFile, size, s.imm.value);
      Deepest(s.version, f.smallest.user, f.largest.user, maxOverlapBytes, level))
  }

  ghost predicate Sinks(s: State, s': State, size: nat, maxOverlapBytes: nat) {
    exists level :: SinksTo(s, s', level, size, maxOverlapBytes)
  }

  // ---- a compaction's whole course ----

  /** What may happen between the steps of a compaction: a flush or a reserved
      number. */
  ghost predicate Aside(s: State, s': State) {
    Reserve(s, s') || exists level, size :: Flush(s, s', level, size)
  }

  ghost predicate Meanwhile(path: seq<State>) {
    path != [] && forall i | 0 <= i < |path| - 1 :: AsideAt(path, i)
  }

  ghost predicate AsideAt(path: seq<State>, i: nat) {
    i + 1 < |path| && Aside(path[i], path[i + 1])
  }

  // Path leads from wherever it starts to s.
  ghost predicate LeadsTo(path: seq<State>, s: State) {
    Meanwhile(path) && path[|path| - 1] == s
  }

  ghost predicate Worked(s: State, s': State, c: Compaction, tables: seq<File>) {
    exists path :: Meanwhile(path) && Engine.Begin(s, path[0], c) && Install(path[|path| - 1], s', tables)
  }

  // The entries of each table.
  ghost function Parts(tables: seq<File>): seq<seq<Entry>> {
    seq(|tables|, i requires 0 <= i < |tables| => tables[i].entries)
  }

  lemma OnceMore(path: seq<State>, s: State, s': State) returns (path': seq<State>)
    requires LeadsTo(path, s) && Aside(s, s')
    ensures LeadsTo(path', s') && path'[0] == path[0]
  {
    path' := path + [s'];
    forall i | 0 <= i < |path'| - 1 ensures AsideAt(path', i) {
      assert i < |path| - 1 ==> AsideAt(path, i);
    }
  }

  // ---- reading through the layers ----

  lemma MemHit(s: State, u: UserKey, t: Sequence, e: Entry)
    requires MemOrder(s) && IsNewest(Reads.EntrySet(s.mem), u, t, e)
    ensures IsNewest(DbEntries(s), u, t, e)
  {
    forall x | DbHas(s, x) && Visible(x, u, t) ensures x.k.sn <= e.k.sn {
      if x in s.mem {
        assert x in Reads.EntrySet(s.mem);
      }
    }
  }

  lemma ImmHit(s: State, u: UserKey, t: Sequence, e: Entry)
    requires MemOrder(s) && s.imm.Some? && IsNewest(Reads.EntrySet(s.imm.value), u, t, e)
    requires Reads.NoneVisible(s.mem, u, t)
    ensures IsNewest(DbEntries(s), u, t, e)
  {
    forall x | DbHas(s, x) && Visible(x, u, t) ensures x.k.sn <= e.k.sn {
      if x in s.imm.value {
        assert x in Reads.EntrySet(s.imm.value);
      }
    }
  }

  lemma VersionAnswer(s: State, u: UserKey, t: Sequence, r: Reads.Found)
    requires Reads.Answers(VersionEntries(s.version), u, t, r)
    requires Reads.NoneVisible(s.mem, u, t) && (s.imm.Some? ==> Reads.NoneVisible(s.imm.value, u, t))
    ensures Reads.Answers(DbEntries(s), u, t, r)
  {
    forall x | DbHas(s, x) && Visible(x, u, t) ensures x in VersionEntries(s.version) {}
  }

  lemma AnswerIsLookup(s: State, u: UserKey, t: Sequence, r: Reads.Found)
    requires Inv(s) && s.horizon <= t && Reads.Answers(DbEntries(s), u, t, r)
    ensures Lookup(s.hist, u, t) == if r.Hit? && r.e.k.kind.Put? then Some(r.e.v) else None
  {
    assert DistinctSequences(DbEntries(s)) by {
      assert forall e | e in DbEntries(s) :: e in s.hist;
    }
    if r.Hit? {
      LookupOf(DbEntries(s), u, t, r.e);
    } else {
      LookupNone(DbEntries(s), u, t);
    }
  }

  lemma MemBelow(s: State)
    requires History(s)
    ensures forall e | e in s.mem :: e.k.sn <= s.lastSeq
  {
    forall e | e in s.mem ensures e.k.sn <= s.lastSeq {
      assert DbHas(s, e);
    }
  }

  lemma VersionSequences(s: State)
    requires History(s)
    ensures DistinctSequences(VersionEntries(s.version))
  {
    forall e | VersionHas(s.version, e) ensures e in s.hist {
      assert DbHas(s, e);
    }
  }

  // ---- merging the inputs ----

  ghost predicate AllDiffer(es: seq<Entry>, xs: seq<Entry>) {
    forall e, x | e in es && x in xs :: e.k.sn != x.k.sn
  }

  ghost predicate DistinctRun(es: seq<Entry>) {
    SortedEntries(es) && forall i, j | 0 <= i < j < |es| :: es[i].k.sn != es[j].k.sn
  }

  /** Merges two sorted runs. */
  method MergeRuns(xs: seq<Entry>, ys: seq<Entry>) returns (r: seq<Entry>)
    requires DistinctRun(xs) && DistinctRun(ys) && AllDiffer(xs, ys)
    ensures DistinctRun(r) && forall e :: e in r <==> e in xs || e in ys
  {
    r := [];
    var i, j := 0, 0;
    while i < |xs| || j < |ys|
      invariant i <= |xs| && j <= |ys|
      invariant DistinctRun(r) && forall e :: e in r <==> e in xs[..i] || e in ys[..j]
      invariant forall e | e in r :: (i < |xs| ==> Less(e.k, xs[i].k)) && (j < |ys| ==> Less(e.k, ys[j].k))
      invariant forall e | e in r ::
        (forall k | i <= k < |xs| :: e.k.sn != xs[k].k.sn) && (forall k | j <= k < |ys| :: e.k.sn != ys[k].k.sn)
      decreases |xs| - i + |ys| - j
    {
      if j == |ys| || (i < |xs| && Less(xs[i].k, ys[j].k)) {
        RunStep(r, xs[i], xs, i);
        assert xs[i] in xs && forall k | j <= k < |ys| :: ys[k] in ys;
        r := r + [xs[i]];
        i := i + 1;
      } else {
        RunStep(r, ys[j], ys, j);
        assert ys[j] in ys && forall k | i <= k < |xs| :: xs[k] in xs;
        if i < |xs| {
          KeyOrder(xs[i].k, ys[j].k, xs[i].k);
          assert Less(ys[j].k, xs[i].k);
        }
        r := r + [ys[j]];
        j := j + 1;
      }
    }
    assert xs[..i] == xs && ys[..j] == ys;
  }

  lemma RunStep(r: seq<Entry>, e: Entry, xs: seq<Entry>, i: nat)
    requires DistinctRun(r) && DistinctRun(xs) && i < |xs| && xs[i] == e
    requires forall x | x in r :: Less(x.k, e.k) && x.k.sn != e.k.sn
    ensures DistinctRun(r + [e]) && xs[..i + 1] == xs[..i] + [e]
    ensures i + 1 < |xs| ==> Less(e.k, xs[i + 1].k)
    ensures i + 1 < |xs| ==> forall x | x in r :: Less(x.k, xs[i + 1].k)
  {
    if i + 1 < |xs| {
      forall x | x in r ensures Less(x.k, xs[i + 1].k) {
        KeyOrder(x.k, e.k, xs[i + 1].k);
      }
    }
  }

  ghost predicate RunsDiffer(fs: seq<File>) {
    && (forall f | f in fs :: DistinctRun(f.entries))
    && forall i, j | 0 <= i < j < |fs| :: AllDiffer(fs[i].entries, fs[j].entries)
  }

  /** MakeInputIterator, drained. */
  method MergeFiles(fs: seq<File>) returns (r: seq<Entry>)
    requires RunsDiffer(fs)
    ensures DistinctRun(r) && forall e :: e in r <==> exists f :: f in fs && e in f.entries
  {
    r := [];
    for i := 0 to |fs|
      invariant DistinctRun(r) && forall e :: e in r <==> exists f :: f in fs[..i] && e in f.entries
    {
      assert fs[..i + 1] == fs[..i] + [fs[i]];
      assert AllDiffer(r, fs[i].entries) by {
        forall e, x | e in r && x in fs[i].entries ensures e.k.sn != x.k.sn {
          var f :| f in fs[..i] && e in f.entries;
          var j :| 0 <= j < i && fs[j] == f;
          assert AllDiffer(fs[j].entries, fs[i].entries);
        }
      }
      r := MergeRuns(r, fs[i].entries);
    }
    assert fs[..|fs|] == fs;
  }

  lemma NotAbove(v: Version, bound: nat, l1: nat, f: File, l2: nat, g: File, e: Entry)
    requires ValidVersion(v, bound) && l1 < NUM_LEVELS && l2 < NUM_LEVELS && f in v[l1] && g in v[l2] && e in f.entries
      && e in g.entries
    ensures !Above(l1, f, l2, g)
  {
    assert Above(l1, f, l2, g) ==> NewerThan(f.entries, g.entries);
  }

  lemma EntryInOneFile(v: Version, bound: nat, l1: nat, f: File, l2: nat, g: File, e: Entry)
    requires ValidVersion(v, bound) && l1 < NUM_LEVELS && l2 < NUM_LEVELS && f in v[l1] && g in v[l2] && e in f.entries
      && e in g.entries
    ensures f == g
  {
    NotAbove(v, bound, l1, f, l2, g, e);
    NotAbove(v, bound, l2, g, l1, f, e);
    if l1 > 0 {
      SortedDisjoint(v[l1]);
      FileBounds(f, e);
      FileBounds(g, e);
      KeyOrder(e.k, f.largest, g.smallest);
      KeyOrder(e.k, g.largest, f.smallest);
    }
  }

  lemma InputPairDiffers(c: Compaction, v: Version, bound: nat, f: File, g: File)
    requires ValidVersion(v, bound) && DistinctSequences(VersionEntries(v)) && ClosedInputs(c, v)
    requires c.Input(f) && c.Input(g) && f != g
    ensures AllDiffer(f.entries, g.entries)
  {
    var lf := if f in c.in0 then c.level else c.level + 1;
    var lg := if g in c.in0 then c.level else c.level + 1;
    assert f in v[lf] && g in v[lg];
    forall e, x | e in f.entries && x in g.entries ensures e.k.sn != x.k.sn {
      assert VersionHas(v, e) && VersionHas(v, x);
      assert e in VersionEntries(v) && x in VersionEntries(v);
      if e == x {
        EntryInOneFile(v, bound, lf, f, lg, g, e);
      }
    }
  }

  lemma FileIsRun(c: Compaction, v: Version, f: File)
    requires AllValid(v) && DistinctSequences(VersionEntries(v)) && ClosedInputs(c, v) && c.Input(f)
    ensures DistinctRun(f.entries)
  {
    InputsAreFiles(c, v, f);
    var lf := if f in c.in0 then c.level else c.level + 1;
    assert f in v[lf];
    forall e | e in f.entries ensures e in VersionEntries(v) {
      assert VersionHas(v, e);
    }
    forall i, j | 0 <= i < j < |f.entries| ensures f.entries[i].k.sn != f.entries[j].k.sn {
      assert f.entries[i] in f.entries && f.entries[j] in f.entries;
      assert Less(f.entries[i].k, f.entries[j].k);
    }
  }

  lemma InLevelOrNext(c: Compaction, v: Version, bound: nat, i: nat, j: nat)
    requires ValidVersion(v, bound) && ClosedInputs(c, v)
    requires i < |c.in0| && j < |c.in1|
    ensures c.in0[i] != c.in1[j]
  {
    assert c.in0[i] in c.in0 && c.in1[j] in c.in1;
    assert c.in0[i] in v[c.level] && c.in1[j] in v[c.level + 1];
  }

  lemma InputsDiffer(c: Compaction, v: Version, bound: nat)
    requires ValidVersion(v, bound) && DistinctSequences(VersionEntries(v)) && ClosedInputs(c, v)
    ensures RunsDiffer(c.in0 + c.in1)
  {
    var fs := c.in0 + c.in1;
    forall f | f in fs ensures DistinctRun(f.entries) {
      FileIsRun(c, v, f);
    }
    forall i, j | 0 <= i < j < |fs| ensures AllDiffer(fs[i].entries, fs[j].entries) {
      if i < |c.in0| <= j {
        InLevelOrNext(c, v, bound, i, j - |c.in0|);
      }
      assert fs[i] != fs[j] && fs[i] in fs && fs[j] in fs;
      InputPairDiffers(c, v, bound, fs[i], fs[j]);
    }
  }

  method MakeInputIterator(c: Compaction, ghost v: Version, ghost bound: nat) returns (input: seq<Entry>)
    requires ValidVersion(v, bound) && DistinctSequences(VersionEntries(v)) && ClosedInputs(c, v)
    ensures MergedInput(c, input)
  {
    InputsDiffer(c, v, bound);
    input := MergeFiles(c.in0 + c.in1);
    forall e ensures e in input <==> InputHas(c, e) {
      assert forall f :: f in c.in0 + c.in1 <==> c.Input(f);
    }
  }

  class DBImpl {
    const maxFileSize: nat
    const tableSize: seq<Entry> -> nat
    const versions: VersionSet

    var mem: seq<Entry>
    var imm: Option<seq<Entry>>
    var lastSequence: Sequence
    var snapshots: seq<Sequence>
    var nextFileNumber: nat
    var pendingOutputs: seq<nat>

    ghost var running: Option<Compaction>
    ghost var hist: iset<Entry>
    ghost var horizon: nat

    /** The engine state these fields stand for. */
    ghost function Abs(): State
      reads this, versions
    {
      State(mem, imm, versions.current, lastSequence, snapshots, nextFileNumber, running, pendingOutputs, hist, horizon)
    }

    ghost predicate Valid()
      reads this, versions
    {
      Inv(Abs()) && versions.Valid()
    }

    constructor (maxFileSize: nat, tableSize: seq<Entry> -> nat)
      ensures Valid() && Init(Abs()) && fresh(versions)
    {
      this.maxFileSize, this.tableSize := maxFileSize, tableSize;
      versions := new VersionSet(maxFileSize);
      mem, imm, lastSequence, snapshots, nextFileNumber, pendingOutputs := [], None, 0, [], 2, [];
      running, hist, horizon := None, iset{}, 0;
      new;
      InitInv(Abs());
    }

    /** The apply phase of DBImpl::Write. */
    method Write(ops: seq<Op>)
      requires Valid() && lastSequence + |ops| < MAX_SEQUENCE
      modifies this
      ensures Valid() && Engine.Write(old(Abs()), Abs(), ops)
      ensures forall u :: Lookup(hist, u, lastSequence) == After(ops, u, old(Lookup(hist, u, lastSequence)))
      ensures forall u, t: nat | t <= old(lastSequence) :: Lookup(hist, u, t) == old(Lookup(hist, u, t))
    {
      ghost var s := Abs();
      MemBelow(s);
      mem := InsertInto(mem, lastSequence + 1, ops);
      hist := hist + BatchEntries(lastSequence + 1, ops);
      lastSequence := lastSequence + |ops|;
      WriteKeeps(s, Abs(), ops);
      forall u ensures Lookup(hist, u, lastSequence) == After(ops, u, Lookup(s.hist, u, s.lastSeq)) {
        WriteMeans(s, Abs(), ops, u);
      }
      forall u, t: nat | t <= s.lastSeq ensures Lookup(hist, u, t) == Lookup(s.hist, u, t) {
        WriteKeepsOld(s, Abs(), ops, u, t);
      }
    }

    /** MakeRoomForWrite's switch to a new memtable and log. */
    method SwitchMemTable()
      requires Valid() && imm.None?
      modifies this
      ensures Valid() && Switch(old(Abs()), Abs())
    {
      ghost var s := Abs();
      nextFileNumber := nextFileNumber + 1;
      imm := Some(mem);
      mem := [];
      SwitchKeeps(s, Abs());
    }

    method GetSnapshot() returns (t: Sequence)
      requires Valid()
      modifies this
      ensures Valid() && Snapshot(old(Abs()), Abs()) && t == lastSequence
    {
      ghost var s := Abs();
      t := lastSequence;
      snapshots := snapshots + [t];
      SnapshotKeeps(s, Abs());
    }

    method ReleaseSnapshot(i: nat)
      requires Valid() && i < |snapshots|
      modifies this
      ensures Valid() && Release(old(Abs()), Abs(), i)
    {
      ghost var s := Abs();
      snapshots := snapshots[..i] + snapshots[i + 1..];
      ReleaseKeeps(s, Abs(), i);
    }

    /** DBImpl::Get: memtable, immutable memtable, then the version. The answer
        is the latest write of u in the history up to the read's sequence. */
    method Get(u: UserKey, snapshot: Option<Sequence>) returns (value: Option<Bytes>)
      requires Valid() && (snapshot.Some? ==> snapshot.value in snapshots)
      ensures value == Lookup(hist, u, if snapshot.Some? then snapshot.value else lastSequence)
    {
      var t := if snapshot.Some? then snapshot.value else lastSequence;
      ghost var s := Abs();
      var r := MemGet(mem, u, t);
      if r.Hit? {
        MemHit(s, u, t, r.e);
      } else {
        assert forall e | e in mem :: e in Reads.EntrySet(mem);
        if imm.Some? {
          r := MemGet(imm.value, u, t);
          assert forall e | e in imm.value :: e in Reads.EntrySet(imm.value);
        }
        if r.Hit? {
          ImmHit(s, u, t, r.e);
        } else {
          r := Reads.Get(versions.current, u, t, nextFileNumber);
          VersionAnswer(s, u, t, r);
        }
      }
      AnswerIsLookup(s, u, t, r);
      value := if r.Hit? && r.e.k.kind.Put? then Some(r.e.v) else None;
    }

    /** CompactMemTable: writes the immutable memtable to a table and installs
        it, at the level PickLevelForMemTableOutput allows. */
    method CompactMemTable()
      requires Valid() && imm.Some? && (running.Some? ==> running.value.picked)
      modifies this`imm, this`nextFileNumber, versions`current
      ensures Valid() && Sinks(old(Abs()), Abs(), tableSize(old(imm.value)), 10 * maxFileSize)
    {
      ghost var s := Abs();
      var es, number := imm.value, nextFileNumber;
      var level, size := 0, tableSize(imm.value);
      if es != [] {
        var l, v' := FlushedVersion(versions.current, es, size, 10 * maxFileSize, number);
        level := l;
        versions.current := v';
      }
      nextFileNumber := number + 1;
      imm := None;
      assert SinksTo(s, Abs(), level, size, 10 * maxFileSize);
      FlushKeeps(s, Abs(), level, size);
    }

    // OpenCompactionOutputFile
    method ReserveOutput()
      requires Valid() && running.Some? && Ascending(pendingOutputs)
      modifies this`nextFileNumber, this`pendingOutputs
      ensures Valid() && Reserve(old(Abs()), Abs()) && Ascending(pendingOutputs)
        && |pendingOutputs| == old(|pendingOutputs|) + 1
    {
      ghost var s := Abs();
      ReservedBelow(s);
      pendingOutputs := pendingOutputs + [nextFileNumber];
      nextFileNumber := nextFileNumber + 1;
      ReserveKeeps(s, Abs());
    }

    ghost predicate Ascending(numbers: seq<nat>) {
      forall i, j | 0 <= i < j < |numbers| :: numbers[i] < numbers[j]
    }

    /** InstallCompactionResults. */
    method InstallCompactionResults(c: Compaction, outs: seq<seq<Entry>>, ghost input: seq<Entry>)
      returns (ghost tables: seq<File>)
      requires Valid() && running == Some(c) && MergedInput(c, input) && Concat(outs) == KeptOf(c, input)
      requires |outs| == |pendingOutputs| && Ascending(pendingOutputs) && forall i | 0 <= i < |outs| :: outs[i] != []
      modifies this`running, this`pendingOutputs, this`horizon, versions`current
      ensures Valid() && Install(old(Abs()), Abs(), tables) && Parts(tables) == outs
      ensures running.None? && pendingOutputs == [] && horizon == if old(horizon) < c.snap then c.snap else old(horizon)
    {
      ghost var s := Abs();
      var made, v' := InstalledVersion(c, versions.current, outs, pendingOutputs, tableSize, input, nextFileNumber);
      tables := made;
      versions.current := v';
      running, pendingOutputs := None, [];
      horizon := if horizon < c.snap then c.snap else horizon;
      assert Install(s, Abs(), tables);
      InstallKeeps(s, Abs(), tables);
    }

    // Step i of the path, and what its end is like: n output numbers are reserved.
    ghost predicate PathAt(c: Compaction, path: seq<State>, n: nat, i: int)
      requires path != []
      reads this, versions
    {
      && Valid() && running == Some(c) && |pendingOutputs| == n && Ascending(pendingOutputs)
      && (imm.Some? ==> c.picked)
      && path[|path| - 1] == Abs() && (0 <= i < |path| - 1 ==> AsideAt(path, i))
    }

    ghost predicate OnPath(c: Compaction, path: seq<State>, n: nat)
      reads this, versions
    {
      path != [] && forall i :: PathAt(c, path, n, i)
    }

    ghost predicate InLoop(c: Compaction, work: CompactionState, seen: seq<Entry>, path: seq<State>)
      reads this, versions, work
    {
      work.c == c && work.Done(seen) && work.Cutting(seen) && OnPath(c, path, work.NumOutputs())
    }

    lemma PathMeans(c: Compaction, path: seq<State>, n: nat)
      requires OnPath(c, path, n)
      ensures LeadsTo(path, Abs()) && PathAt(c, path, n, |path|)
    {
      assert PathAt(c, path, n, |path|);
      forall i | 0 <= i < |path| - 1 ensures AsideAt(path, i) {
        assert PathAt(c, path, n, i);
      }
    }

    lemma PathHolds(c: Compaction, path: seq<State>, n: nat)
      requires LeadsTo(path, Abs()) && PathAt(c, path, n, |path|)
      ensures OnPath(c, path, n)
    {
      forall i ensures PathAt(c, path, n, i) {
        assert 0 <= i < |path| - 1 ==> AsideAt(path, i);
      }
    }

    // Prioritises immutable memtable work over the compaction.
    method FlushFirst(c: Compaction, ghost path: seq<State>, ghost n: nat) returns (ghost path': seq<State>)
      requires OnPath(c, path, n)
      modifies this`imm, this`nextFileNumber, versions`current
      ensures OnPath(c, path', n) && imm.None? && path'[0] == path[0]
    {
      path' := path;
      PathMeans(c, path, n);
      if imm.Some? {
        ghost var s := Abs();
        CompactMemTable();
        path' := OnceMore(path, s, Abs());
        PathHolds(c, path', n);
      }
    }

    // ReserveOutput, when the entry just processed has begun an output.
    method ReserveIf(started: bool, c: Compaction, ghost path: seq<State>, ghost n: nat)
      returns (ghost path': seq<State>)
      requires OnPath(c, path, n)
      modifies this`nextFileNumber, this`pendingOutputs
      ensures OnPath(c, path', n + if started then 1 else 0) && path'[0] == path[0]
    {
      path' := path;
      if started {
        ghost var s := Abs();
        PathMeans(c, path, n);
        ReserveOutput();
        path' := OnceMore(path, s, Abs());
        PathHolds(c, path', n + 1);
      }
    }

    /** One turn of the loop of DoCompactionWork. */
    method ProcessOne(c: Compaction, e: Entry, work: CompactionState, ghost input: seq<Entry>, ghost i: nat,
      ghost path: seq<State>)
      returns (ghost path': seq<State>)
      requires MergedInput(c, input) && i < |input| && input[i] == e && InLoop(c, work, input[..i], path)
      requires AllValid(c.input) && SortedLevels(c.input) && c.snap < MAX_SEQUENCE
      modifies this`imm, this`nextFileNumber, this`pendingOutputs, versions`current, work
      ensures InLoop(c, work, input[..i + 1], path') && imm.None? && path'[0] == path[0]
    {
      path' := FlushFirst(c, path, work.NumOutputs());
      path' := ProcessNext(c, e, work, input, i, path');
    }

    // The entry, and the output it may begin.
    method ProcessNext(c: Compaction, e: Entry, work: CompactionState, ghost input: seq<Entry>, ghost i: nat,
      ghost path: seq<State>)
      returns (ghost path': seq<State>)
      requires MergedInput(c, input) && i < |input| && input[i] == e && InLoop(c, work, input[..i], path)
      requires AllValid(c.input) && SortedLevels(c.input) && c.snap < MAX_SEQUENCE && imm.None?
      modifies this`nextFileNumber, this`pendingOutputs, work
      ensures InLoop(c, work, input[..i + 1], path') && path'[0] == path[0]
    {
      ghost var n := work.NumOutputs();
      var started := work.ProcessKey(e, input, i);
      path' := ReserveIf(started, c, path, n);
    }

    /** The loop of DoCompactionWork. */
    method ProcessInput(c: Compaction, input: seq<Entry>, work: CompactionState, ghost path: seq<State>)
      returns (ghost path': seq<State>)
      requires MergedInput(c, input) && InLoop(c, work, [], path)
      requires AllValid(c.input) && SortedLevels(c.input) && c.snap < MAX_SEQUENCE
      modifies this`imm, this`nextFileNumber, this`pendingOutputs, versions`current, work
      ensures InLoop(c, work, input, path') && (imm == old(imm) || imm.None?) && path'[0] == path[0]
    {
      path' := path;
      assert input[..0] == [];
      for i := 0 to |input|
        invariant InLoop(c, work, input[..i], path') && (imm == old(imm) || imm.None?) && path'[0] == path[0]
      {
        path' := ProcessOne(c, input[i], work, input, i, path');
      }
      assert input[..|input|] == input;
    }

    /** DoCompactionWork: merges the inputs, drops what no live snapshot can
        see, flushes the immutable memtable when one appears, and installs the
        outputs: in the engine's terms, Begin, then flushes and reserved numbers,
        then Install. Every read at the oldest snapshot or later is unchanged. */
    method DoCompactionWork(c: Compaction, grandparents: seq<File>)
      returns (ghost input: seq<Entry>, ghost tables: seq<File>)
      requires Valid() && running.None? && c.input == versions.current && c.snap == OldestSnapshot(Abs())
      requires ClosedInputs(c, versions.current) && NoSplitBoundary(c, versions.current) && (c.picked ==> GapFree(c))
      requires imm.Some? ==> c.picked
      modifies this`imm, this`nextFileNumber, this`pendingOutputs, this`running, this`horizon, versions`current
      ensures Valid() && running.None? && pendingOutputs == []
      ensures imm == old(imm) || imm.None?
      ensures Worked(old(Abs()), Abs(), c, tables)
      ensures MergedInput(c, input) && Concat(Parts(tables)) == KeptOf(c, input)
      ensures CutRight(Limits(grandparents, maxFileSize, tableSize), input, Parts(tables))
      ensures forall u, t: nat | c.snap <= t :: Lookup(DbEntries(Abs()), u, t) == Lookup(old(DbEntries(Abs())), u, t)
    {
      ghost var s := Abs();
      var merged, work := StartWork(c, grandparents);
      input := merged;
      tables := FinishWork(c, merged, work, s, [Abs()]);
      assert Inv(s) && Inv(Abs());
      SameReads(s, Abs(), c.snap);
    }

    method FinishWork(c: Compaction, input: seq<Entry>, work: CompactionState, ghost s: State, ghost path: seq<State>)
      returns (ghost tables: seq<File>)
      requires MergedInput(c, input) && InLoop(c, work, [], path) && Engine.Begin(s, path[0], c)
      requires AllValid(c.input) && SortedLevels(c.input) && c.snap < MAX_SEQUENCE
      modifies this`imm, this`nextFileNumber, this`pendingOutputs, this`running, this`horizon, versions`current, work
      ensures Valid() && running.None? && pendingOutputs == [] && (imm == old(imm) || imm.None?)
      ensures horizon == (if old(horizon) < c.snap then c.snap else old(horizon)) && Worked(s, Abs(), c, tables)
      ensures Concat(Parts(tables)) == KeptOf(c, input) && CutRight(work.Bounds(), input, Parts(tables))
    {
      ghost var path' := ProcessInput(c, input, work, path);
      PathMeans(c, path', work.NumOutputs());
      work.FinishLast(input);
      tables := InstallCompactionResults(c, work.outputs, input);
    }

    method StartWork(c: Compaction, grandparents: seq<File>) returns (input: seq<Entry>, work: CompactionState)
      requires Valid() && running.None? && c.input == versions.current && c.snap == OldestSnapshot(Abs())
      requires ClosedInputs(c, versions.current) && NoSplitBoundary(c, versions.current) && (c.picked ==> GapFree(c))
      requires imm.Some? ==> c.picked
      modifies this`running, this`pendingOutputs
      ensures MergedInput(c, input) && InLoop(c, work, [], [Abs()]) && fresh(work)
      ensures work.Bounds() == Limits(grandparents, maxFileSize, tableSize)
      ensures AllValid(c.input) && SortedLevels(c.input) && c.snap < MAX_SEQUENCE && horizon <= c.snap
      ensures Engine.Begin(old(Abs()), Abs(), c)
    {
      ghost var s := Abs();
      VersionSequences(s);
      CompactionIsServable(s);
      input := MakeInputIterator(c, versions.current, nextFileNumber);
      work := new CompactionState(c, grandparents, maxFileSize, tableSize);
      running, pendingOutputs := Some(c), [];
      BeginKeeps(s, Abs(), c);
      PathHolds(c, [Abs()], 0);
    }

    /** The trivial move of BackgroundCompaction. */
    method MoveFile(c: Compaction)
      requires Valid() && running.None? && ClosedInputs(c, versions.current) && c.in1 == [] && |c.in0| == 1
      modifies this, versions
      ensures Valid() && Engine.Move(old(Abs()), Abs(), c)
    {
      ghost var s := Abs();
      var v' := MovedVersion(c, versions.current, nextFileNumber);
      versions.current := v';
      assert Engine.Move(s, Abs(), c);
      MoveKeeps(s, Abs(), c);
    }
  }

  /** The tables of a finished compaction and the version they lead to. */
  method InstalledVersion(c: Compaction, v: Version, outs: seq<seq<Entry>>, reserved: seq<nat>,
    tableSize: seq<Entry> -> nat, ghost input: seq<Entry>, ghost bound: nat)
    returns (tables: seq<File>, v': Version)
    requires ValidVersion(v, bound) && ReservedNumbers(reserved, v, bound) && c.level + 1 < NUM_LEVELS
    requires MergedInput(c, input) && Concat(outs) == KeptOf(c, input)
    requires |outs| == |reserved| && (forall i | 0 <= i < |outs| :: outs[i] != [])
    requires forall i, j | 0 <= i < j < |reserved| :: reserved[i] < reserved[j]
    ensures Outputs(c, reserved, tables) && Replaced(c, v, v', tables) && Parts(tables) == outs
  {
    tables := TablesOf(outs, reserved, tableSize);
    TablesAreOutputs(c, input, outs, reserved, tableSize);
    OutputsAreFresh(c, v, reserved, tables, bound);
    LevelIsSorted(v, bound);
    v' := ApplyEdit(v, InstallEdit(c, tables));
    InstallApplied(c, v, v', tables, bound);
  }

  /** The version the immutable memtable's table leads to. */
  method FlushedVersion(v: Version, es: seq<Entry>, size: nat, maxOverlapBytes: nat, number: nat)
    returns (level: nat, v': Version)
    requires ValidVersion(v, number) && es != []
    ensures var f := TableOf(number, size, es);
      && FlushLevel(v, f.smallest.user, f.largest.user, level)
      && Deepest(v, f.smallest.user, f.largest.user, maxOverlapBytes, level)
      && Edited(v[level], iset{}, iset{f}, v'[level])
      && forall l | 0 <= l < NUM_LEVELS && l != level :: v'[l] == v[l]
  {
    var f := File(number, size, es[0].k, es[|es| - 1].k, es);
    level := PickLevelForMemTableOutput(v, f.smallest.user, f.largest.user, maxOverlapBytes, number);
    DeepestIsAllowed(v, f.smallest.user, f.largest.user, maxOverlapBytes, level);
    FlushEditFresh(v, level, f);
    LevelIsSorted(v, number);
    v' := ApplyEdit(v, FlushEdit(level, f));
    FlushApplied(v, v', level, f, number);
  }

  method MovedVersion(c: Compaction, v: Version, ghost bound: nat) returns (v': Version)
    requires ValidVersion(v, bound) && ClosedInputs(c, v) && c.in1 == [] && |c.in0| == 1
    ensures Replaced(c, v, v', c.in0)
  {
    MoveIsFresh(c, v, bound);
    LevelIsSorted(v, bound);
    v' := ApplyEdit(v, InstallEdit(c, c.in0));
    InstallApplied(c, v, v', c.in0, bound);
  }

  lemma ReservedBelow(s: State)
    requires Inv(s)
    ensures forall i | 0 <= i < |s.reserved| :: s.reserved[i] < s.nextFile
  {
    forall i | 0 <= i < |s.reserved| ensures s.reserved[i] < s.nextFile {
      assert s.reserved[i] in s.reserved;
    }
  }

  lemma CompactionIsServable(s: State)
    requires Inv(s)
    ensures OldestSnapshot(s) < MAX_SEQUENCE && s.horizon <= OldestSnapshot(s)
    ensures AllValid(s.version) && SortedLevels(s.version)
  {}

  lemma SameReads(s: State, s': State, from: nat)
    requires Inv(s) && Inv(s') && s'.hist == s.hist && s.horizon <= from && s'.horizon <= from
    ensures forall u, t: nat | from <= t :: Lookup(DbEntries(s'), u, t) == Lookup(DbEntries(s), u, t)
  {}

  lemma OutputsAreFresh(c: Compaction, v: Version, reserved: seq<nat>, tables: seq<File>, bound: nat)
    requires c.level + 1 < NUM_LEVELS && ReservedNumbers(reserved, v, bound) && Outputs(c, reserved, tables)
    ensures EditIsFresh(v, InstallEdit(c, tables))
  {
    InstallEditFresh(c, v, tables);
  }

  lemma MoveIsFresh(c: Compaction, v: Version, bound: nat)
    requires DistinctNumbers(v, bound) && ClosedInputs(c, v) && c.in1 == [] && |c.in0| == 1
    ensures EditIsFresh(v, InstallEdit(c, c.in0))
  {
    forall f, g | f in c.in0 && g in v[c.level + 1] ensures f.number != g.number {
      assert f in v[c.level];
    }
    InstallEditFresh(c, v, c.in0);
  }

  lemma FlushEditFresh(v: Version, level: nat, f: File)
    requires level < NUM_LEVELS && DistinctNumbers(v, f.number)
    ensures EditIsFresh(v, FlushEdit(level, f))
  {}
}
