/** What a client's iterator is made of (DBImpl::NewIterator): the merge of the
    memtables, the level-0 files and the concatenated deeper levels, and on top
    of it the visible user keys. */
module Iterators {
  import opened Options
  import opened Keys
  import opened Versions
  import opened Engine
  import opened CompactionProofs
  import opened EngineRuns
  import opened Cursors
  import opened Merger
  import opened DbImpl
  import opened Sequences
  import TwoLevel
  import DbIter

  // ---- sorted runs that share no key ----

  ghost predicate ApartAt(runs: seq<seq<Entry>>, i: int, j: int) {
    0 <= i < j < |runs| ==> KeysApart(runs[i], runs[j])
  }

  /** Every run is sorted, no key is in two of them, and together they hold P. */
  ghost predicate RunsOf(runs: seq<seq<Entry>>, P: iset<Entry>) {
    && (forall i | 0 <= i < |runs| :: SortedEntries(runs[i]))
    && (forall i, j :: ApartAt(runs, i, j))
    && forall e :: e in P <==> exists i :: 0 <= i < |runs| && e in runs[i]
  }

  ghost predicate Avoids(P: iset<Entry>, run: seq<Entry>) {
    forall e, x | e in P && x in run :: e.k != x.k
  }

  lemma RunAdded(runs: seq<seq<Entry>>, P: iset<Entry>, run: seq<Entry>)
    requires RunsOf(runs, P) && SortedEntries(run) && Avoids(P, run)
    ensures RunsOf(runs + [run], P + DbIter.Contents(run))
  {
    var more := runs + [run];
    forall i, j ensures ApartAt(more, i, j) {
      assert ApartAt(runs, i, j);
      if 0 <= i < j == |runs| {
        assert forall e | e in runs[i] :: e in P;
      }
    }
    forall e ensures e in P + DbIter.Contents(run) <==> exists i :: 0 <= i < |more| && e in more[i] {
      if e in P {
        var i :| 0 <= i < |runs| && e in runs[i];
        assert e in more[i];
      }
      assert more[|runs|] == run;
    }
  }

  lemma {:induction false} Interleaved(a: seq<Entry>, b: seq<Entry>) returns (es: seq<Entry>)
    requires SortedEntries(a) && SortedEntries(b) && KeysApart(a, b)
    ensures SortedEntries(es) && forall e :: e in es <==> e in a || e in b
    decreases |a| + |b|
  {
    if a == [] {
      es := b;
    } else if b == [] {
      es := a;
    } else {
      var m, n := |a| - 1, |b| - 1;
      KeyOrder(a[m].k, b[n].k, a[m].k);
      if Less(a[m].k, b[n].k) {
        es := Interleaved(a, b[..n]);
        es := LastAdded(es, a, b);
      } else {
        assert a[m] in a && b[n] in b;
        es := Interleaved(a[..m], b);
        es := LastAdded(es, b, a);
      }
    }
  }

  // The greatest key of all comes last.
  lemma LastAdded(rest: seq<Entry>, a: seq<Entry>, b: seq<Entry>) returns (es: seq<Entry>)
    requires a != [] && b != [] && SortedEntries(a) && SortedEntries(b) && Less(a[|a| - 1].k, b[|b| - 1].k)
    requires SortedEntries(rest) && forall e :: e in rest <==> e in a || e in b[..|b| - 1]
    ensures SortedEntries(es) && forall e :: e in es <==> e in a || e in b
  {
    var last := b[|b| - 1];
    es := rest + [last];
    forall i | 0 <= i < |rest| ensures Less(rest[i].k, last.k) {
      assert rest[i] in rest;
      if rest[i] in a {
        var p :| 0 <= p < |a| && a[p] == rest[i];
        KeyOrder(rest[i].k, a[|a| - 1].k, last.k);
      }
    }
    assert b == b[..|b| - 1] + [last];
  }

  /** Such runs have a merge. */
  lemma {:induction false} Merged(runs: seq<seq<Entry>>, P: iset<Entry>, n: nat) returns (es: seq<Entry>)
    requires RunsOf(runs, P) && n <= |runs|
    ensures SortedEntries(es) && forall e :: e in es <==> exists i :: 0 <= i < n && e in runs[i]
  {
    if n == 0 {
      es := [];
    } else {
      es := Merged(runs, P, n - 1);
      forall e, x | e in es && x in runs[n - 1] ensures e.k != x.k {
        var i :| 0 <= i < n - 1 && e in runs[i];
        assert ApartAt(runs, i, n - 1);
      }
      es := Interleaved(es, runs[n - 1]);
    }
  }

  // ---- the files of a version ----

  function FileRuns(fs: seq<File>): seq<seq<Entry>> {
    if fs == [] then [] else FileRuns(fs[..|fs| - 1]) + [fs[|fs| - 1].entries]
  }

  lemma {:induction false} FileRunsAre(fs: seq<File>)
    ensures |FileRuns(fs)| == |fs| && forall i | 0 <= i < |fs| :: FileRuns(fs)[i] == fs[i].entries
  {
    if fs != [] {
      FileRunsAre(fs[..|fs| - 1]);
    }
  }

  // NewConcatenatingIterator ranges over this.
  function Concatenated(fs: seq<File>): seq<Entry> {
    if fs == [] then [] else Concatenated(fs[..|fs| - 1]) + fs[|fs| - 1].entries
  }

  // LevelFileNumIterator: each file's largest key, with a handle by which to open the file.
  function LevelIndex(fs: seq<File>, handle: File -> Bytes): seq<Entry> {
    seq(|fs|, i requires 0 <= i < |fs| => Entry(fs[i].largest, handle(fs[i])))
  }

  lemma BeforeLater(fs: seq<File>, i: nat, j: nat, e: Entry)
    requires SortedFiles(fs) && i < j < |fs| && ValidFile(fs[j]) && e in fs[j].entries
    ensures Less(fs[i].largest, e.k) && Less(fs[i].largest, fs[j].largest)
  {
    FileBounds(fs[j], e);
    KeyOrder(fs[i].largest, fs[j].smallest, e.k);
    KeyOrder(fs[i].largest, e.k, fs[j].largest);
  }

  lemma IndexSorted(fs: seq<File>, handle: File -> Bytes)
    requires SortedFiles(fs) && forall f | f in fs :: ValidFile(f)
    ensures SortedEntries(LevelIndex(fs, handle))
  {
    forall i, j | 0 <= i < j < |fs| ensures Less(fs[i].largest, fs[j].largest) {
      assert fs[j] in fs;
      BeforeLater(fs, i, j, fs[j].entries[0]);
    }
  }

  /** A two-level iterator over a sorted level's files goes through their
      concatenation, and its index separates them as its Seek asks. */
  lemma LevelIsTwoLevel(fs: seq<File>, handle: File -> Bytes)
    requires SortedFiles(fs) && forall f | f in fs :: ValidFile(f)
    ensures Concatenated(fs) == Concat(FileRuns(fs))
    ensures |FileRuns(fs)| == |fs| && TwoLevel.Separated(LevelIndex(fs, handle), FileRuns(fs))
  {
    ConcatenatedIsConcat(fs);
    FileRunsAre(fs);
    IndexSorted(fs, handle);
    var index := LevelIndex(fs, handle);
    forall i, e | 0 <= i < |fs| && e in FileRuns(fs)[i] ensures AtMost(e.k, index[i].k) {
      FileBounds(fs[i], e);
    }
    forall i, j, e | 0 <= i < j < |fs| && e in FileRuns(fs)[j] ensures Less(index[i].k, e.k) {
      BeforeLater(fs, i, j, e);
    }
  }

  lemma {:induction false} ConcatenatedIsConcat(fs: seq<File>)
    ensures Concatenated(fs) == Concat(FileRuns(fs))
  {
    if fs != [] {
      var n := |fs| - 1;
      ConcatenatedIsConcat(fs[..n]);
      assert FileRuns(fs)[..|FileRuns(fs)| - 1] == FileRuns(fs[..n]);
    }
  }

  lemma {:induction false} ConcatenatedHas(fs: seq<File>)
    ensures forall e :: e in Concatenated(fs) <==> exists f :: f in fs && e in f.entries
  {
    if fs != [] {
      var n := |fs| - 1;
      ConcatenatedHas(fs[..n]);
      assert fs == fs[..n] + [fs[n]];
    }
  }

  lemma {:induction false} ConcatenatedSorted(fs: seq<File>)
    requires SortedFiles(fs) && forall f | f in fs :: ValidFile(f)
    ensures SortedEntries(Concatenated(fs))
  {
    if fs != [] {
      var n := |fs| - 1;
      ConcatenatedSorted(fs[..n]);
      ConcatenatedHas(fs[..n]);
      var es := Concatenated(fs[..n]);
      forall i, x | 0 <= i < |es| && x in fs[n].entries ensures Less(es[i].k, x.k) {
        assert es[i] in es;
        var f :| f in fs[..n] && es[i] in f.entries;
        BeforeNext(fs, n, f, es[i], x);
      }
      assert fs[n] in fs && forall x | 0 <= x < |fs[n].entries| :: fs[n].entries[x] in fs[n].entries;
      assert Concatenated(fs) == es + fs[n].entries;
    }
  }

  lemma BeforeNext(fs: seq<File>, n: nat, f: File, e: Entry, x: Entry)
    requires SortedFiles(fs) && (forall f | f in fs :: ValidFile(f)) && n < |fs| && f in fs[..n]
    requires e in f.entries && x in fs[n].entries
    ensures Less(e.k, x.k)
  {
    FileBounds(f, e);
    FileBounds(fs[n], x);
    KeyOrder(e.k, f.largest, fs[n].smallest);
    KeyOrder(e.k, fs[n].smallest, x.k);
  }

  /** Files a reader consults one after the other share no key. */
  lemma FilesApart(v: Version, bound: nat, l1: nat, f: File, l2: nat, g: File, e: Entry, x: Entry)
    requires ValidVersion(v, bound) && l1 < NUM_LEVELS && l2 < NUM_LEVELS && f in v[l1] && g in v[l2]
    requires l1 < l2 || (l1 == 0 == l2 && f != g)
    requires e in f.entries && x in g.entries
    ensures e.k != x.k
  {
    if f.number > g.number || l1 < l2 {
      assert Above(l1, f, l2, g);
    } else {
      assert f.number != g.number;
      assert Above(l2, g, l1, f);
    }
  }

  // e is in a level below l or in one of the first n files of level l.
  ghost predicate TakenHas(v: Version, l: nat, n: nat, e: Entry)
    requires l <= NUM_LEVELS && (l < NUM_LEVELS ==> n <= |v[l]|)
  {
    || (exists m, f :: 0 <= m < l && f in v[m] && e in f.entries)
    || (l < NUM_LEVELS && exists i :: 0 <= i < n && e in v[l][i].entries)
  }

  ghost function Taken(v: Version, l: nat, n: nat): iset<Entry>
    requires l <= NUM_LEVELS && (l < NUM_LEVELS ==> n <= |v[l]|)
  {
    iset e | TakenHas(v, l, n, e)
  }

  ghost predicate EntriesApart(P: iset<Entry>, Q: iset<Entry>) {
    forall e, x | e in P && x in Q :: e.k != x.k
  }

  lemma TakenEnds(v: Version, P: iset<Entry>)
    ensures P + Taken(v, 0, 0) == P && P + Taken(v, |v|, 0) == P + VersionEntries(v)
    ensures P + Taken(v, 1, 0) == P + Taken(v, 0, |v[0]|)
  {
    forall e ensures TakenHas(v, |v|, 0, e) <==> VersionHas(v, e) {
      if m, f :| 0 <= m < NUM_LEVELS && f in v[m] && e in f.entries {
        assert TakenHas(v, |v|, 0, e);
      }
    }
    forall e ensures TakenHas(v, 1, 0, e) <==> TakenHas(v, 0, |v[0]|, e) {
      if f :| f in v[0] && e in f.entries {
        var i :| 0 <= i < |v[0]| && v[0][i] == f;
        assert TakenHas(v, 0, |v[0]|, e);
      }
      if i :| 0 <= i < |v[0]| && e in v[0][i].entries {
        var m, f := 0, v[0][i];
        assert 0 <= m < 1 && f in v[m] && e in f.entries;
      }
    }
  }

  lemma FileTaken(v: Version, bound: nat, n: nat, P: iset<Entry>)
    requires ValidVersion(v, bound) && n < |v[0]| && EntriesApart(P, VersionEntries(v))
    ensures Avoids(P + Taken(v, 0, n), v[0][n].entries)
  {
    forall e, x | e in P + Taken(v, 0, n) && x in v[0][n].entries ensures e.k != x.k {
      if e in P {
        assert VersionHas(v, x);
      } else {
        var i :| 0 <= i < n && e in v[0][i].entries;
        NotTwice(v, i, n);
        FilesApart(v, bound, 0, v[0][i], 0, v[0][n], e, x);
      }
    }
  }

  lemma NotTwice(v: Version, i: nat, n: nat)
    requires SortedBySmallest(v[0]) && i < n < |v[0]|
    ensures v[0][i] != v[0][n]
  {
    assert BySmallest(v[0][i], v[0][n]);
    KeyOrder(v[0][n].smallest, v[0][n].smallest, v[0][n].smallest);
  }

  lemma OneMoreFile(v: Version, n: nat, P: iset<Entry>)
    requires n < |v[0]|
    ensures P + Taken(v, 0, n + 1) == P + Taken(v, 0, n) + DbIter.Contents(v[0][n].entries)
  {
    forall e ensures TakenHas(v, 0, n + 1, e) <==> TakenHas(v, 0, n, e) || e in v[0][n].entries {
      if i :| 0 <= i < n && e in v[0][i].entries {
        assert 0 <= i < n + 1 && e in v[0][i].entries;
      }
    }
  }

  lemma LevelTaken(v: Version, bound: nat, l: nat, P: iset<Entry>)
    requires ValidVersion(v, bound) && 1 <= l < NUM_LEVELS && EntriesApart(P, VersionEntries(v))
    ensures Avoids(P + Taken(v, l, 0), Concatenated(v[l]))
  {
    ConcatenatedHas(v[l]);
    forall e, x | e in P + Taken(v, l, 0) && x in Concatenated(v[l]) ensures e.k != x.k {
      var g :| g in v[l] && x in g.entries;
      if e in P {
        assert VersionHas(v, x);
      } else {
        var m, f :| 0 <= m < l && f in v[m] && e in f.entries;
        FilesApart(v, bound, m, f, l, g, e, x);
      }
    }
  }

  lemma LevelsTaken(v: Version, l: nat, P: iset<Entry>)
    requires l < NUM_LEVELS
    ensures P + Taken(v, l + 1, 0) == P + Taken(v, l, 0) + DbIter.Contents(Concatenated(v[l]))
  {
    ConcatenatedHas(v[l]);
    forall e ensures TakenHas(v, l + 1, 0, e) <==> TakenHas(v, l, 0, e) || e in Concatenated(v[l]) {
      OneMoreLevel(v, l, e);
    }
  }

  lemma OneMoreLevel(v: Version, l: nat, e: Entry)
    requires l < NUM_LEVELS
    ensures TakenHas(v, l + 1, 0, e) <==> TakenHas(v, l, 0, e) || exists f :: f in v[l] && e in f.entries
  {
    if f :| f in v[l] && e in f.entries {
      assert 0 <= l < l + 1 && f in v[l] && e in f.entries;
    }
    if m, f :| 0 <= m < l && f in v[m] && e in f.entries {
      assert 0 <= m < l + 1 && f in v[m] && e in f.entries;
    }
  }

  ghost predicate TakesFile(v: Version, P: iset<Entry>, i: int) {
    0 <= i < |v[0]| ==> SortedEntries(v[0][i].entries) && Avoids(P + Taken(v, 0, i), v[0][i].entries)
  }

  ghost predicate TakesLevel(v: Version, P: iset<Entry>, l: int) {
    1 <= l < NUM_LEVELS ==> SortedEntries(Concatenated(v[l])) && Avoids(P + Taken(v, l, 0), Concatenated(v[l]))
  }

  // Each file and each level can join the children that hold P and what comes before it.
  ghost predicate Joins(v: Version, P: iset<Entry>) {
    (forall i :: TakesFile(v, P, i)) && forall l :: TakesLevel(v, P, l)
  }

  lemma ValidJoins(v: Version, bound: nat, P: iset<Entry>)
    requires ValidVersion(v, bound) && EntriesApart(P, VersionEntries(v))
    ensures Joins(v, P)
  {
    forall i ensures TakesFile(v, P, i) {
      if 0 <= i < |v[0]| {
        FileTaken(v, bound, i, P);
        assert ValidFile(v[0][i]);
      }
    }
    forall l ensures TakesLevel(v, P, l) {
      if 1 <= l < NUM_LEVELS {
        LevelTaken(v, bound, l, P);
        ConcatenatedSorted(v[l]);
      }
    }
  }

  function LevelRuns(levels: seq<seq<File>>): seq<seq<Entry>> {
    if levels == [] then [] else
      var n := |levels| - 1;
      LevelRuns(levels[..n]) + LevelRun(levels[n])
  }

  // What AddIterators makes children of.
  function VersionRuns(v: Version): seq<seq<Entry>> {
    FileRuns(v[0]) + LevelRuns(v[1..])
  }

  lemma {:induction false} FilesJoin(v: Version, base: seq<seq<Entry>>, P: iset<Entry>, n: nat)
    requires RunsOf(base, P) && Joins(v, P) && n <= |v[0]|
    ensures RunsOf(base + FileRuns(v[0][..n]), P + Taken(v, 0, n))
  {
    TakenEnds(v, P);
    if n == 0 {
      assert base + FileRuns(v[0][..n]) == base;
    } else {
      var m := n - 1;
      FilesJoin(v, base, P, m);
      assert TakesFile(v, P, m);
      RunAdded(base + FileRuns(v[0][..m]), P + Taken(v, 0, m), v[0][m].entries);
      OneMoreFile(v, m, P);
      assert v[0][..n][..m] == v[0][..m];
      Reassociate(base, FileRuns(v[0][..m]), [v[0][m].entries]);
    }
  }

  function LevelRun(fs: seq<File>): seq<seq<Entry>> {
    if fs == [] then [] else [Concatenated(fs)]
  }

  lemma LevelJoins(v: Version, runs: seq<seq<Entry>>, P: iset<Entry>, l: nat)
    requires Joins(v, P) && 1 <= l < NUM_LEVELS && RunsOf(runs, P + Taken(v, l, 0))
    ensures RunsOf(runs + LevelRun(v[l]), P + Taken(v, l + 1, 0))
  {
    LevelsTaken(v, l, P);
    if v[l] == [] {
      assert P + Taken(v, l + 1, 0) == P + Taken(v, l, 0) && runs + LevelRun(v[l]) == runs;
    } else {
      assert TakesLevel(v, P, l);
      RunAdded(runs, P + Taken(v, l, 0), Concatenated(v[l]));
    }
  }

  lemma {:induction false} LevelsJoin(v: Version, base: seq<seq<Entry>>, P: iset<Entry>, l: nat)
    requires Joins(v, P) && 1 <= l <= NUM_LEVELS && RunsOf(base, P + Taken(v, 1, 0))
    ensures RunsOf(base + LevelRuns(v[1..l]), P + Taken(v, l, 0))
  {
    if l == 1 {
      assert base + LevelRuns(v[1..l]) == base;
    } else {
      var m := l - 1;
      LevelsJoin(v, base, P, m);
      LevelJoins(v, base + LevelRuns(v[1..m]), P, m);
      LevelRunsStep(v[1..l], base);
      assert v[1..l][..m - 1] == v[1..m];
    }
  }

  lemma LevelRunsStep(levels: seq<seq<File>>, base: seq<seq<Entry>>)
    requires levels != []
    ensures base + LevelRuns(levels)
      == base + LevelRuns(levels[..|levels| - 1]) + LevelRun(levels[|levels| - 1])
  {
    Reassociate(base, LevelRuns(levels[..|levels| - 1]), LevelRun(levels[|levels| - 1]));
  }

  lemma AllJoin(v: Version, base: seq<seq<Entry>>, P: iset<Entry>)
    requires Joins(v, P) && RunsOf(base, P)
    ensures RunsOf(base + VersionRuns(v), P + VersionEntries(v))
  {
    TakenEnds(v, P);
    FilesJoin(v, base, P, |v[0]|);
    assert v[0][..|v[0]|] == v[0];
    LevelsJoin(v, base + FileRuns(v[0]), P, |v|);
    assert v[1..|v|] == v[1..];
    Reassociate(base, FileRuns(v[0]), LevelRuns(v[1..]));
  }

  lemma Reassociate(a: seq<seq<Entry>>, b: seq<seq<Entry>>, c: seq<seq<Entry>>)
    ensures a + (b + c) == a + b + c
  {}

  /** The runs of a valid version join runs that share no key with it. */
  lemma VersionJoins(v: Version, bound: nat, base: seq<seq<Entry>>, P: iset<Entry>)
    requires ValidVersion(v, bound) && RunsOf(base, P) && EntriesApart(P, VersionEntries(v))
    ensures RunsOf(base + VersionRuns(v), P + VersionEntries(v))
  {
    ValidJoins(v, bound, P);
    AllJoin(v, base, P);
  }

  // What NewInternalIterator makes children of.
  function DbRuns(mem: seq<Entry>, imm: Option<seq<Entry>>, v: Version): seq<seq<Entry>> {
    [mem] + (if imm.Some? then [imm.value] else []) + VersionRuns(v)
  }

  lemma DbIsRuns(s: State)
    requires Inv(s)
    ensures RunsOf(DbRuns(s.mem, s.imm, s.version), DbEntries(s))
  {
    MemoriesApart(s);
    DbSplit(s);
    RunAdded([], iset{}, s.mem);
    assert [] + [s.mem] == [s.mem];
    if s.imm.Some? {
      RunAdded([s.mem], iset{} + DbIter.Contents(s.mem), s.imm.value);
      assert MemEntries(s) == iset{} + DbIter.Contents(s.mem) + DbIter.Contents(s.imm.value);
    } else {
      assert MemEntries(s) == iset{} + DbIter.Contents(s.mem);
      assert [s.mem] + [] == [s.mem];
    }
    VersionJoins(s.version, s.nextFile, [s.mem] + (if s.imm.Some? then [s.imm.value] else []), MemEntries(s));
  }

  // ---- the list of children ----

  ghost function Runs(list: seq<InternalIterator>): seq<seq<Entry>> {
    seq(|list|, i requires 0 <= i < |list| => list[i].es)
  }

  /** Children that stand on their own, one for each of the runs. */
  ghost predicate ListOf(list: seq<InternalIterator>, runs: seq<seq<Entry>>)
    reads list
  {
    && (forall i, j | 0 <= i < j < |list| :: list[i] != list[j])
    && (forall i | 0 <= i < |list| :: list[i].pos <= |list[i].es|)
    && Runs(list) == runs
  }

  method Push(list: seq<InternalIterator>, run: seq<Entry>, ghost runs: seq<seq<Entry>>)
    returns (r: seq<InternalIterator>)
    requires ListOf(list, runs)
    ensures ListOf(r, runs + [run]) && forall child | child in r :: child in list || fresh(child)
  {
    var child := new InternalIterator(run);
    r := list + [child];
    assert Runs(r) == Runs(list) + [run];
  }

  /** Version::AddIterators: one child for each level-0 file and one for each
      deeper level in use. */
  method AddIterators(v: Version, list: seq<InternalIterator>, ghost runs: seq<seq<Entry>>)
    returns (r: seq<InternalIterator>)
    requires ListOf(list, runs)
    ensures ListOf(r, runs + VersionRuns(v)) && forall child | child in r :: child in list || fresh(child)
  {
    r := list;
    assert runs + FileRuns(v[0][..0]) == runs;
    for i := 0 to |v[0]|
      invariant ListOf(r, runs + FileRuns(v[0][..i])) && forall child | child in r :: child in list || fresh(child)
    {
      ghost var was := runs + FileRuns(v[0][..i]);
      r := Push(r, v[0][i].entries, was);
      assert v[0][..i + 1][..i] == v[0][..i];
      assert was + [v[0][i].entries] == runs + FileRuns(v[0][..i + 1]);
    }
    r := AddLevels(v[1..], r, runs + FileRuns(v[0]));
    assert v[0][..|v[0]|] == v[0];
    assert runs + FileRuns(v[0]) + LevelRuns(v[1..]) == runs + VersionRuns(v);
  }

  method AddLevels(levels: seq<seq<File>>, list: seq<InternalIterator>, ghost runs: seq<seq<Entry>>)
    returns (r: seq<InternalIterator>)
    requires ListOf(list, runs)
    ensures ListOf(r, runs + LevelRuns(levels)) && forall child | child in r :: child in list || fresh(child)
  {
    r := list;
    assert runs + LevelRuns(levels[..0]) == runs;
    for i := 0 to |levels|
      invariant ListOf(r, runs + LevelRuns(levels[..i])) && forall child | child in r :: child in list || fresh(child)
    {
      ghost var was := runs + LevelRuns(levels[..i]);
      assert levels[..i + 1][..i] == levels[..i];
      if levels[i] != [] {
        r := Push(r, Concatenated(levels[i]), was);
      }
      LevelRunsStep(levels[..i + 1], runs);
      assert was + [] == was;
    }
    assert levels[..|levels|] == levels;
  }

  // ---- the iterators of a database ----

  lemma MemoriesApart(s: State)
    requires Inv(s)
    ensures Avoids(iset{}, s.mem)
    ensures s.imm.Some? ==> Avoids(DbIter.Contents(s.mem), s.imm.value)
    ensures EntriesApart(MemEntries(s), VersionEntries(s.version))
  {
    forall e, x | e in MemEntries(s) && VersionHas(s.version, x) ensures e.k != x.k {
      var l, f :| 0 <= l < NUM_LEVELS && f in s.version[l] && x in f.entries;
      assert NewerThan(s.mem, f.entries);
    }
  }

  lemma DbIsGood(s: State, es: seq<Entry>)
    requires Inv(s) && SortedEntries(es) && DbIter.Contents(es) == DbEntries(s)
    ensures DbIter.GoodEntries(es)
  {
    assert forall e | e in DbEntries(s) :: e in s.hist;
    DbIter.GoodMeans(es);
  }

  /** DBImpl::NewInternalIterator: a merge of everything the database holds. */
  method NewInternalIterator(db: DBImpl) returns (iter: MergingIterator)
    requires db.Valid()
    ensures fresh(iter) && fresh(set child | child in iter.children) && iter.Inv()
    ensures DbIter.Contents(iter.es) == DbEntries(db.Abs())
  {
    ghost var s := db.Abs();
    var list := ListChildren(db.mem, db.imm, db.versions.current);
    ghost var runs := DbRuns(s.mem, s.imm, s.version);
    DbIsRuns(s);
    ghost var es := Merged(runs, DbEntries(s), |list|);
    OpenList(list, runs, DbEntries(s), es);
    iter := new MergingIterator(list, es);
  }

  method ListChildren(mem: seq<Entry>, imm: Option<seq<Entry>>, v: Version) returns (list: seq<InternalIterator>)
    ensures ListOf(list, DbRuns(mem, imm, v)) && forall child | child in list :: fresh(child)
  {
    list := Push([], mem, []);
    ghost var runs := [mem];
    if imm.Some? {
      list := Push(list, imm.value, runs);
      runs := runs + [imm.value];
    }
    assert runs == [mem] + if imm.Some? then [imm.value] else [];
    list := AddIterators(v, list, runs);
  }

  lemma OpenList(list: seq<InternalIterator>, runs: seq<seq<Entry>>, P: iset<Entry>, es: seq<Entry>)
    requires ListOf(list, runs) && RunsOf(runs, P)
    requires forall e :: e in es <==> exists i :: 0 <= i < |list| && e in runs[i]
    ensures forall i | 0 <= i < |list| :: SortedEntries(list[i].es) && list[i].pos <= |list[i].es|
    ensures forall i, j {:trigger KeysApart(list[i].es, list[j].es)} | 0 <= i < j < |list| ::
      KeysApart(list[i].es, list[j].es)
    ensures (forall e :: e in es <==> exists i :: 0 <= i < |list| && e in list[i].es) && DbIter.Contents(es) == P
  {
    forall i | 0 <= i < |list| ensures SortedEntries(list[i].es) {
      assert SortedEntries(runs[i]);
    }
    forall i, j | 0 <= i < j < |list| ensures KeysApart(list[i].es, list[j].es) {
      assert ApartAt(runs, i, j);
    }
    forall e ensures e in es <==> exists i :: 0 <= i < |list| && e in list[i].es {
      if i :| 0 <= i < |list| && e in list[i].es {
        assert e in runs[i];
      }
      if i :| 0 <= i < |list| && e in runs[i] {
        assert e in list[i].es;
      }
    }
  }

  /** DBImpl::NewIterator: what it ranges over is the database, read at the
      snapshot asked for or else at the last sequence number. */
  method NewIterator(db: DBImpl, snapshot: Option<Sequence>) returns (it: DbIter.DBIter)
    requires db.Valid()
    ensures fresh(it) && fresh(it.iter) && fresh(set child | child in it.iter.children) && it.Inv() && !it.valid
    ensures DbIter.Contents(it.iter.es) == DbEntries(db.Abs())
    ensures it.sequence == if snapshot.Some? then snapshot.value else db.lastSequence
  {
    var iter := NewInternalIterator(db);
    iter.Open();
    DbIsGood(db.Abs(), iter.es);
    it := new DbIter.DBIter(iter, if snapshot.Some? then snapshot.value else db.lastSequence);
  }

  // ---- what its answers mean ----

  /** An iterator made in state i at its last sequence number t, or at a
      snapshot t live then, goes through exactly the keys the write history has
      at t, and goes on doing so in every later state j. */
  lemma IteratorSeesHistory(states: seq<State>, i: nat, j: nat, es: seq<Entry>, t: Sequence, key: Option<UserKey>,
    strict: bool, r: DbIter.At)
    requires Run(states) && i <= j < |states| && DbIter.Contents(es) == DbEntries(states[i])
    requires t == states[i].lastSeq || t in states[i].snapshots
    ensures DbIter.LeastFrom(DbIter.Contents(es), t, key, strict, r)
      <==> DbIter.LeastFrom(states[j].hist, t, key, strict, r)
    ensures DbIter.GreatestBelow(DbIter.Contents(es), t, key, r)
      <==> DbIter.GreatestBelow(states[j].hist, t, key, r)
  {
    RunInv(states, i);
    RunGrows(states, i, j);
    forall u ensures Lookup(DbEntries(states[i]), u, t) == Lookup(states[j].hist, u, t) {
      OldReadsKeep(states[i].hist, states[j].hist, u, t);
    }
  }
}
