/** Where the code's guarantees stop: a memtable flush into a gap between the inputs
    of a manual compaction (db/db_impl.cc, db/version_set.cc). */
module Gaps {
  import opened Options
  import opened Keys
  import opened Versions
  import opened Engine
  import opened CompactionLoop
  import opened Sequences
  import opened FlushProofs
  import opened Overlaps
  import opened Boundaries
  import opened Hazards

  ghost predicate NeverOverlaps(c: Compaction, reserved: seq<nat>, f: File) {
    forall outs, o | Outputs(c, reserved, outs) && o in outs :: FileBefore(o, f) || FileBefore(f, o)
  }

  lemma OneSideIsSafe(c: Compaction, f: File, reserved: seq<nat>)
    requires (forall e | Kept(c, e) :: e.k.user < f.smallest.user)
      || (forall e | Kept(c, e) :: f.largest.user < e.k.user)
    ensures NeverOverlaps(c, reserved, f)
  {
    forall outs, o | Outputs(c, reserved, outs) && o in outs ensures FileBefore(o, f) || FileBefore(f, o) {
      var first, last := o.entries[0], o.entries[|o.entries| - 1];
      assert first in o.entries && last in o.entries;
      assert Kept(c, first) && Kept(c, last);
    }
  }

  lemma BothSidesOverlap(c: Compaction, input: seq<Entry>, f: File, number: nat, reserved: seq<nat>, a: Entry, b: Entry)
    requires MergedInput(c, input) && ValidFile(f) && number in reserved
    requires Kept(c, a) && Kept(c, b) && a.k.user < f.smallest.user && f.largest.user < b.k.user
    ensures !NeverOverlaps(c, reserved, f)
  {
    var tables := OneTable(c, input, number, reserved);
    var o := tables[0];
    assert o in tables;
    FileBounds(o, a);
    FileBounds(o, b);
    FileBounds(f, f.entries[0]);
    assert Outputs(c, reserved, tables) && !FileBefore(o, f) && !FileBefore(f, o);
  }

  // ---- which ranges can be flushed into level + 1 ----

  // The flushed table covers user keys a to b.
  ghost predicate Covers(f: File, a: UserKey, b: UserKey) {
    ValidFile(f) && f.smallest.user == a && f.largest.user == b
  }

  ghost predicate KeptBefore(c: Compaction, a: UserKey) {
    exists e :: Kept(c, e) && e.k.user < a
  }

  ghost predicate KeptAfter(c: Compaction, b: UserKey) {
    exists e :: Kept(c, e) && b < e.k.user
  }

  /** A range that no input file meets, with entries that survive on both sides. */
  ghost predicate Straddled(c: Compaction, a: UserKey, b: UserKey) {
    a <= b && Avoids(c, a, b) && KeptBefore(c, a) && KeptAfter(c, b)
  }

  ghost predicate GapsAreSafe(c: Compaction, reserved: seq<nat>) {
    forall f | ValidFile(f) && Avoids(c, f.smallest.user, f.largest.user) :: NeverOverlaps(c, reserved, f)
  }

  // Some table over a range.
  lemma TableOver(a: UserKey, b: UserKey) returns (f: File)
    requires a <= b
    ensures Covers(f, a, b)
  {
    var first, last := Entry(IKey(a, 1, Put), ""), Entry(IKey(b, 0, Put), "");
    f := File(0, 0, first.k, last.k, [first, last]);
  }

  lemma KeptAreApart(c: Compaction, f: File, e: Entry)
    requires (forall i | c.Input(i) :: ValidFile(i)) && ValidFile(f) && Avoids(c, f.smallest.user, f.largest.user)
    requires Kept(c, e)
    ensures e.k.user < f.smallest.user || f.largest.user < e.k.user
  {
    var i :| c.Input(i) && e in i.entries;
    FileBounds(i, e);
  }

  lemma UnstraddledIsSafe(c: Compaction, reserved: seq<nat>)
    requires (forall a, b :: !Straddled(c, a, b)) && forall i | c.Input(i) :: ValidFile(i)
    ensures GapsAreSafe(c, reserved)
  {
    forall f | ValidFile(f) && Avoids(c, f.smallest.user, f.largest.user) ensures NeverOverlaps(c, reserved, f) {
      FileBounds(f, f.entries[0]);
      assert !Straddled(c, f.smallest.user, f.largest.user);
      forall e | Kept(c, e) ensures e.k.user < f.smallest.user || f.largest.user < e.k.user {
        KeptAreApart(c, f, e);
      }
      OneSideIsSafe(c, f, reserved);
    }
  }

  /** Exactly when every table that avoids the inputs can be flushed beside them:
      when no avoided range has surviving entries on both sides. That can be read
      off the inputs, the oldest snapshot and the version before the flush. */
  lemma GapFlushIff(c: Compaction, input: seq<Entry>, number: nat, reserved: seq<nat>)
    requires MergedInput(c, input) && number in reserved && forall i | c.Input(i) :: ValidFile(i)
    ensures GapsAreSafe(c, reserved) <==> forall a, b :: !Straddled(c, a, b)
  {
    if a, b :| Straddled(c, a, b) {
      var f := TableOver(a, b);
      var x :| Kept(c, x) && x.k.user < a;
      var y :| Kept(c, y) && b < y.k.user;
      BothSidesOverlap(c, input, f, number, reserved, x, y);
    } else {
      UnstraddledIsSafe(c, reserved);
    }
  }

  /** Inputs without a gap are enough, as PickCompaction's are. */
  lemma GapFreeIsSafe(c: Compaction, reserved: seq<nat>)
    requires GapFree(c) && forall i | c.Input(i) :: ValidFile(i)
    ensures GapsAreSafe(c, reserved)
  {
    forall a, b ensures !Straddled(c, a, b) {
      if Straddled(c, a, b) {
        var x :| Kept(c, x) && x.k.user < a;
        var y :| Kept(c, y) && b < y.k.user;
        var i :| c.Input(i) && x in i.entries;
        var j :| c.Input(j) && y in j.entries;
        FileBounds(i, x);
        FileBounds(j, y);
      }
    }
    UnstraddledIsSafe(c, reserved);
  }

  /** Nothing forces a compaction to cut its output. */
  lemma OneTable(c: Compaction, input: seq<Entry>, number: nat, reserved: seq<nat>) returns (tables: seq<File>)
    requires MergedInput(c, input) && number in reserved && exists e :: Kept(c, e)
    ensures Outputs(c, reserved, tables) && |tables| == 1 && forall e | Kept(c, e) :: e in tables[0].entries
  {
    var kept := KeptOf(c, input);
    KeptMembers(c, input);
    var e :| Kept(c, e);
    assert e in input && e in kept;
    tables := TablesOf([kept], [number], (es: seq<Entry>) => 0);
    assert [kept][..0] == [] && Concat([kept]) == Concat([]) + kept == kept;
    TablesAreOutputs(c, input, [kept], [number], (es: seq<Entry>) => 0);
  }

  // ---- inputs with a gap that goes wrong ----

  const LOW := File(10, 1, IKey(1, 1, Put), IKey(2, 2, Put), [Entry(IKey(1, 1, Put), "a"), Entry(IKey(2, 2, Put), "b")])
  const HIGH := File(11, 1, IKey(8, 3, Put), IKey(9, 4, Put),
    [Entry(IKey(8, 3, Put), "c"), Entry(IKey(9, 4, Put), "d")])
  const MIDDLE := File(12, 1, IKey(4, 5, Put), IKey(5, 6, Put),
    [Entry(IKey(4, 5, Put), "e"), Entry(IKey(5, 6, Put), "f")])
  const JOINED := File(13, 1, IKey(1, 1, Put), IKey(9, 4, Put), LOW.entries + HIGH.entries)
  const BEGUN: Version := [[], [LOW, HIGH], [], [], [], [], []]
  const FLUSHED: Version := [[], [LOW, HIGH], [MIDDLE], [], [], [], []]
  const INSTALLED: Version := [[], [], [JOINED, MIDDLE], [], [], [], []]
  const WIDE := Compaction(1, [LOW, HIGH], [], 1, 9, 4, BEGUN, false)

  lemma GapFiles()
    ensures forall l, f :: 0 <= l < NUM_LEVELS && f in BEGUN[l] <==> l == 1 && (f == LOW || f == HIGH)
    ensures forall l, f ::
      0 <= l < NUM_LEVELS && f in FLUSHED[l] <==> (l == 1 && (f == LOW || f == HIGH)) || (l == 2 && f == MIDDLE)
    ensures forall f :: WIDE.Input(f) <==> f == LOW || f == HIGH
    ensures forall e :: InputHas(WIDE, e) <==> e in LOW.entries || e in HIGH.entries
  {
    forall e ensures InputHas(WIDE, e) <==> e in LOW.entries || e in HIGH.entries {
      assert WIDE.Input(LOW) && WIDE.Input(HIGH);
    }
  }

  lemma BegunIsValid()
    ensures ValidVersion(BEGUN, 12)
  {
    GapFiles();
    forall l | 1 <= l < NUM_LEVELS ensures SortedFiles(BEGUN[l]) {
      assert BEGUN[l] == if l == 1 then [LOW, HIGH] else [];
    }
  }

  /** CompactRange over the whole level takes both files and nothing below. */
  lemma WideIsChosen()
    ensures Meeting(BEGUN[1], Range(None, None)) == WIDE.in0 && NoBoundary(BEGUN[1], HIGH.largest)
    ensures Meeting(BEGUN[2], Range(Some(WIDE.lo), Some(WIDE.hi))) == WIDE.in1
  {
    assert BEGUN[1] == [LOW, HIGH] && BEGUN[2] == [];
    MeetingTwo(LOW, HIGH, Range(None, None));
  }

  lemma WideIsClosed()
    ensures ClosedInputs(WIDE, BEGUN) && NoSplitBoundary(WIDE, BEGUN) && BaseStaysBase(WIDE, BEGUN)
  {
    GapFiles();
  }

  lemma WideKeepsAll()
    ensures forall e :: Kept(WIDE, e) <==> e in LOW.entries || e in HIGH.entries
  {
    GapFiles();
  }

  lemma JoinedIsOutput()
    ensures Outputs(WIDE, [13], [JOINED])
  {
    WideKeepsAll();
    assert JOINED in [JOINED];
    forall e | Kept(WIDE, e) ensures e in JOINED.entries {}
  }

  lemma MiddleMayGoDown()
    ensures FlushLevel(BEGUN, MIDDLE.smallest.user, MIDDLE.largest.user, 2)
    ensures NewerThanVersion(MIDDLE.entries, BEGUN)
  {
    GapFiles();
  }

  lemma MiddleGoesDown()
    ensures Added(BEGUN, FLUSHED, 2, MIDDLE)
  {
    assert FLUSHED[2] == [MIDDLE] && BEGUN[2] == [];
    forall l | 0 <= l < NUM_LEVELS && l != 2 ensures FLUSHED[l] == BEGUN[l] {
      assert BEGUN[l] == if l == 1 then [LOW, HIGH] else [];
    }
  }

  lemma FlushedIsValid(v: Version, v': Version, f: File)
    requires ValidVersion(v, f.number) && Added(v, v', 2, f) && NewerThanVersion(f.entries, v)
    requires |f.entries| == 2 && Less(f.entries[0].k, f.entries[1].k)
    requires f.smallest == f.entries[0].k && f.largest == f.entries[1].k
    requires FlushLevel(v, f.smallest.user, f.largest.user, 2)
    ensures ValidVersion(v', f.number + 1)
  {
    FlushVersion(v, v', 2, f, f.number, []);
  }

  lemma JoinedIsInstalled()
    ensures Replaced(WIDE, FLUSHED, INSTALLED, [JOINED])
  {
    assert INSTALLED[1] == [] && INSTALLED[2] == [JOINED, MIDDLE];
    assert FLUSHED[1] == [LOW, HIGH] && FLUSHED[2] == [MIDDLE];
    assert LOW in WIDE.in0 && HIGH in WIDE.in0;
    forall l | 0 <= l < NUM_LEVELS && l != 1 && l != 2 ensures INSTALLED[l] == FLUSHED[l] {}
  }

  /** A manual compaction of [1, 2] and [8, 9] runs, and a memtable over [4, 5] is to
      be flushed: PickLevelForMemTableOutput allows the level below, and the version
      is valid then. */
  lemma GapFlushAllowed()
    ensures ValidVersion(BEGUN, 12) && ValidInputs(WIDE, BEGUN)
    ensures FlushLevel(BEGUN, MIDDLE.smallest.user, MIDDLE.largest.user, 2) && Added(BEGUN, FLUSHED, 2, MIDDLE)
    ensures ValidVersion(FLUSHED, 13)
  {
    BegunIsValid();
    WideIsClosed();
    MiddleMayGoDown();
    MiddleGoesDown();
    FlushedIsValid(BEGUN, FLUSHED, MIDDLE);
  }

  lemma LevelIsBroken()
    ensures !SortedFiles(INSTALLED[2])
    ensures INSTALLED[2][0] == JOINED && AtMost(SeekKey(4, MAX_SEQUENCE), JOINED.largest)
    ensures (forall e | e in JOINED.entries :: e.k.user != 4) && exists e :: e in MIDDLE.entries && e.k.user == 4
  {
    assert INSTALLED[2] == [JOINED, MIDDLE] && !FileBefore(INSTALLED[2][0], INSTALLED[2][1]);
    assert MIDDLE.entries[0] in MIDDLE.entries && MIDDLE.entries[0].k.user == 4;
  }

  /** Then the compaction installs one table over [1, 9]. The level is no longer
      sorted, and the one file a read of key 4 looks into does not have it. */
  lemma GapFlushBreaks()
    ensures Straddled(WIDE, MIDDLE.smallest.user, MIDDLE.largest.user) && !GapFree(WIDE)
    ensures Outputs(WIDE, [13], [JOINED]) && Replaced(WIDE, FLUSHED, INSTALLED, [JOINED])
    ensures !SortedFiles(INSTALLED[2])
    ensures INSTALLED[2][0] == JOINED && AtMost(SeekKey(4, MAX_SEQUENCE), JOINED.largest)
    ensures (forall e | e in JOINED.entries :: e.k.user != 4) && exists e :: e in MIDDLE.entries && e.k.user == 4
  {
    WideHasGap();
    JoinedIsOutput();
    JoinedIsInstalled();
    LevelIsBroken();
  }

  lemma WideHasGap()
    ensures Straddled(WIDE, 4, 5) && !GapFree(WIDE)
  {
    GapFiles();
    WideKeepsAll();
    assert LOW.entries[0] in LOW.entries && HIGH.entries[0] in HIGH.entries;
    assert Kept(WIDE, LOW.entries[0]) && Kept(WIDE, HIGH.entries[0]);
    assert Avoids(WIDE, 4, 5) && WIDE.Input(LOW) && WIDE.Input(HIGH);
  }

  const GONE := File(11, 1, IKey(8, 3, Deletion), IKey(9, 4, Deletion),
    [Entry(IKey(8, 3, Deletion), ""), Entry(IKey(9, 4, Deletion), "")])
  const FADING := Compaction(1, [LOW, GONE], [], 1, 9, 4, NO_DEEPER, false)
  const NO_DEEPER: Version := [[], [LOW, GONE], [], [], [], [], []]

  /** A gap alone does no harm: here all that lies behind it is dropped. */
  lemma GapAloneIsSafe()
    ensures !GapFree(FADING) && forall a, b :: !Straddled(FADING, a, b)
  {
    assert FADING.Input(LOW) && FADING.Input(GONE);
    assert Avoids(FADING, 4, 5);
    forall e | e in GONE.entries ensures !Kept(FADING, e) {
      assert BaseFor(NO_DEEPER, 1, e.k.user) && ObsoleteTombstone(FADING, e);
    }
    assert forall e | Kept(FADING, e) :: e in LOW.entries;
    forall a, b | a <= b && Avoids(FADING, a, b) ensures !KeptBefore(FADING, a) || !KeptAfter(FADING, b) {
      assert !UserOverlap(LOW, a, b);
    }
  }
}
