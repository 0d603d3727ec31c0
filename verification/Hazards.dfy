/** Where the code's guarantees stop: a user key split across a file boundary of
    level + 1. */
module Hazards {
  import opened Options
  import opened Keys
  import opened Versions
  import opened Engine
  import opened CompactionProofs
  import opened Overlaps
  import opened Boundaries

  // ---- the level + 1 boundary ----

  ghost predicate LeftBehind(c: Compaction, v: Version, e: Entry)
    requires c.level + 1 < NUM_LEVELS
  {
    exists g :: g in v[c.level + 1] && g !in c.in1 && e in g.entries
  }

  /** `top` is the answer a read of its key gets at the compaction's snapshot: a
      tombstone about to be dropped. Yet a level + 1 file left behind still holds
      older entries of the key, the newest of which, y, is a value. */
  ghost predicate Exposes(c: Compaction, v: Version, P: iset<Entry>, top: Entry, y: Entry)
    requires c.level + 1 < NUM_LEVELS
  {
    && InputHas(c, top) && ObsoleteTombstone(c, top)
    && (forall z | z in P && z.k.user == top.k.user && z.k.sn <= c.snap :: z.k.sn <= top.k.sn)
    && LeftBehind(c, v, y) && y.k.user == top.k.user && y.k.sn < top.k.sn && y.k.kind.Put?
    && forall x | LeftBehind(c, v, x) && x.k.user == top.k.user && x.k.sn < top.k.sn :: x.k.sn <= y.k.sn
  }

  /** What the two lemmas below share: a compaction whose inputs are closed, its
      outputs, and the memtable entries above the version. */
  ghost predicate Setting(c: Compaction, v: Version, v': Version, bound: nat, reserved: seq<nat>, outs: seq<File>,
    over: iset<Entry>) {
    && ValidVersion(v, bound) && ClosedInputs(c, v) && BaseStaysBase(c, v)
    && ReservedNumbers(reserved, v, bound)
    && Relocated(c, v, v', outs) && Outputs(c, reserved, outs)
    && (forall e, y | e in over && VersionHas(v, y) && y.k.user == e.k.user :: e.k.sn > y.k.sn)
    && DistinctSequences(over + VersionEntries(v))
  }

  // ---- what the shape of a compaction means for its entries ----

  ghost predicate Obsolete(c: Compaction, top: Entry) {
    InputHas(c, top) && ObsoleteTombstone(c, top)
  }

  /** An entry of the new version older than a dropped tombstone of its key was
      left behind in level + 1. */
  lemma OlderSurvivor(c: Compaction, v: Version, v': Version, bound: nat, reserved: seq<nat>, outs: seq<File>,
    top: Entry, e: Entry)
    requires ValidVersion(v, bound) && ClosedInputs(c, v) && BaseStaysBase(c, v)
    requires Relocated(c, v, v', outs) && Outputs(c, reserved, outs)
    requires Obsolete(c, top) && VersionHas(v', e) && e.k.user == top.k.user && e.k.sn < top.k.sn
    ensures LeftBehind(c, v, e)
  {
    var l, g :| 0 <= l < NUM_LEVELS && g in v'[l] && e in g.entries;
    var f :| c.Input(f) && top in f.entries;
    HiddenIsDropped(c, e, top);
    if g !in outs || l != c.level + 1 {
      UnderTombstone(c, v, bound, top, f, l, g, e);
    }
  }

  lemma HiddenIsDropped(c: Compaction, e: Entry, x: Entry)
    requires HiddenBy(c, e, x)
    ensures !Kept(c, e)
  {}

  lemma LeftBehindStays(c: Compaction, v: Version, v': Version, outs: seq<File>, e: Entry)
    requires c.level + 1 < NUM_LEVELS && Relocated(c, v, v', outs) && LeftBehind(c, v, e)
    ensures VersionHas(v', e)
  {
    var g :| g in v[c.level + 1] && g !in c.in1 && e in g.entries;
    assert g in v'[c.level + 1];
  }

  lemma OneHome(v: Version, bound: nat, l1: nat, f: File, l2: nat, g: File, e: Entry)
    requires ValidVersion(v, bound) && l1 < NUM_LEVELS && l2 < NUM_LEVELS && f in v[l1] && g in v[l2] && e in f.entries
      && e in g.entries
    ensures l1 == l2 && f == g
  {
    assert Above(l1, f, l2, g) ==> NewerThan(f.entries, g.entries);
    assert Above(l2, g, l1, f) ==> NewerThan(g.entries, f.entries);
    if l1 > 0 {
      SortedDisjoint(v[l1]);
      FileBounds(f, e);
      FileBounds(g, e);
      KeyOrder(e.k, f.largest, g.smallest);
      KeyOrder(e.k, g.largest, f.smallest);
    }
  }

  /** The tombstone itself is gone from the new version. */
  lemma TombstoneGone(c: Compaction, v: Version, v': Version, bound: nat, reserved: seq<nat>, outs: seq<File>,
    top: Entry, l: nat, g: File)
    requires ValidVersion(v, bound) && ClosedInputs(c, v)
    requires Relocated(c, v, v', outs) && Outputs(c, reserved, outs)
    requires Obsolete(c, top) && l < NUM_LEVELS && g in v'[l]
    ensures top !in g.entries
  {
    assert !Kept(c, top);
    var f :| c.Input(f) && top in f.entries;
    var lf := if f in c.in0 then c.level else c.level + 1;
    assert f in v[lf];
    if !(g in outs && l == c.level + 1) && top in g.entries {
      OneHome(v, bound, lf, f, l, g, top);
    }
  }

  /** Everything the read arguments need, stated on entry sets: P before, Q
      after. */
  ghost predicate Summary(c: Compaction, v: Version, P: iset<Entry>, Q: iset<Entry>)
    requires c.level + 1 < NUM_LEVELS
  {
    && Q <= P && DistinctSequences(P)
    && (forall x | x in P && x !in Q :: Dropped(c, x))
    && (forall x | Kept(c, x) :: x in Q) && (forall x | InputHas(c, x) :: x in P)
    && (forall top, e | Obsolete(c, top) && e in Q && e.k.user == top.k.user && e.k.sn < top.k.sn ::
      LeftBehind(c, v, e))
    && (forall e | LeftBehind(c, v, e) :: e in Q)
    && forall top | Obsolete(c, top) :: top !in Q
  }

  lemma SettingSummary(c: Compaction, v: Version, v': Version, bound: nat, reserved: seq<nat>, outs: seq<File>,
    over: iset<Entry>)
    requires Setting(c, v, v', bound, reserved, outs, over)
    ensures Summary(c, v, over + VersionEntries(v), over + VersionEntries(v'))
  {
    OutputsFromInputs(c, reserved, outs);
    InstallSubset(c, v, v', outs);
    forall x | InputHas(c, x) ensures VersionHas(v, x) {
      InputIsStored(c, v, x);
    }
    forall x | Kept(c, x) ensures VersionHas(v', x) {
      OutputIsStored(c, v, v', reserved, outs, x);
    }
    forall x | VersionHas(v, x) && !VersionHas(v', x) ensures Dropped(c, x) {
      OnlyDropped(c, v, v', outs, reserved, x);
    }
    forall e | LeftBehind(c, v, e) ensures VersionHas(v', e) {
      LeftBehindStays(c, v, v', outs, e);
    }
    forall top, e | Obsolete(c, top) && VersionHas(v', e) && e.k.user == top.k.user && e.k.sn < top.k.sn
      ensures LeftBehind(c, v, e) {
      OlderSurvivor(c, v, v', bound, reserved, outs, top, e);
    }
    forall top | Obsolete(c, top) ensures !VersionHas(v', top) {
      forall l, g | 0 <= l < NUM_LEVELS && g in v'[l] ensures top !in g.entries {
        TombstoneGone(c, v, v', bound, reserved, outs, top, l, g);
      }
    }
  }

  // ---- reads ----

  /** If a tombstone is exposed, the read it answered changes. */
  lemma ExposedReadChanges(c: Compaction, v: Version, P: iset<Entry>, Q: iset<Entry>, top: Entry, y: Entry)
    requires c.level + 1 < NUM_LEVELS && Summary(c, v, P, Q) && Exposes(c, v, P, top, y)
    ensures Lookup(P, top.k.user, c.snap) == None
    ensures Lookup(Q, top.k.user, c.snap) == Some(y.v)
  {
    var u := top.k.user;
    assert Obsolete(c, top);
    assert IsNewest(P, u, c.snap, top);
    LookupOf(P, u, c.snap, top);
    forall x | x in Q && Visible(x, u, c.snap) ensures x.k.sn <= y.k.sn {
      assert x.k.sn <= top.k.sn && x != top;
    }
    assert IsNewest(Q, u, c.snap, y);
    LookupOf(Q, u, c.snap, y);
  }

  lemma NewestBelowTop(c: Compaction, v: Version, P: iset<Entry>, Q: iset<Entry>, u: UserKey, t: nat, e: Entry,
    top: Entry)
    requires c.level + 1 < NUM_LEVELS && Summary(c, v, P, Q) && c.snap <= t
    requires forall top, y :: !Exposes(c, v, P, top, y)
    requires IsNewest(Q, u, t, e) && e.k.kind.Put?
    requires InputHas(c, top) && top.k.user == u && top.k.sn <= c.snap && !Hidden(c, top)
    ensures top.k.sn <= e.k.sn
  {
    if Kept(c, top) {
      assert Visible(top, u, t);
    } else if e.k.sn < top.k.sn {
      assert Obsolete(c, top);
      forall z | z in P && z.k.user == u && z.k.sn <= c.snap ensures z.k.sn <= top.k.sn {
        assert z in Q ==> Visible(z, u, t);
        assert !HiddenBy(c, top, z);
      }
      forall x | LeftBehind(c, v, x) && x.k.user == u && x.k.sn < top.k.sn ensures x.k.sn <= e.k.sn {
        assert Visible(x, u, t);
      }
      assert Exposes(c, v, P, top, e);
    }
  }

  /** Otherwise no read at the snapshot or later changes. */
  lemma UnexposedLookup(c: Compaction, v: Version, P: iset<Entry>, Q: iset<Entry>, u: UserKey, t: nat)
    requires c.level + 1 < NUM_LEVELS && Summary(c, v, P, Q) && c.snap <= t
    requires forall top, y :: !Exposes(c, v, P, top, y)
    ensures Lookup(Q, u, t) == Lookup(P, u, t)
  {
    forall e | IsNewest(P, u, t, e) && e.k.kind.Put? ensures e in Q {
      forall x | InputHas(c, x) ensures !HiddenBy(c, e, x) {
        assert x.k.user == u && x.k.sn <= c.snap ==> Visible(x, u, t);
      }
    }
    forall e | IsNewest(Q, u, t, e) && e.k.kind.Put? ensures IsNewest(P, u, t, e) {
      forall x | x in P && Visible(x, u, t) ensures x.k.sn <= e.k.sn {
        if x !in Q {
          var top := TopVisible(c, x);
          NewestBelowTop(c, v, P, Q, u, t, e, top);
        }
      }
    }
    LookupAgree(P, Q, u, t);
  }

  /** Exactly when a compaction changes no read at its snapshot or later: when
      it exposes no entry of a key split across a level + 1 boundary. */
  lemma CompactionPreservesReadsIff(c: Compaction, v: Version, v': Version, bound: nat, reserved: seq<nat>,
    outs: seq<File>, over: iset<Entry>)
    requires Setting(c, v, v', bound, reserved, outs, over)
    ensures (forall u, t: nat | c.snap <= t ::
      Lookup(over + VersionEntries(v'), u, t) == Lookup(over + VersionEntries(v), u, t))
      <==> forall top, y :: !Exposes(c, v, over + VersionEntries(v), top, y)
  {
    var P, Q := over + VersionEntries(v), over + VersionEntries(v');
    SettingSummary(c, v, v', bound, reserved, outs, over);
    if top, y :| Exposes(c, v, P, top, y) {
      ExposedReadChanges(c, v, P, Q, top, y);
      assert Lookup(Q, top.k.user, c.snap) != Lookup(P, top.k.user, c.snap);
    } else {
      forall u, t: nat | c.snap <= t ensures Lookup(Q, u, t) == Lookup(P, u, t) {
        UnexposedLookup(c, v, P, Q, u, t);
      }
    }
  }

  // ---- a concrete split boundary ----

  const NEW3 := Entry(IKey(3, 9, Put), "new")
  const OLD3 := Entry(IKey(3, 4, Put), "old")
  const GONE7 := Entry(IKey(7, 3, Deletion), "")
  const OLD7 := Entry(IKey(7, 2, Put), "back from the dead")

  const UPPER := File(10, 1, NEW3.k, NEW3.k, [NEW3])
  const LOWER := File(11, 1, OLD3.k, GONE7.k, [OLD3, GONE7])
  const REST := File(12, 1, OLD7.k, OLD7.k, [OLD7])
  const OUTPUT := File(13, 1, NEW3.k, NEW3.k, [NEW3])
  const BEFORE: Version := [[], [UPPER], [LOWER, REST], [], [], [], []]
  const AFTER: Version := [[], [], [OUTPUT, REST], [], [], [], []]
  const SPLIT := Compaction(1, [UPPER], [LOWER], 3, 3, 20, BEFORE, true)

  lemma SplitFiles()
    ensures forall l, f ::
      0 <= l < NUM_LEVELS && f in BEFORE[l] <==> (l == 1 && f == UPPER) || (l == 2 && (f == LOWER || f == REST))
    ensures forall l, f :: 0 <= l < NUM_LEVELS && f in AFTER[l] <==> l == 2 && (f == OUTPUT || f == REST)
    ensures forall f :: SPLIT.Input(f) <==> f == UPPER || f == LOWER
    ensures forall e :: InputHas(SPLIT, e) <==> e == NEW3 || e == OLD3 || e == GONE7
    ensures forall e :: VersionHas(BEFORE, e) <==> e == NEW3 || e == OLD3 || e == GONE7 || e == OLD7
  {
    forall e ensures InputHas(SPLIT, e) <==> e == NEW3 || e == OLD3 || e == GONE7 {
      assert SPLIT.Input(UPPER) && SPLIT.Input(LOWER);
    }
    forall e ensures VersionHas(BEFORE, e) <==> e == NEW3 || e == OLD3 || e == GONE7 || e == OLD7 {
      assert UPPER in BEFORE[1] && LOWER in BEFORE[2] && REST in BEFORE[2];
    }
  }

  lemma BeforeIsSorted()
    ensures AllValid(BEFORE) && SortedLevels(BEFORE)
  {
    SplitFiles();
    forall l | 1 <= l < NUM_LEVELS ensures SortedFiles(BEFORE[l]) {
      assert BEFORE[l] == if l == 1 then [UPPER] else if l == 2 then [LOWER, REST] else [];
    }
  }

  lemma ThreeFilesOrdered(v: Version, bound: nat, upper: File, lower: File, rest: File)
    requires forall l, f | 0 <= l < NUM_LEVELS && f in v[l] ::
      (l == 1 && f == upper) || (l == 2 && (f == lower || f == rest))
    requires upper.number < lower.number < rest.number < bound
    requires NewerThan(upper.entries, lower.entries) && NewerThan(upper.entries, rest.entries)
    ensures DistinctNumbers(v, bound) && NewestOnTop(v)
  {}

  lemma BeforeIsValid()
    ensures ValidVersion(BEFORE, 14)
  {
    BeforeIsSorted();
    SplitFiles();
    ThreeFilesOrdered(BEFORE, 14, UPPER, LOWER, REST);
  }

  lemma SplitIsClosed()
    ensures ClosedInputs(SPLIT, BEFORE) && GapFree(SPLIT) && BaseStaysBase(SPLIT, BEFORE)
  {
    SplitFiles();
  }

  lemma SplitKeeps()
    ensures forall e :: Kept(SPLIT, e) <==> e == NEW3
    ensures ObsoleteTombstone(SPLIT, GONE7)
  {
    SplitFiles();
    assert HiddenBy(SPLIT, OLD3, NEW3);
  }

  lemma SplitRelocates()
    ensures Relocated(SPLIT, BEFORE, AFTER, [OUTPUT])
  {
    SplitFiles();
    assert AFTER[1] == [] && AFTER[2] == [OUTPUT, REST];
    forall l | 0 <= l < NUM_LEVELS && l != 1 && l != 2 ensures AFTER[l] == BEFORE[l] {
      assert AFTER[l] == [] == BEFORE[l];
    }
  }

  lemma SplitOutputs()
    ensures Outputs(SPLIT, [13], [OUTPUT])
  {
    SplitKeeps();
    assert OUTPUT in [OUTPUT] && NEW3 in OUTPUT.entries;
  }

  lemma MakeSetting(c: Compaction, v: Version, v': Version, bound: nat, reserved: seq<nat>, outs: seq<File>)
    requires ValidVersion(v, bound) && ClosedInputs(c, v) && BaseStaysBase(c, v)
    requires ReservedNumbers(reserved, v, bound) && Relocated(c, v, v', outs) && Outputs(c, reserved, outs)
    requires DistinctSequences(VersionEntries(v))
    ensures Setting(c, v, v', bound, reserved, outs, iset{})
  {
    assert iset{} + VersionEntries(v) == VersionEntries(v);
  }

  lemma SplitNumbers()
    ensures ReservedNumbers([13], BEFORE, 14) && DistinctSequences(VersionEntries(BEFORE))
  {
    SplitFiles();
  }

  lemma SplitExposes()
    ensures Exposes(SPLIT, BEFORE, VersionEntries(BEFORE), GONE7, OLD7)
  {
    SplitFiles();
    SplitKeeps();
    assert REST in BEFORE[2] && OLD7 in REST.entries;
  }

  lemma EmptyOver(E: iset<Entry>)
    ensures iset{} + E == E
  {}

  lemma ExposedSetting(c: Compaction, v: Version, v': Version, bound: nat, reserved: seq<nat>, outs: seq<File>,
    top: Entry, y: Entry)
    requires Setting(c, v, v', bound, reserved, outs, iset{}) && Exposes(c, v, iset{} + VersionEntries(v), top, y)
    ensures Lookup(iset{} + VersionEntries(v), top.k.user, c.snap) == None
    ensures Lookup(iset{} + VersionEntries(v'), top.k.user, c.snap) == Some(y.v)
  {
    SettingSummary(c, v, v', bound, reserved, outs, iset{});
    ExposedReadChanges(c, v, iset{} + VersionEntries(v), iset{} + VersionEntries(v'), top, y);
  }

  lemma MeetingOne(f: File, r: Range)
    ensures Meeting([f], r) == if r.Meets(f) then [f] else []
  {
    assert [f][..0] == [];
  }

  lemma MeetingTwo(f: File, g: File, r: Range)
    ensures Meeting([f, g], r) == (if r.Meets(f) then [f] else []) + (if r.Meets(g) then [g] else [])
  {
    assert [f, g][..1] == [f];
    MeetingOne(f, r);
  }

  /** The inputs are those SetupOtherInputs settles on, starting from UPPER: no
      boundary file follows in its level, LOWER is what meets its range in the next
      one, and the whole range meets nothing more of its level. */
  lemma SplitIsChosen()
    ensures NoBoundary(BEFORE[1], UPPER.largest)
    ensures Meeting(BEFORE[2], Range(Some(SPLIT.lo), Some(SPLIT.hi))) == SPLIT.in1
    ensures Meeting(BEFORE[1], Range(Some(LOWER.smallest.user), Some(LOWER.largest.user))) == SPLIT.in0
  {
    assert BEFORE[1] == [UPPER] && BEFORE[2] == [LOWER, REST];
    MeetingTwo(LOWER, REST, Range(Some(SPLIT.lo), Some(SPLIT.hi)));
    MeetingOne(UPPER, Range(Some(LOWER.smallest.user), Some(LOWER.largest.user)));
  }

  /** A valid version, closed gap-free inputs and correct outputs, and still the
      read of key 7 at the compaction's snapshot turns from "deleted" into an
      older value. */
  lemma SplitBoundaryResurrects()
    ensures Setting(SPLIT, BEFORE, AFTER, 14, [13], [OUTPUT], iset{}) && GapFree(SPLIT)
    ensures Lookup(VersionEntries(BEFORE), 7, SPLIT.snap) == None
    ensures Lookup(VersionEntries(AFTER), 7, SPLIT.snap) == Some(OLD7.v)
  {
    BeforeIsValid();
    SplitIsClosed();
    SplitRelocates();
    SplitOutputs();
    SplitNumbers();
    MakeSetting(SPLIT, BEFORE, AFTER, 14, [13], [OUTPUT]);
    SplitExposes();
    EmptyOver(VersionEntries(BEFORE));
    EmptyOver(VersionEntries(AFTER));
    ExposedSetting(SPLIT, BEFORE, AFTER, 14, [13], [OUTPUT], GONE7, OLD7);
  }
}
