/** Installing a compaction, or moving a file down, changes no read. */
module CompactionProofs {
  import opened Options
  import opened Keys
  import opened Versions
  import opened Engine

  /** The effect of Replaced on files, free of file numbers. */
  ghost predicate Relocated(c: Compaction, v: Version, v': Version, outs: seq<File>) {
    && c.level + 1 < NUM_LEVELS
    && SortedBySmallest(v'[c.level]) && SortedBySmallest(v'[c.level + 1])
    && (forall f :: f in v'[c.level] <==> f in v[c.level] && f !in c.in0)
    && (forall f :: f in v'[c.level + 1] <==> (f in v[c.level + 1] && f !in c.in1) || f in outs)
    && forall l | 0 <= l < NUM_LEVELS && l != c.level && l != c.level + 1 :: v'[l] == v[l]
  }

  ghost predicate FromInputs(c: Compaction, outs: seq<File>) {
    && SortedFiles(outs)
    && (forall o | o in outs :: ValidFile(o))
    && forall o, e | o in outs && e in o.entries :: InputHas(c, e)
  }

  lemma NumbersName(fs: seq<File>, base: seq<File>, f: File)
    requires forall g, h | g in base && h in base && g.number == h.number :: g == h
    requires forall g | g in fs :: g in base
    requires f in base
    ensures f.number in Numbers(fs) <==> f in fs
  {}

  lemma ReplacedRelocates(c: Compaction, v: Version, v': Version, outs: seq<File>, bound: nat)
    requires ClosedInputs(c, v) && DistinctNumbers(v, bound) && Replaced(c, v, v', outs)
    ensures Relocated(c, v, v', outs)
  {
    forall f ensures f in v'[c.level] <==> f in v[c.level] && f !in c.in0 {
      if f in v[c.level] {
        NumbersName(c.in0, v[c.level], f);
      }
    }
    forall f ensures f in v'[c.level + 1] <==> (f in v[c.level + 1] && f !in c.in1) || f in outs {
      if f in v[c.level + 1] {
        NumbersName(c.in1, v[c.level + 1], f);
      }
    }
  }

  // ---- the shape of the new version ----

  lemma OutputBesides(c: Compaction, v: Version, g: File, o: File)
    requires AllValid(v) && ClosedInputs(c, v) && OneSide(c, g) && ValidFile(o)
    requires forall e | e in o.entries :: InputHas(c, e)
    ensures FileBefore(g, o) || FileBefore(o, g)
  {
    var first, last := o.entries[0], o.entries[|o.entries| - 1];
    assert InputHas(c, first) && InputHas(c, last);
    var f :| c.Input(f) && first in f.entries;
    var h :| c.Input(h) && last in h.entries;
    InputsAreFiles(c, v, f);
    InputsAreFiles(c, v, h);
    FileBounds(f, first);
    FileBounds(h, last);
    KeyOrder(g.largest, f.smallest, o.smallest);
    KeyOrder(o.largest, h.largest, g.smallest);
  }

  lemma RelocatedSorted(c: Compaction, v: Version, v': Version, outs: seq<File>, bound: nat)
    requires ValidVersion(v, bound) && ClosedInputs(c, v) && Relocated(c, v, v', outs) && FromInputs(c, outs)
    ensures AllValid(v') && SortedLevels(v')
  {
    forall l, f | 0 <= l < NUM_LEVELS && f in v'[l] ensures ValidFile(f) {
      assert f in v[l] || f in outs;
    }
    if c.level > 0 {
      SortedDisjoint(v[c.level]);
      DisjointSorted(v'[c.level]);
    }
    OutputLevelDisjoint(c, v, v', outs);
    DisjointSorted(v'[c.level + 1]);
  }

  lemma OutputLevelDisjoint(c: Compaction, v: Version, v': Version, outs: seq<File>)
    requires AllValid(v) && SortedLevels(v) && ClosedInputs(c, v) && Relocated(c, v, v', outs) && FromInputs(c, outs)
    ensures Disjoint(v'[c.level + 1])
  {
    SortedDisjoint(v[c.level + 1]);
    SortedDisjoint(outs);
    forall g, h | g in v'[c.level + 1] && h in v'[c.level + 1] ensures g == h || FileBefore(g, h) || FileBefore(h, g) {
      if g in outs && h !in outs {
        OutputBesides(c, v, h, g);
      } else if h in outs && g !in outs {
        OutputBesides(c, v, g, h);
      }
    }
  }

  /** An input entry is newer than whatever lies below level + 1, and older
      than whatever stays above it. */
  lemma InputOrder(c: Compaction, v: Version, bound: nat, f: File, l: nat, g: File)
    requires ValidVersion(v, bound) && ClosedInputs(c, v) && c.Input(f)
    requires l < NUM_LEVELS && g in v[l]
    ensures l > c.level + 1 ==> NewerThan(f.entries, g.entries)
    ensures l <= c.level && g !in c.in0 ==> NewerThan(g.entries, f.entries)
  {
    var lf := if f in c.in0 then c.level else c.level + 1;
    assert f in v[lf];
    if l < lf {
      assert Above(l, g, lf, f);
    } else if l > c.level + 1 {
      assert Above(lf, f, l, g);
    }
  }

  lemma RelocatedPair(c: Compaction, v: Version, v': Version, outs: seq<File>, bound: nat, l1: nat, g: File, l2: nat,
    h: File, e: Entry, x: Entry)
    requires ValidVersion(v, bound) && ClosedInputs(c, v) && Relocated(c, v, v', outs) && FromInputs(c, outs)
    requires l1 < NUM_LEVELS && l2 < NUM_LEVELS && g in v'[l1] && h in v'[l2] && Above(l1, g, l2, h)
    requires e in g.entries && x in h.entries && e.k.user == x.k.user
    ensures e.k.sn > x.k.sn
  {
    if g in v[l1] && h in v[l2] {
      assert NewerThan(g.entries, h.entries);
    } else if g in v[l1] {
      assert InputHas(c, x);
      var f :| c.Input(f) && x in f.entries;
      if l1 == c.level {
        InputOrder(c, v, bound, f, l1, g);
      } else {
        AboveInput(c, v, bound, f, l1, g);
      }
    } else {
      assert InputHas(c, e);
      var f :| c.Input(f) && e in f.entries;
      InputOrder(c, v, bound, f, l2, h);
    }
  }

  lemma RelocatedOrder(c: Compaction, v: Version, v': Version, outs: seq<File>, bound: nat)
    requires ValidVersion(v, bound) && ClosedInputs(c, v) && Relocated(c, v, v', outs) && FromInputs(c, outs)
    ensures NewestOnTop(v')
  {
    forall l1, l2, g, h | 0 <= l1 < NUM_LEVELS && 0 <= l2 < NUM_LEVELS && g in v'[l1] && h in v'[l2]
      && Above(l1, g, l2, h)
      ensures NewerThan(g.entries, h.entries)
    {
      forall e, x | e in g.entries && x in h.entries && e.k.user == x.k.user ensures e.k.sn > x.k.sn {
        RelocatedPair(c, v, v', outs, bound, l1, g, l2, h, e, x);
      }
    }
  }

  lemma AboveInput(c: Compaction, v: Version, bound: nat, f: File, l: nat, g: File)
    requires ValidVersion(v, bound) && ClosedInputs(c, v) && c.Input(f)
    requires l < c.level && g in v[l]
    ensures NewerThan(g.entries, f.entries)
  {
    var lf := if f in c.in0 then c.level else c.level + 1;
    assert f in v[lf] && Above(l, g, lf, f);
  }

  lemma RelocatedMemOrder(c: Compaction, v: Version, v': Version, outs: seq<File>, es: seq<Entry>)
    requires ClosedInputs(c, v) && Relocated(c, v, v', outs) && FromInputs(c, outs)
    requires forall l, f | 0 <= l < NUM_LEVELS && f in v[l] :: NewerThan(es, f.entries)
    ensures forall l, f | 0 <= l < NUM_LEVELS && f in v'[l] :: NewerThan(es, f.entries)
  {
    forall l, f, x | 0 <= l < NUM_LEVELS && f in v'[l] && x in f.entries
      ensures exists k, g :: 0 <= k < NUM_LEVELS && g in v[k] && x in g.entries
    {
      InputOrKept(c, v, v', outs, l, f, x);
    }
  }

  /** Nothing new appears: an entry of v' was in v. */
  lemma InputOrKept(c: Compaction, v: Version, v': Version, outs: seq<File>, l: nat, f: File, x: Entry)
    requires ClosedInputs(c, v) && Relocated(c, v, v', outs) && FromInputs(c, outs)
    requires l < NUM_LEVELS && f in v'[l] && x in f.entries
    ensures exists k, g :: 0 <= k < NUM_LEVELS && g in v[k] && x in g.entries
  {
    if f in v[l] {
    } else {
      assert InputHas(c, x);
      var i :| c.Input(i) && x in i.entries;
      var k := if i in c.in0 then c.level else c.level + 1;
      assert i in v[k];
    }
  }

  // ---- reads ----

  /** The newest input entry of a key visible at the compaction's snapshot. */
  lemma {:induction false} TopVisible(c: Compaction, e: Entry) returns (top: Entry)
    requires InputHas(c, e) && e.k.sn <= c.snap
    ensures InputHas(c, top) && top.k.user == e.k.user && e.k.sn <= top.k.sn <= c.snap && !Hidden(c, top)
    ensures top == e || e.k.sn < top.k.sn
    decreases c.snap - e.k.sn
  {
    if x :| HiddenBy(c, e, x) {
      top := TopVisible(c, x);
    } else {
      top := e;
    }
  }

  /** Where an entry older than a dropped tombstone of its key can survive: only
      in a level + 1 file left behind after the tombstone's file. */
  lemma UnderTombstone(c: Compaction, v: Version, bound: nat, top: Entry, f: File, l: nat, g: File, e: Entry)
    requires ValidVersion(v, bound) && ClosedInputs(c, v) && BaseStaysBase(c, v)
    requires c.Input(f) && top in f.entries && ObsoleteTombstone(c, top)
    requires l < NUM_LEVELS && g in v[l] && e in g.entries && e.k.user == top.k.user
    requires (l == c.level ==> g !in c.in0) && (l == c.level + 1 ==> g !in c.in1)
    ensures e.k.sn >= top.k.sn || (l == c.level + 1 && FileBefore(f, g) && f in c.in1)
  {
    assert InputHas(c, top);
    if l < c.level {
      AboveInput(c, v, bound, f, l, g);
    } else if l == c.level {
      InputOrder(c, v, bound, f, l, g);
    } else if l == c.level + 1 {
      BesideTombstone(c, v, top, f, g, e);
    }
  }

  lemma BesideTombstone(c: Compaction, v: Version, top: Entry, f: File, g: File, e: Entry)
    requires AllValid(v) && ClosedInputs(c, v) && c.Input(f) && top in f.entries
    requires g in v[c.level + 1] && g !in c.in1 && e in g.entries && e.k.user == top.k.user
    ensures e.k.sn >= top.k.sn || (FileBefore(f, g) && f in c.in1)
  {
    InputsAreFiles(c, v, f);
    assert ValidFile(g);
    FileBounds(f, top);
    FileBounds(g, e);
    KeyOrder(e.k, g.largest, f.smallest);
    KeyOrder(e.k, f.smallest, top.k);
    assert FileBefore(g, f) || FileBefore(f, g);
  }

  /** Below a tombstone the compaction drops, no older entry of the key
      survives. */
  lemma NothingUnderTombstone(c: Compaction, v: Version, bound: nat, top: Entry, l: nat, g: File, e: Entry)
    requires ValidVersion(v, bound) && ValidInputs(c, v)
    requires InputHas(c, top) && ObsoleteTombstone(c, top)
    requires l < NUM_LEVELS && g in v[l] && e in g.entries && e.k.user == top.k.user
    requires (l == c.level ==> g !in c.in0) && (l == c.level + 1 ==> g !in c.in1)
    ensures e.k.sn >= top.k.sn
  {
    var f :| c.Input(f) && top in f.entries;
    UnderTombstone(c, v, bound, top, f, l, g, e);
    InputsAreFiles(c, v, f);
    FileBounds(f, top);
    FileBounds(g, e);
  }

  ghost predicate Dropped(c: Compaction, e: Entry) {
    InputHas(c, e) && !Kept(c, e)
  }

  /** Whatever leaves the version was dropped by the compaction loop. */
  lemma OnlyDropped(c: Compaction, v: Version, v': Version, outs: seq<File>, reserved: seq<nat>, e: Entry)
    requires ClosedInputs(c, v) && Relocated(c, v, v', outs) && Outputs(c, reserved, outs)
    requires VersionHas(v, e) && !VersionHas(v', e)
    ensures Dropped(c, e)
  {
    var l, f :| 0 <= l < NUM_LEVELS && f in v[l] && e in f.entries;
    if f in v'[l] {
      assert VersionHas(v', e);
    } else {
      assert c.Input(f);
      assert forall o | o in outs :: o in v'[c.level + 1];
    }
  }

  lemma InputIsStored(c: Compaction, v: Version, x: Entry)
    requires ClosedInputs(c, v) && InputHas(c, x)
    ensures VersionHas(v, x)
  {
    var f :| c.Input(f) && x in f.entries;
    var lf := if f in c.in0 then c.level else c.level + 1;
    assert f in v[lf];
  }

  lemma OutputIsStored(c: Compaction, v: Version, v': Version, reserved: seq<nat>, outs: seq<File>, x: Entry)
    requires Relocated(c, v, v', outs) && Outputs(c, reserved, outs) && Kept(c, x)
    ensures VersionHas(v', x)
  {
    var o :| o in outs && x in o.entries;
    assert o in v'[c.level + 1];
  }

  /** A tombstone the loop drops hid nothing that survives in the version. */
  lemma SurvivorsAreNewer(c: Compaction, v: Version, v': Version, bound: nat, reserved: seq<nat>, outs: seq<File>,
    top: Entry, e: Entry)
    requires ValidVersion(v, bound) && ValidInputs(c, v)
    requires Relocated(c, v, v', outs) && Outputs(c, reserved, outs)
    requires InputHas(c, top) && ObsoleteTombstone(c, top)
    requires VersionHas(v', e) && e.k.user == top.k.user
    ensures e.k.sn >= top.k.sn
  {
    var l, g :| 0 <= l < NUM_LEVELS && g in v'[l] && e in g.entries;
    if g in outs && l == c.level + 1 {
      assert Kept(c, e) && !HiddenBy(c, e, top);
    } else {
      NothingUnderTombstone(c, v, bound, top, l, g, e);
    }
  }

  lemma InstallSubset(c: Compaction, v: Version, v': Version, outs: seq<File>)
    requires ClosedInputs(c, v) && Relocated(c, v, v', outs) && FromInputs(c, outs)
    ensures forall e | VersionHas(v', e) :: VersionHas(v, e)
  {
    forall e | VersionHas(v', e) ensures VersionHas(v, e) {
      var l, f :| 0 <= l < NUM_LEVELS && f in v'[l] && e in f.entries;
      InputOrKept(c, v, v', outs, l, f, e);
    }
  }

  /** Why a dropped entry x cannot have been the answer a survivor e now
      gives: something newer, visible at the snapshot, is still there. */
  lemma DroppedIsShadowed(c: Compaction, v: Version, v': Version, bound: nat, reserved: seq<nat>, outs: seq<File>,
    x: Entry, e: Entry)
    requires ValidVersion(v, bound) && ValidInputs(c, v)
    requires Relocated(c, v, v', outs) && Outputs(c, reserved, outs)
    requires VersionHas(v, x) && !VersionHas(v', x)
    requires e.k.user == x.k.user
    requires VersionHas(v', e) || forall y | VersionHas(v, y) && y.k.user == e.k.user :: e.k.sn > y.k.sn
    ensures e.k.sn >= x.k.sn || exists y :: VersionHas(v', y) && y.k.user == x.k.user && x.k.sn < y.k.sn <= c.snap
  {
    OnlyDropped(c, v, v', outs, reserved, x);
    var top := TopVisible(c, x);
    if Kept(c, top) {
      OutputIsStored(c, v, v', reserved, outs, top);
    } else if VersionHas(v', e) {
      SurvivorsAreNewer(c, v, v', bound, reserved, outs, top, e);
    }
  }

  lemma NewestSurvives(c: Compaction, v: Version, v': Version, reserved: seq<nat>, outs: seq<File>, over: iset<Entry>,
    u: UserKey, t: nat, e: Entry)
    requires ClosedInputs(c, v) && Relocated(c, v, v', outs) && Outputs(c, reserved, outs) && c.snap <= t
    requires IsNewest(over + VersionEntries(v), u, t, e) && e.k.kind.Put?
    ensures e in over + VersionEntries(v')
  {
    if e !in over && !VersionHas(v', e) {
      OnlyDropped(c, v, v', outs, reserved, e);
      var x :| HiddenBy(c, e, x);
      InputIsStored(c, v, x);
      assert x in over + VersionEntries(v);
      assert Visible(x, u, t);
    }
  }

  lemma NewestStays(c: Compaction, v: Version, v': Version, bound: nat, reserved: seq<nat>, outs: seq<File>,
    over: iset<Entry>, u: UserKey, t: nat, e: Entry)
    requires ValidVersion(v, bound) && ValidInputs(c, v)
    requires Relocated(c, v, v', outs) && Outputs(c, reserved, outs) && c.snap <= t
    requires forall e, y | e in over && VersionHas(v, y) && y.k.user == e.k.user :: e.k.sn > y.k.sn
    requires forall y | VersionHas(v', y) :: VersionHas(v, y)
    requires IsNewest(over + VersionEntries(v'), u, t, e)
    ensures IsNewest(over + VersionEntries(v), u, t, e)
  {
    var P, Q := over + VersionEntries(v), over + VersionEntries(v');
    forall x | x in P && Visible(x, u, t) ensures x.k.sn <= e.k.sn {
      if x !in Q {
        DroppedIsShadowed(c, v, v', bound, reserved, outs, x, e);
        if y :| VersionHas(v', y) && y.k.user == x.k.user && x.k.sn < y.k.sn <= c.snap {
          assert y in Q && Visible(y, u, t);
        }
      }
    }
  }

  /** Compaction preserves every read the oldest snapshot can ask for. `over`
      holds the entries above the version: those of the memtables. */
  lemma InstallLookup(c: Compaction, v: Version, v': Version, bound: nat, reserved: seq<nat>, outs: seq<File>,
    over: iset<Entry>, u: UserKey, t: nat)
    requires ValidVersion(v, bound) && ValidInputs(c, v)
    requires Relocated(c, v, v', outs) && Outputs(c, reserved, outs)
    requires forall e, y | e in over && VersionHas(v, y) && y.k.user == e.k.user :: e.k.sn > y.k.sn
    requires DistinctSequences(over + VersionEntries(v))
    requires c.snap <= t
    ensures Lookup(over + VersionEntries(v'), u, t) == Lookup(over + VersionEntries(v), u, t)
  {
    var P, Q := over + VersionEntries(v), over + VersionEntries(v');
    OutputsFromInputs(c, reserved, outs);
    InstallSubset(c, v, v', outs);
    assert forall e | e in Q :: e in P;
    forall e | IsNewest(P, u, t, e) && e.k.kind.Put? ensures e in Q {
      NewestSurvives(c, v, v', reserved, outs, over, u, t, e);
    }
    forall e | IsNewest(Q, u, t, e) ensures IsNewest(P, u, t, e) {
      NewestStays(c, v, v', bound, reserved, outs, over, u, t, e);
    }
    LookupAgree(P, Q, u, t);
  }

  lemma OutputsFromInputs(c: Compaction, reserved: seq<nat>, outs: seq<File>)
    requires Outputs(c, reserved, outs)
    ensures FromInputs(c, outs)
  {
    forall o, e | o in outs && e in o.entries ensures InputHas(c, e) {
      assert Kept(c, e);
    }
  }

  // ---- the two steps ----

  ghost function MemEntries(s: State): iset<Entry> {
    iset e | e in s.mem || (s.imm.Some? && e in s.imm.value)
  }

  lemma DbSplit(s: State)
    ensures DbEntries(s) == MemEntries(s) + VersionEntries(s.version)
  {}

  lemma InstallReads(s: State, s': State, outs: seq<File>)
    requires Inv(s) && s.running.Some? && Relocated(s.running.value, s.version, s'.version, outs)
      && Outputs(s.running.value, s.reserved, outs)
    requires s'.mem == s.mem && s'.imm == s.imm && s'.hist == s.hist
    requires s.horizon <= s'.horizon && s.running.value.snap <= s'.horizon
    ensures ExactReads(s')
  {
    var c := s.running.value;
    DbSplit(s);
    DbSplit(s');
    MemAboveVersion(s);
    forall u, t: nat | s'.horizon <= t ensures Lookup(DbEntries(s'), u, t) == Lookup(s'.hist, u, t) {
      InstallLookup(c, s.version, s'.version, s.nextFile, s.reserved, outs, MemEntries(s), u, t);
    }
  }

  lemma MemAboveVersion(s: State)
    requires MemOrder(s)
    ensures forall e, y | e in MemEntries(s) && VersionHas(s.version, y) && y.k.user == e.k.user :: e.k.sn > y.k.sn
  {}

  lemma OutputNumbers(reserved: seq<nat>, c: Compaction, outs: seq<File>)
    requires Outputs(c, reserved, outs)
    ensures forall f, g | f in outs && g in outs && f.number == g.number :: f == g
    ensures forall f | f in outs :: f.number in reserved
  {}

  lemma InstallNumbers(c: Compaction, v: Version, v': Version, outs: seq<File>, reserved: seq<nat>, bound: nat)
    requires DistinctNumbers(v, bound) && ReservedNumbers(reserved, v, bound)
    requires Relocated(c, v, v', outs)
    requires forall f, g | f in outs && g in outs && f.number == g.number :: f == g
    requires forall f | f in outs :: f.number in reserved
    ensures DistinctNumbers(v', bound)
  {
    forall l1, l2, f, g | 0 <= l1 < NUM_LEVELS && 0 <= l2 < NUM_LEVELS && f in v'[l1] && g in v'[l2]
      && f.number == g.number
      ensures l1 == l2 && f == g
    {
      SurvivorOrOutput(c, v, v', outs, reserved, bound, l1, f);
      SurvivorOrOutput(c, v, v', outs, reserved, bound, l2, g);
    }
    forall l, f | 0 <= l < NUM_LEVELS && f in v'[l] ensures f.number < bound {
      SurvivorOrOutput(c, v, v', outs, reserved, bound, l, f);
    }
  }

  lemma SurvivorOrOutput(c: Compaction, v: Version, v': Version, outs: seq<File>, reserved: seq<nat>, bound: nat,
    l: nat, f: File)
    requires ReservedNumbers(reserved, v, bound) && DistinctNumbers(v, bound) && Relocated(c, v, v', outs)
    requires (forall o | o in outs :: o.number in reserved) && l < NUM_LEVELS && f in v'[l]
    ensures f.number < bound
    ensures (f in v[l] && f.number !in reserved) || (f in outs && l == c.level + 1 && f.number in reserved)
  {}

  lemma RelocatedRest(s: State, s': State, c: Compaction, outs: seq<File>)
    requires Inv(s) && ClosedInputs(c, s.version) && Relocated(c, s.version, s'.version, outs) && FromInputs(c, outs)
    requires s'.mem == s.mem && s'.imm == s.imm && s'.hist == s.hist && s'.lastSeq == s.lastSeq
    ensures MemOrder(s') && History(s')
  {
    var v, v' := s.version, s'.version;
    RelocatedMemOrder(c, v, v', outs, s.mem);
    if s.imm.Some? {
      RelocatedMemOrder(c, v, v', outs, s.imm.value);
    }
    InstallSubset(c, v, v', outs);
    assert forall e | DbHas(s', e) :: DbHas(s, e);
  }

  lemma InstallVersion(c: Compaction, v: Version, v': Version, outs: seq<File>, reserved: seq<nat>, bound: nat)
    requires ValidVersion(v, bound) && ReservedNumbers(reserved, v, bound) && ClosedInputs(c, v)
    requires Relocated(c, v, v', outs) && Outputs(c, reserved, outs)
    ensures ValidVersion(v', bound) && FromInputs(c, outs)
  {
    OutputsFromInputs(c, reserved, outs);
    RelocatedSorted(c, v, v', outs, bound);
    RelocatedOrder(c, v, v', outs, bound);
    OutputNumbers(reserved, c, outs);
    InstallNumbers(c, v, v', outs, reserved, bound);
  }

  lemma InstallKeeps(s: State, s': State, outs: seq<File>)
    requires Inv(s) && Install(s, s', outs)
    ensures Inv(s')
  {
    var c := s.running.value;
    ReplacedRelocates(c, s.version, s'.version, outs, s.nextFile);
    InstallVersion(c, s.version, s'.version, outs, s.reserved, s.nextFile);
    RelocatedRest(s, s', c, outs);
    InstallReads(s, s', outs);
  }

  lemma MoveContents(c: Compaction, v: Version, v': Version)
    requires Relocated(c, v, v', c.in0) && ClosedInputs(c, v) && c.in1 == []
    ensures forall e :: VersionHas(v', e) <==> VersionHas(v, e)
  {
    forall e ensures VersionHas(v', e) <==> VersionHas(v, e) {
      if l, f :| 0 <= l < NUM_LEVELS && f in v[l] && e in f.entries {
        assert f in v'[l] || f in v'[c.level + 1];
      }
      if l, f :| 0 <= l < NUM_LEVELS && f in v'[l] && e in f.entries {
        assert f in v[l] || f in v[c.level];
      }
    }
  }

  lemma MoveNumbers(c: Compaction, v: Version, v': Version, reserved: seq<nat>, bound: nat)
    requires DistinctNumbers(v, bound) && ReservedNumbers(reserved, v, bound)
    requires c.level + 1 < NUM_LEVELS && forall f | f in c.in0 :: f in v[c.level]
    requires c.in1 == [] && Relocated(c, v, v', c.in0)
    ensures DistinctNumbers(v', bound) && ReservedNumbers(reserved, v', bound)
  {
    forall l, f | 0 <= l < NUM_LEVELS && f in v'[l]
      ensures (f in v[l] && !(f in c.in0 && l == c.level)) || (f in v[c.level] && f in c.in0 && l == c.level + 1)
      ensures f.number < bound && f.number !in reserved
    {
      if f !in v[l] {
        assert f in v[c.level];
      }
    }
  }

  lemma MoveVersion(c: Compaction, v: Version, v': Version, bound: nat)
    requires ValidVersion(v, bound) && ClosedInputs(c, v) && c.in1 == [] && |c.in0| == 1
    requires Relocated(c, v, v', c.in0)
    ensures AllValid(v') && SortedLevels(v') && NewestOnTop(v') && FromInputs(c, c.in0)
  {
    forall f | f in c.in0 ensures ValidFile(f) {
      InputsAreFiles(c, v, f);
    }
    RelocatedSorted(c, v, v', c.in0, bound);
    RelocatedOrder(c, v, v', c.in0, bound);
  }

  lemma MoveKeeps(s: State, s': State, c: Compaction)
    requires Inv(s) && Move(s, s', c)
    ensures Inv(s')
  {
    ReplacedRelocates(c, s.version, s'.version, c.in0, s.nextFile);
    MoveVersion(c, s.version, s'.version, s.nextFile);
    MoveNumbers(c, s.version, s'.version, s.reserved, s.nextFile);
    RelocatedRest(s, s', c, c.in0);
    MoveDb(s, s', c);
  }

  lemma MoveDb(s: State, s': State, c: Compaction)
    requires Relocated(c, s.version, s'.version, c.in0) && ClosedInputs(c, s.version) && c.in1 == []
    requires s'.mem == s.mem && s'.imm == s.imm
    ensures DbEntries(s') == DbEntries(s)
  {
    MoveContents(c, s.version, s'.version);
    forall e ensures DbHas(s', e) <==> DbHas(s, e) {}
  }

  // ---- what is dropped ----

  ghost function InputEntries(c: Compaction): iset<Entry> {
    iset e | InputHas(c, e)
  }

  /** An input entry is dropped as hidden exactly when no read at the oldest snapshot or
      later could find it among the inputs. */
  lemma HiddenMeans(c: Compaction, e: Entry)
    requires InputHas(c, e)
    ensures Hidden(c, e) <==> forall t: nat | c.snap <= t :: !IsNewest(InputEntries(c), e.k.user, t, e)
  {
    if x :| HiddenBy(c, e, x) {
      forall t: nat | c.snap <= t ensures !IsNewest(InputEntries(c), e.k.user, t, e) {
        assert x in InputEntries(c) && Visible(x, e.k.user, t);
      }
    } else {
      var t := if e.k.sn < c.snap then c.snap else e.k.sn;
      forall x | x in InputEntries(c) && Visible(x, e.k.user, t) ensures x.k.sn <= e.k.sn {
        assert !HiddenBy(c, e, x);
      }
      assert IsNewest(InputEntries(c), e.k.user, t, e);
    }
  }

  /** What a compaction keeps: what some read that is still possible could find, but not
      a tombstone that all such reads see and under which no deeper level can hold the
      key. */
  lemma KeptMeans(c: Compaction, e: Entry)
    ensures Kept(c, e) <==>
      && e in InputEntries(c) && (exists t: nat :: c.snap <= t && IsNewest(InputEntries(c), e.k.user, t, e))
      && (e.k.kind.Deletion? && e.k.sn <= c.snap ==>
        exists l, f :: c.level + 2 <= l < NUM_LEVELS && f in c.input[l] && UserOverlap(f, e.k.user, e.k.user))
  {
    if InputHas(c, e) {
      HiddenMeans(c, e);
    }
  }
}
