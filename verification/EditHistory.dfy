/** The version edits of a whole run: no level is given a number twice, so that one
    Builder can replay them all (db/version_set.cc, db/db_impl.cc). */
module EditHistory {
  import opened Options
  import opened Keys
  import opened Versions
  import opened Engine
  import opened EngineRuns
  import opened EngineProofs
  import opened FlushProofs
  import opened CompactionProofs
  import opened Sequences
  import opened DbImpl
  import B = Builders

  ghost predicate WellFormed(es: seq<B.Edit>) {
    forall i | 0 <= i < |es| :: B.ValidEdit(es[i]) && B.DistinctAdds(es[i])
  }

  /** What Builder relies on: an edit adds no number its level has seen before. */
  ghost predicate AddsOnce(es: seq<B.Edit>) {
    forall l | 0 <= l < NUM_LEVELS :: B.AddsAreNew(iset{}, l, es)
  }

  /** Applied one by one to nothing, the edits lead to v. */
  ghost predicate LeadTo(es: seq<B.Edit>, v: Version) {
    forall l | 0 <= l < NUM_LEVELS :: B.ApplyAll(iset{}, l, es) == B.FileISet(v[l])
  }

  ghost predicate Given(es: seq<B.Edit>, l: int, f: File) {
    0 <= l < NUM_LEVELS && f in B.AddedAll(l, es)
  }

  /** A number that was ever given is used up: it names one file, which only ever
      moves down. */
  ghost predicate UsedUp(es: seq<B.Edit>, v: Version, nextFile: nat, reserved: seq<nat>) {
    && (forall l, f | Given(es, l, f) :: f.number < nextFile && f.number !in reserved)
    && (forall l, f, m, g | Given(es, l, f) && 0 <= m < NUM_LEVELS && g in v[m] && g.number == f.number ::
      l <= m && g == f)
    && forall l, f, m, g | Given(es, l, f) && Given(es, m, g) && f.number == g.number :: f == g
  }

  /** es are the edits that made s's version. */
  ghost predicate Traced(s: State, es: seq<B.Edit>) {
    WellFormed(es) && AddsOnce(es) && LeadTo(es, s.version) && UsedUp(es, s.version, s.nextFile, s.reserved)
  }

  // ---- one more edit ----

  lemma OneMore(es: seq<B.Edit>, e: B.Edit)
    ensures (es + [e])[..|es|] == es && forall i | 0 <= i < |es| :: (es + [e])[i] == es[i] && (es + [e])[..i] == es[..i]
  {}

  lemma GivenMore(es: seq<B.Edit>, e: B.Edit, l: int, f: File)
    requires 0 <= l < NUM_LEVELS
    ensures Given(es + [e], l, f) <==> Given(es, l, f) || B.EditAdds(e, l, f)
  {
    OneMore(es, e);
  }

  /** A file joins a level with a number no edit has given, or comes from a level
      above. */
  ghost predicate Joins(v: Version, es: seq<B.Edit>, l: int, f: File) {
    || (forall m, g | Given(es, m, g) :: g.number != f.number)
    || exists m :: 0 <= m < l && m < NUM_LEVELS && f in v[m]
  }

  ghost predicate AllJoin(v: Version, es: seq<B.Edit>, e: B.Edit) {
    forall l, f | 0 <= l < NUM_LEVELS && B.EditAdds(e, l, f) :: Joins(v, es, l, f)
  }

  lemma JoinIsNew(s: State, es: seq<B.Edit>, l: int, f: File, g: File)
    requires Traced(s, es) && 0 <= l < NUM_LEVELS && Joins(s.version, es, l, f) && Given(es, l, g)
    ensures f.number != g.number
  {}

  lemma JoinAddsOnce(s: State, es: seq<B.Edit>, e: B.Edit)
    requires Traced(s, es) && AllJoin(s.version, es, e)
    ensures AddsOnce(es + [e])
  {
    var more := es + [e];
    OneMore(es, e);
    forall l | 0 <= l < NUM_LEVELS ensures B.AddsAreNew(iset{}, l, more) {
      forall i, f, g | 0 <= i < |more| && B.EditAdds(more[i], l, f) && (g in iset{} || g in B.AddedAll(l, more[..i]))
        ensures f.number != g.number {
        if i < |es| {
          assert B.AddsAreNew(iset{}, l, es);
        } else {
          assert Given(es, l, g);
          JoinIsNew(s, es, l, f, g);
        }
      }
    }
  }

  lemma LeadsOn(v: Version, v': Version, es: seq<B.Edit>, e: B.Edit)
    requires LeadTo(es, v) && EditApplied(v, v', e)
    ensures LeadTo(es + [e], v')
  {
    OneMore(es, e);
    forall l | 0 <= l < NUM_LEVELS ensures B.ApplyAll(iset{}, l, es + [e]) == B.FileISet(v'[l]) {
      assert B.ApplyAll(iset{}, l, es) == B.FileISet(v[l]);
      forall f ensures f in B.ApplyOne(B.FileISet(v[l]), l, e) <==> f in v'[l] {}
    }
  }

  // The file of a given number, where the new version has it.
  lemma StillThere(v: Version, v': Version, es: seq<B.Edit>, e: B.Edit, l: int, f: File, m: int, g: File)
    requires EditApplied(v, v', e) && AllJoin(v, es, e) && Given(es, l, f)
    requires forall m, g | 0 <= m < NUM_LEVELS && g in v[m] && g.number == f.number :: l <= m && g == f
    requires 0 <= m < NUM_LEVELS && g in v'[m] && g.number == f.number
    ensures l <= m && g == f
  {
    if !(g in v[m]) {
      assert B.EditAdds(e, m, g) && Joins(v, es, m, g);
    }
  }

  lemma UsedUpMore(s: State, s': State, es: seq<B.Edit>, e: B.Edit)
    requires Traced(s, es) && EditApplied(s.version, s'.version, e) && AllJoin(s.version, es, e)
    requires DistinctNumbers(s'.version, s'.nextFile) && s.nextFile <= s'.nextFile
    requires forall n | n in s'.reserved :: n in s.reserved || n >= s.nextFile
    requires forall l, f | 0 <= l < NUM_LEVELS && f in s'.version[l] :: f.number !in s'.reserved
    ensures UsedUp(es + [e], s'.version, s'.nextFile, s'.reserved)
  {
    var v, v', more := s.version, s'.version, es + [e];
    forall l, f | Given(more, l, f) ensures Given(es, l, f) || (B.EditAdds(e, l, f) && f in v'[l]) {
      GivenMore(es, e, l, f);
    }
    forall l, f, m, g | Given(more, l, f) && 0 <= m < NUM_LEVELS && g in v'[m] && g.number == f.number
      ensures l <= m && g == f {
      if Given(es, l, f) {
        StillThere(v, v', es, e, l, f, m, g);
      }
    }
    forall l, f, m, g | Given(more, l, f) && Given(more, m, g) && f.number == g.number ensures f == g {
      if f in v'[l] && !Given(es, l, f) {
        assert Given(es, m, g) || g in v'[m];
      }
    }
  }

  lemma EditTraced(s: State, s': State, es: seq<B.Edit>, e: B.Edit)
    requires Traced(s, es) && EditApplied(s.version, s'.version, e) && AllJoin(s.version, es, e)
    requires B.ValidEdit(e) && B.DistinctAdds(e)
    requires DistinctNumbers(s'.version, s'.nextFile) && s.nextFile <= s'.nextFile
    requires forall n | n in s'.reserved :: n in s.reserved || n >= s.nextFile
    requires forall l, f | 0 <= l < NUM_LEVELS && f in s'.version[l] :: f.number !in s'.reserved
    ensures Traced(s', es + [e])
  {
    JoinAddsOnce(s, es, e);
    LeadsOn(s.version, s'.version, es, e);
    UsedUpMore(s, s', es, e);
  }

  // ---- the engine's edits ----

  /** CompactMemTable's edit; an empty memtable makes no table. */
  ghost function FlushedEdit(s: State, level: nat, size: nat): B.Edit
    requires s.imm.Some?
  {
    if s.imm.value == [] then B.Edit({}, []) else FlushEdit(level, TableOf(s.nextFile, size, s.imm.value))
  }

  lemma FlushIsEdit(v: Version, v': Version, level: nat, f: File, bound: nat)
    requires ValidVersion(v', bound) && level < NUM_LEVELS && Edited(v[level], iset{}, iset{f}, v'[level])
    requires forall l | 0 <= l < NUM_LEVELS && l != level :: v'[l] == v[l]
    ensures EditApplied(v, v', FlushEdit(level, f))
  {
    LevelIsSorted(v', bound);
    assert forall l, g :: B.EditAdds(FlushEdit(level, f), l, g) <==> l == level && g == f;
  }

  lemma NothingIsEdit(v: Version, bound: nat)
    requires ValidVersion(v, bound)
    ensures EditApplied(v, v, B.Edit({}, []))
  {
    LevelIsSorted(v, bound);
  }

  lemma FlushFits(s: State, s': State, es: seq<B.Edit>, level: nat, size: nat)
    requires Inv(s) && Inv(s') && Traced(s, es) && Flush(s, s', level, size)
    ensures var e := FlushedEdit(s, level, size);
      EditApplied(s.version, s'.version, e) && AllJoin(s.version, es, e) && B.ValidEdit(e) && B.DistinctAdds(e)
  {
    var e := FlushedEdit(s, level, size);
    if s.imm.value == [] {
      NothingIsEdit(s.version, s.nextFile);
    } else {
      var f := TableOf(s.nextFile, size, s.imm.value);
      FlushIsEdit(s.version, s'.version, level, f, s'.nextFile);
      assert forall l, g :: B.EditAdds(e, l, g) <==> l == level && g == f;
    }
  }

  lemma FlushTraced(s: State, s': State, es: seq<B.Edit>, level: nat, size: nat)
    requires Inv(s) && Traced(s, es) && Flush(s, s', level, size)
    ensures Traced(s', es + [FlushedEdit(s, level, size)])
  {
    FlushKeeps(s, s', level, size);
    FlushFits(s, s', es, level, size);
    EditTraced(s, s', es, FlushedEdit(s, level, size));
  }

  lemma ReplacedIsEdit(c: Compaction, v: Version, v': Version, outs: seq<File>, bound: nat)
    requires ValidVersion(v', bound) && Replaced(c, v, v', outs)
    ensures EditApplied(v, v', InstallEdit(c, outs))
  {
    var e := InstallEdit(c, outs);
    LevelIsSorted(v', bound);
    InstallEditFacts(c, outs);
    forall l, f | 0 <= l < NUM_LEVELS
      ensures f in v'[l] <==> (f in v[l] && (l, f.number) !in e.deleted) || B.EditAdds(e, l, f) {
      assert f in FileSet(outs) <==> f in outs;
    }
  }

  lemma InstallTraced(s: State, s': State, es: seq<B.Edit>, outs: seq<File>)
    requires Inv(s) && Traced(s, es) && Install(s, s', outs)
    ensures Traced(s', es + [InstallEdit(s.running.value, outs)])
  {
    var c := s.running.value;
    InstallKeeps(s, s', outs);
    InstallEditFresh(c, s.version, outs);
    InstallEditFacts(c, outs);
    ReplacedIsEdit(c, s.version, s'.version, outs, s'.nextFile);
    EditTraced(s, s', es, InstallEdit(c, outs));
  }

  lemma MoveTraced(s: State, s': State, es: seq<B.Edit>, c: Compaction)
    requires Inv(s) && Traced(s, es) && Move(s, s', c)
    ensures Traced(s', es + [InstallEdit(c, c.in0)])
  {
    MoveKeeps(s, s', c);
    MoveIsFresh(c, s.version, s.nextFile);
    InstallEditFacts(c, c.in0);
    ReplacedIsEdit(c, s.version, s'.version, c.in0, s'.nextFile);
    forall l, f | 0 <= l < NUM_LEVELS && B.EditAdds(InstallEdit(c, c.in0), l, f) ensures Joins(s.version, es, l, f) {
      assert f in s.version[c.level];
    }
    EditTraced(s, s', es, InstallEdit(c, c.in0));
  }

  // ---- whole runs ----

  /** Every other step leaves the version alone. */
  ghost predicate Quiet(s: State, s': State) {
    || (exists ops :: Write(s, s', ops)) || Switch(s, s') || Snapshot(s, s') || (exists i :: Release(s, s', i))
    || (exists c :: Begin(s, s', c)) || Reserve(s, s') || Abandon(s, s')
  }

  /** The edits a step hands to LogAndApply: one, or none. */
  ghost predicate Hands(s: State, s': State, es: seq<B.Edit>) {
    || (exists level, size :: Flush(s, s', level, size) && es == [FlushedEdit(s, level, size)])
    || (exists outs :: Install(s, s', outs) && es == [InstallEdit(s.running.value, outs)])
    || (exists c :: Move(s, s', c) && es == [InstallEdit(c, c.in0)])
    || (Quiet(s, s') && es == [])
  }

  // Numbers are only ever taken.
  ghost predicate Onward(s: State, s': State) {
    && s'.version == s.version && s.nextFile <= s'.nextFile
    && forall n | n in s'.reserved :: n in s.reserved || n >= s.nextFile
  }

  lemma QuietOnward(s: State, s': State)
    requires Quiet(s, s')
    ensures Onward(s, s')
  {}

  lemma OnwardTraced(s: State, s': State, es: seq<B.Edit>)
    requires Traced(s, es) && Onward(s, s')
    ensures Traced(s', es)
  {}

  lemma HandsTraced(s: State, s': State, es: seq<B.Edit>, more: seq<B.Edit>)
    requires Inv(s) && Traced(s, es) && Hands(s, s', more)
    ensures Traced(s', es + more)
  {
    if level, size :| Flush(s, s', level, size) && more == [FlushedEdit(s, level, size)] {
      FlushTraced(s, s', es, level, size);
    } else if outs :| Install(s, s', outs) && more == [InstallEdit(s.running.value, outs)] {
      InstallTraced(s, s', es, outs);
    } else if c :| Move(s, s', c) && more == [InstallEdit(c, c.in0)] {
      MoveTraced(s, s', es, c);
    } else {
      QuietOnward(s, s');
      OnwardTraced(s, s', es);
      assert es + more == es;
    }
  }

  lemma StepHands(s: State, s': State) returns (es: seq<B.Edit>)
    requires Step(s, s')
    ensures Hands(s, s', es)
  {
    if level, size :| Flush(s, s', level, size) {
      es := [FlushedEdit(s, level, size)];
    } else if outs :| Install(s, s', outs) {
      es := [InstallEdit(s.running.value, outs)];
    } else if c :| Move(s, s', c) {
      es := [InstallEdit(c, c.in0)];
    } else {
      es := [];
    }
  }

  /** handed[i] is what the i-th step handed over. */
  ghost predicate Handed(states: seq<State>, handed: seq<seq<B.Edit>>) {
    |handed| == |states| - 1 && forall i | 0 <= i < |handed| :: Hands(states[i], states[i + 1], handed[i])
  }

  lemma {:induction false} RunTraced(states: seq<State>, handed: seq<seq<B.Edit>>, n: nat)
    requires Run(states) && Handed(states, handed) && n < |states|
    ensures Traced(states[n], Concat(handed[..n]))
  {
    if n == 0 {
      NothingTraced(states[0]);
    } else {
      RunTraced(states, handed, n - 1);
      RunInv(states, n - 1);
      assert Hands(states[n - 1], states[n - 1 + 1], handed[n - 1]);
      assert handed[..n][..n - 1] == handed[..n - 1];
      HandsTraced(states[n - 1], states[n], Concat(handed[..n - 1]), handed[n - 1]);
    }
  }

  const NO_FILES: Version := [[], [], [], [], [], [], []]

  lemma NothingTraced(s: State)
    requires s.version == NO_FILES
    ensures Traced(s, [])
  {
    forall l | 0 <= l < NUM_LEVELS
      ensures s.version[l] == [] && B.ApplyAll(iset{}, l, []) == B.FileISet(s.version[l]) {}
  }

  /** In every run the edits satisfy what Builder asks, so that a Builder over all
      of them saves the version the run has reached. */
  lemma RunReplays(states: seq<State>, handed: seq<seq<B.Edit>>, n: nat, l: nat)
    requires Run(states) && Handed(states, handed) && n < |states| && l < NUM_LEVELS
    ensures var es := Concat(handed[..n]);
      && AddsOnce(es)
      && B.Saved(iset{}, B.DeletedAll(l, es), B.AddedAll(l, es)) == B.FileISet(states[n].version[l])
  {
    var es := Concat(handed[..n]);
    RunTraced(states, handed, n);
    assert B.AddsAreNew(iset{}, l, es);
    B.SavedIsFold(iset{}, l, es);
  }

  /** And every run hands over such edits. */
  lemma RunIsHanded(states: seq<State>) returns (handed: seq<seq<B.Edit>>)
    requires Run(states)
    ensures Handed(states, handed)
  {
    handed := HandedFirst(states, |states| - 1);
  }

  lemma {:induction false} HandedFirst(states: seq<State>, n: nat) returns (handed: seq<seq<B.Edit>>)
    requires Run(states) && n < |states|
    ensures |handed| == n && forall i | 0 <= i < n :: Hands(states[i], states[i + 1], handed[i])
  {
    handed := [];
    if n > 0 {
      handed := HandedFirst(states, n - 1);
      assert Step(states[n - 1], states[n - 1 + 1]);
      var last := StepHands(states[n - 1], states[n]);
      handed := handed + [last];
    }
  }

  // ---- what the numbers stand for ----

  ghost predicate NumberedIn(es: seq<B.Edit>, n: nat, f: File) {
    exists l :: Given(es, l, f) && f.number == n
  }

  /** The contents of the table with a number, as the edits have it. */
  ghost function HeldBy(es: seq<B.Edit>, n: nat): seq<Entry> {
    if f :| NumberedIn(es, n, f) then f.entries else []
  }

  lemma HeldByGiven(s: State, es: seq<B.Edit>, l: int, f: File)
    requires Traced(s, es) && Given(es, l, f)
    ensures HeldBy(es, f.number) == f.entries
  {
    assert NumberedIn(es, f.number, f);
  }

  lemma {:induction false} AddedIsGiven(es: seq<B.Edit>, i: nat, l: nat, f: File)
    requires i < |es| && l < NUM_LEVELS && B.EditAdds(es[i], l, f)
    ensures Given(es, l, f)
  {
    var n := |es| - 1;
    if i < n {
      assert es[..n][i] == es[i];
      AddedIsGiven(es[..n], i, l, f);
    }
  }

  // ---- edits applied one at a time ----

  lemma {:induction false} OnlyAdded(l: nat, es: seq<B.Edit>)
    requires l < NUM_LEVELS
    ensures forall f | f in B.ApplyAll(iset{}, l, es) :: Given(es, l, f)
  {
    if es != [] {
      OnlyAdded(l, es[..|es| - 1]);
    }
  }

  /** Each edit of a history that gives no number twice is fresh when its turn
      comes. */
  lemma FreshInTurn(es: seq<B.Edit>, i: nat, v: Version)
    requires WellFormed(es) && AddsOnce(es) && i < |es| && LeadTo(es[..i], v)
    ensures EditIsFresh(v, es[i])
  {
    forall l, f, g | 0 <= l < NUM_LEVELS && B.EditAdds(es[i], l, f) && g in v[l] ensures f.number != g.number {
      OnlyAdded(l, es[..i]);
      assert B.AddsAreNew(iset{}, l, es);
      assert g in B.FileISet(v[l]);
    }
  }
}
