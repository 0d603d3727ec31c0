/** Flushing the immutable memtable keeps the engine's invariant, also in the
    middle of a picked compaction. */
module FlushProofs {
  import opened Options
  import opened Keys
  import opened Versions
  import opened Engine

  /** f joins `level`; everything else is unchanged. */
  ghost predicate Added(v: Version, v': Version, level: nat, f: File) {
    && level < NUM_LEVELS
    && SortedBySmallest(v'[level])
    && (forall g :: g in v'[level] <==> g in v[level] || g == f)
    && forall l | 0 <= l < NUM_LEVELS && l != level :: v'[l] == v[l]
  }

  ghost predicate NewerThanVersion(es: seq<Entry>, v: Version) {
    forall l, g | 0 <= l < NUM_LEVELS && g in v[l] :: NewerThan(es, g.entries)
  }

  lemma Apart(f: File, g: File)
    requires ValidFile(f) && ValidFile(g) && !UserOverlap(g, f.smallest.user, f.largest.user)
    ensures FileBefore(f, g) || FileBefore(g, f)
    ensures forall e, x | e in f.entries && x in g.entries :: e.k.user != x.k.user
  {
    forall e, x | e in f.entries && x in g.entries ensures e.k.user != x.k.user {
      FileBounds(f, e);
      FileBounds(g, x);
    }
  }

  lemma FlushSorted(v: Version, v': Version, level: nat, f: File, bound: nat)
    requires ValidVersion(v, bound) && ValidFile(f) && Added(v, v', level, f)
    requires FlushLevel(v, f.smallest.user, f.largest.user, level)
    ensures AllValid(v') && SortedLevels(v')
  {
    if level > 0 {
      forall g, h | g in v'[level] && h in v'[level] ensures g == h || FileBefore(g, h) || FileBefore(h, g) {
        if g == f && h != f {
          Apart(f, h);
        } else if h == f && g != f {
          Apart(f, g);
        } else if g != f {
          SortedDisjoint(v[level]);
        }
      }
      DisjointSorted(v'[level]);
    }
  }

  lemma FlushOrder(v: Version, v': Version, level: nat, f: File, bound: nat)
    requires ValidVersion(v, bound) && ValidFile(f) && Added(v, v', level, f) && f.number == bound
    requires FlushLevel(v, f.smallest.user, f.largest.user, level)
    requires NewerThanVersion(f.entries, v)
    ensures NewestOnTop(v')
  {
    forall l1, l2, g, h | 0 <= l1 < NUM_LEVELS && 0 <= l2 < NUM_LEVELS && g in v'[l1] && h in v'[l2]
      && Above(l1, g, l2, h)
      ensures NewerThan(g.entries, h.entries)
    {
      if l1 == level && g == f {
        assert h != f || l2 != level;
        assert h in v[l2];
      } else if l2 == level && h == f {
        assert g in v[l1];
        assert l1 < level;
        Apart(f, g);
      }
    }
  }

  lemma FlushNumbers(v: Version, v': Version, level: nat, f: File, bound: nat, reserved: seq<nat>)
    requires DistinctNumbers(v, bound) && ReservedNumbers(reserved, v, bound) && Added(v, v', level, f)
      && f.number == bound
    ensures DistinctNumbers(v', bound + 1) && ReservedNumbers(reserved, v', bound + 1)
  {}

  lemma FlushVersion(v: Version, v': Version, level: nat, f: File, bound: nat, reserved: seq<nat>)
    requires ValidVersion(v, bound) && ReservedNumbers(reserved, v, bound)
    requires ValidFile(f) && Added(v, v', level, f) && f.number == bound && NewerThanVersion(f.entries, v)
    requires FlushLevel(v, f.smallest.user, f.largest.user, level)
    ensures ValidVersion(v', bound + 1) && ReservedNumbers(reserved, v', bound + 1)
  {
    FlushSorted(v, v', level, f, bound);
    FlushOrder(v, v', level, f, bound);
    FlushNumbers(v, v', level, f, bound, reserved);
  }

  lemma FlushHas(v: Version, v': Version, level: nat, f: File)
    requires Added(v, v', level, f)
    ensures forall e :: VersionHas(v', e) <==> VersionHas(v, e) || e in f.entries
  {
    forall e ensures VersionHas(v', e) <==> VersionHas(v, e) || e in f.entries {
      if l, g :| 0 <= l < NUM_LEVELS && g in v[l] && e in g.entries {
        assert g in v'[l];
      }
      if l, g :| 0 <= l < NUM_LEVELS && g in v'[l] && e in g.entries {
        assert g in v[l] || g == f;
      }
      assert f in v'[level];
    }
  }

  ghost predicate AllBefore(c: Compaction, f: File) {
    forall i | c.Input(i) :: f.largest.user < i.smallest.user
  }

  ghost predicate AllAfter(c: Compaction, f: File) {
    forall i | c.Input(i) :: i.largest.user < f.smallest.user
  }

  lemma FlushSide(c: Compaction, v: Version, level: nat, f: File)
    requires AllValid(v) && ValidFile(f) && c.level + 1 <= level
    requires FlushLevel(v, f.smallest.user, f.largest.user, level)
    requires ClosedInputs(c, v) && GapFree(c)
    ensures AllBefore(c, f) || AllAfter(c, f)
  {
    forall i | c.Input(i) ensures !UserOverlap(i, f.smallest.user, f.largest.user) {
      assert i in v[c.level] || i in v[c.level + 1];
    }
    FileBounds(f, f.entries[0]);
    assert Avoids(c, f.smallest.user, f.largest.user);
  }

  lemma FlushBesideLevel(c: Compaction, v: Version, v': Version, level: nat, f: File)
    requires Added(v, v', level, f) && ClosedInputs(c, v) && NoSplitBoundary(c, v)
    requires ValidFile(f) && AllValid(v) && NewerThanVersion(f.entries, v)
    requires c.level + 1 == level ==> AllBefore(c, f) || AllAfter(c, f)
    ensures ClosedInputs(c, v') && NoSplitBoundary(c, v')
  {
    FileBounds(f, f.entries[0]);
    forall i | c.Input(i) ensures i.smallest.user <= i.largest.user {
      InputsAreFiles(c, v, i);
    }
    forall g | g in v'[c.level + 1] && g !in c.in1 ensures OneSide(c, g) && !UserOverlap(g, c.lo, c.hi) {
      if g == f && level == c.level + 1 {
        assert OneSide(c, f);
      } else {
        assert g in v[c.level + 1];
      }
    }
    forall g, i | g in v'[c.level] && g !in c.in0 && i in c.in0 ensures NewerThan(g.entries, i.entries) {
      assert g in v[c.level] || g == f;
      assert i in v[c.level];
    }
  }

  lemma FlushAvoidsInput(c: Compaction, v: Version, level: nat, f: File, e: Entry)
    requires AllValid(v) && ValidFile(f) && ClosedInputs(c, v) && c.level + 2 <= level
    requires FlushLevel(v, f.smallest.user, f.largest.user, level)
    requires InputHas(c, e)
    ensures forall x | x in f.entries :: x.k.user != e.k.user
  {
    var i :| c.Input(i) && e in i.entries;
    var li := if i in c.in0 then c.level else c.level + 1;
    assert i in v[li];
    InputsAreFiles(c, v, i);
    Apart(f, i);
  }

  lemma FlushBelow(c: Compaction, v: Version, v': Version, level: nat, f: File)
    requires AllValid(v) && ValidFile(f) && Added(v, v', level, f)
    requires FlushLevel(v, f.smallest.user, f.largest.user, level)
    requires ClosedInputs(c, v) && BaseStaysBase(c, v)
    ensures BaseStaysBase(c, v')
  {
    forall e, l, g | InputHas(c, e) && BaseFor(c.input, c.level, e.k.user) && c.level + 2 <= l < NUM_LEVELS
      && g in v'[l]
      ensures forall x | x in g.entries :: x.k.user != e.k.user
    {
      if g == f && l == level {
        FlushAvoidsInput(c, v, level, f, e);
      } else {
        assert g in v[l];
      }
    }
  }

  /** A table flushed beside a picked compaction lands beside its inputs. */
  lemma FlushBesideInputs(c: Compaction, v: Version, v': Version, level: nat, f: File, bound: nat)
    requires ValidVersion(v, bound) && ValidFile(f) && Added(v, v', level, f)
    requires FlushLevel(v, f.smallest.user, f.largest.user, level)
    requires NewerThanVersion(f.entries, v)
    requires ValidInputs(c, v) && c.picked
    ensures ValidInputs(c, v')
  {
    if c.level + 1 == level {
      FlushSide(c, v, level, f);
    }
    FlushBesideLevel(c, v, v', level, f);
    FlushBelow(c, v, v', level, f);
  }

  lemma FlushTable(s: State, f: File, size: nat)
    requires Inv(s) && s.imm.Some? && s.imm.value != [] && f == TableOf(s.nextFile, size, s.imm.value)
    ensures ValidFile(f) && NewerThanVersion(f.entries, s.version)
  {}

  lemma FlushRest(s: State, s': State, level: nat, f: File)
    requires MemOrder(s) && s.imm.Some? && f.entries == s.imm.value
    requires s'.mem == s.mem && s'.imm == None && Added(s.version, s'.version, level, f)
    ensures DbEntries(s') == DbEntries(s) && MemOrder(s')
  {
    FlushHas(s.version, s'.version, level, f);
    forall e ensures DbHas(s', e) <==> DbHas(s, e) {}
    forall l, g | 0 <= l < NUM_LEVELS && g in s'.version[l] ensures NewerThan(s'.mem, g.entries) {
      assert g in s.version[l] || g == f;
    }
  }

  lemma SameEntries(s: State, s': State)
    requires DbEntries(s') == DbEntries(s) && s'.hist == s.hist && s'.lastSeq == s.lastSeq && s'.horizon == s.horizon
    ensures History(s) ==> History(s')
    ensures ExactReads(s) ==> ExactReads(s')
  {
    assert forall e :: DbHas(s', e) <==> e in DbEntries(s');
    assert forall e :: DbHas(s, e) <==> e in DbEntries(s);
  }

  lemma FlushKeeps(s: State, s': State, level: nat, size: nat)
    requires Inv(s) && Flush(s, s', level, size)
    ensures Inv(s')
  {
    if s.imm.value == [] {
      assert DbEntries(s') == DbEntries(s);
      SameEntries(s, s');
    } else {
      var f := TableOf(s.nextFile, size, s.imm.value);
      var v, v' := s.version, s'.version;
      FlushTable(s, f, size);
      FlushVersion(v, v', level, f, s.nextFile, s.reserved);
      FlushRest(s, s', level, f);
      SameEntries(s, s');
      if s.running.Some? {
        FlushBesideInputs(s.running.value, v, v', level, f, s.nextFile);
      }
    }
  }
}
