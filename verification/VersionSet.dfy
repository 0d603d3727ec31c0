/** VersionSet's compaction choices (db/version_set.cc): the class keeps the
    current version and, per level, the key where the next compaction starts. */
module VersionSets {
  import opened Options
  import opened Keys
  import opened Versions
  import opened Engine
  import opened Overlaps
  import opened Boundaries
  import opened CompactionPicker

  // ---- which inputs are chosen ----

  /** What SetupOtherInputs looks at: the first choice with its boundary files, the
      files of the next level that meet it, the range in which it searches for more,
      and what it finds there, with boundary files. */
  datatype Course = Course(first: seq<File>, next: seq<File>, wide: Range, grown: seq<File>)

  ghost predicate Leads(fs: seq<File>, fs1: seq<File>, level: nat, start: seq<File>, k: Course) {
    && Chained(fs, start, k.first) && k.next == Meeting(fs1, Span(k.first))
    && (k.next != [] ==> Overlapping(fs, level, Span(k.first + k.next), k.wide, Meeting(fs, k.wide)))
    && (k.next != [] ==> Chained(fs, Meeting(fs, k.wide), k.grown))
  }

  /** The inputs are grown when that adds files of the level and none of the next, and
      the total stays below the limit; and only then. */
  ghost predicate Grown(fs1: seq<File>, limit: nat, k: Course) {
    && k.next != [] && |k.grown| > |k.first| && TotalFileSize(k.next) + TotalFileSize(k.grown) < limit
    && |Meeting(fs1, Span(k.grown))| == |k.next|
  }

  // The compaction's inputs and the files two levels down that it meets.
  ghost predicate Settled(v: Version, limit: nat, k: Course, c: Compaction, grandparents: seq<File>)
    requires c.level + 1 < NUM_LEVELS
  {
    && c.in0 == (if Grown(v[c.level + 1], limit, k) then k.grown else k.first) && c.in1 == k.next
    && grandparents == if c.level + 2 < NUM_LEVELS then Meeting(v[c.level + 2], Span(c.in0 + c.in1)) else []
  }

  // ---- what the selection steps establish ----

  /** in0 is a boundary-complete selection of a level, with its key range. */
  ghost predicate Chosen(fs: seq<File>, level: nat, in0: seq<File>, smallest: IKey, largest: IKey, w: Range, a: nat,
    b: nat) {
    && in0 != [] && NoDuplicates(in0) && (forall f | f in in0 :: f in fs)
    && Selected(fs, level, in0, w, a, b)
    && IsSmallest(in0, smallest) && IsLargest(in0, largest) && NoBoundary(fs, largest)
  }

  ghost predicate GoodLevel(fs: seq<File>, level: nat) {
    AllFilesValid(fs) && ValidRanges(fs) && NoDuplicates(fs) && (level > 0 ==> SortedFiles(fs))
  }

  lemma LargestUnique(ins: seq<File>, k: IKey, m: IKey)
    requires IsLargest(ins, k) && IsLargest(ins, m)
    ensures k == m
  {
    KeyOrder(k, m, k);
  }

  lemma BoundaryKeepsSelected(fs: seq<File>, level: nat, start: seq<File>, files: seq<File>, k: IKey, seed: iset<File>,
    w: Range, a: nat, b: nat, bb: nat)
    requires Extending(fs, start, files, k, seed, a, b, bb) && Selected(fs, level, start, w, a, b)
    requires level > 0 ==> SortedFiles(fs)
    ensures Selected(fs, level, files, w, a, bb)
  {}

  lemma NextLevelGapless(in0: seq<File>, in1: seq<File>, fs: seq<File>, smallest: IKey, largest: IKey)
    requires Gapless(FilesOf(in0)) && IsSmallest(in0, smallest) && IsLargest(in0, largest)
    requires in1 == Meeting(fs, Range(Some(smallest.user), Some(largest.user)))
    requires ValidRanges(in0) && ValidRanges(fs)
    ensures Gapless(FilesOf(in0) + FilesOf(in1))
  {
    MeetingMembers(fs, Range(Some(smallest.user), Some(largest.user)));
    HullOf(in0, smallest, largest);
    GaplessGrows(FilesOf(in0), FilesOf(in0) + FilesOf(in1), smallest.user, largest.user);
  }

  lemma AllAnchored(in0: seq<File>, in1: seq<File>, smallest: IKey, largest: IKey)
    requires IsSmallest(in0 + in1, smallest) && IsLargest(in0 + in1, largest)
    ensures Anchored(FilesOf(in0) + FilesOf(in1), smallest.user, largest.user)
    ensures forall f | f in in0 :: smallest.user <= f.smallest.user && f.largest.user <= largest.user
  {
    HullOf(in0 + in1, smallest, largest);
    assert FilesOf(in0 + in1) == FilesOf(in0) + FilesOf(in1);
  }

  /** Growing in0 to everything that meets the whole input range loses nothing
      and leaves no gap. */
  lemma ExpansionGapless(fs: seq<File>, level: nat, in0: seq<File>, in1: seq<File>, r: Range, w: Range,
    expanded: seq<File>)
    requires ValidRanges(fs) && ValidRanges(in0) && ValidRanges(in1) && r.lo.Some? && r.hi.Some?
    requires Gapless(FilesOf(in0) + FilesOf(in1)) && Anchored(FilesOf(in0) + FilesOf(in1), r.lo.value, r.hi.value)
    requires Overlapping(fs, level, r, w, expanded)
    requires level == 0 ==> Gapless(FilesOf(in0) + FilesOf(in1) + FilesOf(expanded))
    ensures Gapless(FilesOf(in0) + FilesOf(in1) + FilesOf(expanded))
  {
    if level > 0 {
      MeetingMembers(fs, w);
      GaplessGrows(FilesOf(in0) + FilesOf(in1),
        FilesOf(in0) + FilesOf(in1) + FilesOf(expanded), r.lo.value, r.hi.value);
    }
  }

  lemma ExpansionKeeps(fs: seq<File>, in0: seq<File>, r: Range, w: Range, expanded: seq<File>)
    requires r.lo.Some? && r.hi.Some? && w.Covers(r) && expanded == Meeting(fs, w)
    requires forall f | f in in0 ::
      f in fs && r.lo.value <= f.smallest.user && f.largest.user <= r.hi.value && f.smallest.user <= f.largest.user
    ensures forall f | f in in0 :: f in expanded
  {
    MeetingMembers(fs, w);
  }

  lemma WiderRange(in0: seq<File>, expanded: seq<File>, s0: IKey, l0: IKey, s1: IKey, l1: IKey)
    requires IsSmallest(in0, s0) && IsLargest(in0, l0) && IsSmallest(expanded, s1) && IsLargest(expanded, l1)
    requires forall f | f in in0 :: f in expanded
    ensures Range(Some(s1.user), Some(l1.user)).Covers(Range(Some(s0.user), Some(l0.user)))
  {
    HullOf(in0, s0, l0);
    HullOf(expanded, s1, l1);
    var f :| f in in0 && f.smallest == s0;
    var g :| g in in0 && g.largest == l0;
  }

  lemma ChosenIsSetup(c: Compaction, v: Version, bound: nat, smallest: IKey, largest: IKey, w: Range, a: nat, b: nat)
    requires ValidVersion(v, bound) && DistinctSequences(VersionEntries(v)) && c.level + 1 < NUM_LEVELS
    requires Chosen(v[c.level], c.level, c.in0, smallest, largest, w, a, b) && c.lo == smallest.user
      && c.hi == largest.user
    requires c.in1 == Meeting(v[c.level + 1], Range(Some(c.lo), Some(c.hi)))
    requires c.picked ==> Gapless(FilesOf(c.in0) + FilesOf(c.in1))
    ensures ClosedInputs(c, v) && (c.picked ==> GapFree(c))
  {
    ChosenInputsClosed(c, v, bound, largest, smallest, w, a, b);
    if c.picked {
      GaplessInputs(c);
    }
  }

  lemma SomethingMeets(fs: seq<File>, level: nat, r: Range, w: Range, inputs: seq<File>)
    requires Overlapping(fs, level, r, w, inputs)
    ensures inputs == [] <==> forall f | f in fs :: !r.Meets(f)
    ensures forall f | f in inputs :: f in fs
  {
    MeetingMembers(fs, w);
    if inputs == [] {
      assert forall f | f in fs :: r.Meets(f) ==> w.Meets(f) && f in inputs;
    } else {
      assert inputs[0] in Meeting(fs, w);
      if forall f | f in fs :: !r.Meets(f) {
        assert level == 0 ==> Closed(fs, r) && r.Covers(r) && r.Covers(w);
      }
    }
  }

  lemma CutIsSelected(fs: seq<File>, level: nat, r: Range, w: Range, all: seq<File>, n: nat) returns (a: nat, b: nat)
    requires GoodLevel(fs, level) && Overlapping(fs, level, r, w, all) && 0 < n <= |all| && (level == 0 ==> n == |all|)
    ensures Selected(fs, level, all[..n], w, a, b)
  {
    assert all[..|all|] == all;
    a, b := 0, 0;
    if level > 0 {
      a, b := MeetingIsStretch(fs, w);
      b := a + n;
      assert all[..n] == fs[a..b];
    }
  }

  /** AddBoundaryInputs followed by GetRange. */
  method Complete(fs: seq<File>, level: nat, start: seq<File>, ghost seed: iset<File>, ghost w: Range, ghost a: nat,
    ghost b: nat)
    returns (files: seq<File>, smallest: IKey, largest: IKey, ghost bb: nat)
    requires GoodLevel(fs, level) && start != [] && NoDuplicates(start) && (forall f | f in start :: f in fs)
      && Selected(fs, level, start, w, a, b)
    requires forall f | f in seed :: f.smallest.user <= f.largest.user
    ensures Chosen(fs, level, files, smallest, largest, w, a, bb) && start <= files
    ensures Chained(fs, start, files) && smallest == Lowest(files) && largest == Highest(files)
    ensures Gapless(seed + FilesOf(start)) ==> Gapless(seed + FilesOf(files))
  {
    var top;
    files, top, bb := AddBoundaryInputs(fs, start, seed, a, b);
    BoundaryKeepsSelected(fs, level, start, files, top, seed, w, a, b, bb);
    smallest, largest := GetRange(files);
    LargestUnique(files, largest, top);
  }

  method CompleteFirst(fs: seq<File>, level: nat, start: seq<File>, ghost w: Range, ghost a: nat, ghost b: nat)
    returns (files: seq<File>, smallest: IKey, largest: IKey, ghost bb: nat)
    requires GoodLevel(fs, level) && start != [] && NoDuplicates(start) && (forall f | f in start :: f in fs)
      && Selected(fs, level, start, w, a, b)
    ensures Chosen(fs, level, files, smallest, largest, w, a, bb) && (forall f | f in start :: f in files)
    ensures Chained(fs, start, files) && smallest == Lowest(files) && largest == Highest(files)
    ensures Gapless(FilesOf(start)) ==> Gapless(FilesOf(files))
  {
    files, smallest, largest, bb := Complete(fs, level, start, iset{}, w, a, b);
    assert iset{} + FilesOf(start) == FilesOf(start) && iset{} + FilesOf(files) == FilesOf(files);
    forall f | f in start ensures f in files {
      assert f in files[..|start|];
    }
  }

  method Reach(fs: seq<File>, level: nat, in0: seq<File>, in1: seq<File>)
    returns (expanded: seq<File>, ghost w: Range, ghost a: nat, ghost b: nat)
    requires GoodLevel(fs, level) && in0 != [] && (forall f | f in in0 :: f in fs) && ValidRanges(in1)
    ensures expanded != [] && NoDuplicates(expanded) && (forall f | f in expanded :: f in fs)
      && Selected(fs, level, expanded, w, a, b)
    ensures forall f | f in in0 :: f in expanded
    ensures expanded == Meeting(fs, w) && Overlapping(fs, level, Span(in0 + in1), w, expanded)
    ensures Gapless(FilesOf(in0) + FilesOf(in1)) ==> Gapless(FilesOf(in0) + FilesOf(in1) + FilesOf(expanded))
  {
    var allStart, allLimit := GetRange(in0 + in1);
    AllAnchored(in0, in1, allStart, allLimit);
    var r := Range(Some(allStart.user), Some(allLimit.user));
    var found, we := GetOverlappingInputs(fs, level, r, FilesOf(in0) + FilesOf(in1));
    expanded, w := found, we;
    ExpansionKeeps(fs, in0, r, w, expanded);
    MeetingNoDuplicates(fs, w);
    assert in0[0] in in0;
    MeetingMembers(fs, w);
    a, b := SelectOverlapping(fs, level, r, w, expanded);
    if Gapless(FilesOf(in0) + FilesOf(in1)) {
      ExpansionGapless(fs, level, in0, in1, r, w, expanded);
    }
  }

  /** The files of `level` that meet the whole input range, completed. */
  method Widen(fs: seq<File>, level: nat, in0: seq<File>, in1: seq<File>)
    returns (x0: seq<File>, smallest: IKey, largest: IKey, ghost w: Range, ghost a: nat, ghost b: nat)
    requires GoodLevel(fs, level) && in0 != [] && (forall f | f in in0 :: f in fs) && ValidRanges(in1)
    ensures Chosen(fs, level, x0, smallest, largest, w, a, b)
    ensures Overlapping(fs, level, Span(in0 + in1), w, Meeting(fs, w)) && Chained(fs, Meeting(fs, w), x0)
    ensures smallest == Lowest(x0) && largest == Highest(x0)
    ensures forall f | f in in0 :: f in x0
    ensures Gapless(FilesOf(in0) + FilesOf(in1)) ==> Gapless(FilesOf(x0) + FilesOf(in1))
  {
    var expanded, we, ea, eb := Reach(fs, level, in0, in1);
    ghost var S := FilesOf(in0) + FilesOf(in1);
    w, a := we, ea;
    x0, smallest, largest, b := Complete(fs, level, expanded, S, w, ea, eb);
    forall f | f in in0 ensures f in x0 {
      assert f in x0[..|expanded|];
    }
    assert S + FilesOf(x0) == FilesOf(x0) + FilesOf(in1);
  }

  /** The grown selection, and whether it is to be taken. */
  method Grow(fs: seq<File>, fs1: seq<File>, level: nat, in0: seq<File>, in1: seq<File>, limit: nat)
    returns (grown: seq<File>, newStart: IKey, newLimit: IKey, take: bool, ghost w: Range, ghost a: nat, ghost b: nat)
    requires GoodLevel(fs, level) && GoodLevel(fs1, level + 1) && in0 != [] && forall f | f in in0 :: f in fs
    requires in1 != [] && ValidRanges(in1) && in1 == Meeting(fs1, Span(in0))
    ensures Chosen(fs, level, grown, newStart, newLimit, w, a, b)
    ensures newStart == Lowest(grown) && newLimit == Highest(grown) && forall f | f in in0 :: f in grown
    ensures Overlapping(fs, level, Span(in0 + in1), w, Meeting(fs, w)) && Chained(fs, Meeting(fs, w), grown)
    ensures take <==> Grown(fs1, limit, Course(in0, in1, w, grown))
    ensures take ==> Meeting(fs1, Span(grown)) == in1
    ensures Gapless(FilesOf(in0) + FilesOf(in1)) ==> Gapless(FilesOf(grown) + FilesOf(in1))
  {
    grown, newStart, newLimit, w, a, b := Widen(fs, level, in0, in1);
    take := false;
    if |grown| > |in0| && TotalFileSize(in1) + TotalFileSize(grown) < limit {
      EndsAre(in0);
      WiderRange(in0, grown, Lowest(in0), Highest(in0), newStart, newLimit);
      var r1 := Range(Some(newStart.user), Some(newLimit.user));
      var expanded1, _ := GetOverlappingInputs(fs1, level + 1, r1, iset{});
      MeetingGrows(fs1, Span(in0), r1);
      take := |expanded1| == |in1|;
    }
  }

  /** The selection SetupOtherInputs takes: the grown one or the one it had. */
  method Expand(fs: seq<File>, fs1: seq<File>, level: nat, in0: seq<File>, in1: seq<File>, smallest: IKey,
    largest: IKey, limit: nat, ghost w0: Range, ghost a0: nat, ghost b0: nat)
    returns (x0: seq<File>, newStart: IKey, newLimit: IKey, ghost w: Range, ghost a: nat, ghost b: nat, ghost k: Course)
    requires GoodLevel(fs, level) && GoodLevel(fs1, level + 1) && Chosen(fs, level, in0, smallest, largest, w0, a0, b0)
    requires in1 == Meeting(fs1, Span(in0)) && smallest == Lowest(in0) && largest == Highest(in0)
    ensures Chosen(fs, level, x0, newStart, newLimit, w, a, b)
    ensures Meeting(fs1, Span(x0)) == in1 && newStart == Lowest(x0) && newLimit == Highest(x0)
    ensures forall f | f in in0 :: f in x0
    ensures Gapless(FilesOf(in0)) ==> Gapless(FilesOf(x0) + FilesOf(in1))
    ensures k.first == in0 && k.next == in1 && x0 == if Grown(fs1, limit, k) then k.grown else in0
    ensures in1 != [] ==> Overlapping(fs, level, Span(in0 + in1), k.wide, Meeting(fs, k.wide))
    ensures in1 != [] ==> Chained(fs, Meeting(fs, k.wide), k.grown)
  {
    MeetingMembers(fs1, Span(in0));
    x0, newStart, newLimit, w, a, b := in0, smallest, largest, w0, a0, b0;
    k := Course(in0, in1, w0, in0);
    if Gapless(FilesOf(in0)) {
      NextLevelGapless(in0, in1, fs1, smallest, largest);
    }
    if in1 != [] {
      var grown, s1, l1, take, wg, ag, bg := Grow(fs, fs1, level, in0, in1, limit);
      k := Course(in0, in1, wg, grown);
      if take {
        x0, newStart, newLimit, w, a, b := grown, s1, l1, wg, ag, bg;
      }
    }
  }

  /** SetupOtherInputs on the files of two levels. */
  method OtherInputs(fs: seq<File>, fs1: seq<File>, level: nat, start: seq<File>, limit: nat, ghost w0: Range,
    ghost a0: nat, ghost b0: nat)
    returns (x0: seq<File>, in1: seq<File>, smallest: IKey, largest: IKey, ghost w: Range, ghost a: nat, ghost b: nat,
      ghost k: Course)
    requires GoodLevel(fs, level) && GoodLevel(fs1, level + 1)
    requires start != [] && NoDuplicates(start) && (forall f | f in start :: f in fs)
      && Selected(fs, level, start, w0, a0, b0)
    ensures Chosen(fs, level, x0, smallest, largest, w, a, b)
    ensures in1 == Meeting(fs1, Range(Some(smallest.user), Some(largest.user)))
    ensures forall f | f in start :: f in x0
    ensures Leads(fs, fs1, level, start, k) && in1 == k.next && largest == Highest(x0)
    ensures x0 == if Grown(fs1, limit, k) then k.grown else k.first
    ensures Gapless(FilesOf(start)) ==> Gapless(FilesOf(x0) + FilesOf(in1))
  {
    var in0, s0, l0, b1 := CompleteFirst(fs, level, start, w0, a0, b0);
    var found, _ := GetOverlappingInputs(fs1, level + 1, Range(Some(s0.user), Some(l0.user)), iset{});
    in1 := found;
    x0, smallest, largest, w, a, b, k := Expand(fs, fs1, level, in0, in1, s0, l0, limit, w0, a0, b1);
  }

  method Grandparents(v: Version, level: nat, in0: seq<File>, in1: seq<File>, ghost bound: nat) returns (r: seq<File>)
    requires ValidVersion(v, bound) && in0 != []
    ensures r == if level + 2 < NUM_LEVELS then Meeting(v[level + 2], Span(in0 + in1)) else []
  {
    r := [];
    if level + 2 < NUM_LEVELS {
      var allStart, allLimit := GetRange(in0 + in1);
      LevelFiles(v, bound, level + 2);
      var g, _ := GetOverlappingInputs(v[level + 2], level + 2, Range(Some(allStart.user), Some(allLimit.user)),
        iset{});
      r := g;
    }
  }

  // What every compaction choice guarantees about its inputs.
  ghost predicate IsSetup(c: Compaction, v: Version, level: nat, snap: Sequence, picked: bool) {
    && c.level == level && c.snap == snap && c.input == v && c.picked == picked
    && ClosedInputs(c, v) && (picked ==> GapFree(c))
  }

  method SetUp(v: Version, level: nat, start: seq<File>, snap: Sequence, picked: bool, limit: nat, ghost bound: nat,
    ghost w0: Range, ghost a0: nat, ghost b0: nat)
    returns (c: Compaction, grandparents: seq<File>, largest: IKey, ghost k: Course)
    requires ValidVersion(v, bound) && DistinctSequences(VersionEntries(v))
    requires level + 1 < NUM_LEVELS && start != [] && NoDuplicates(start) && (forall f | f in start :: f in v[level])
      && Selected(v[level], level, start, w0, a0, b0)
    requires picked ==> Gapless(FilesOf(start))
    ensures IsSetup(c, v, level, snap, picked) && (forall f | f in start :: f in c.in0) && IsLargest(c.in0, largest)
    ensures Leads(v[level], v[level + 1], level, start, k) && Settled(v, limit, k, c, grandparents)
  {
    LevelFiles(v, bound, level);
    LevelFiles(v, bound, level + 1);
    var x0, in1, smallest, top, w, a, b, kk := OtherInputs(v[level], v[level + 1], level, start, limit, w0, a0, b0);
    k := kk;
    c, largest := Compaction(level, x0, in1, smallest.user, top.user, snap, v, picked), top;
    ChosenIsSetup(c, v, bound, smallest, top, w, a, b);
    grandparents := Grandparents(v, level, x0, in1, bound);
  }

  class VersionSet {
    var current: Version
    var compactPointer: seq<Option<IKey>>
    const maxFileSize: nat

    constructor (maxFileSize: nat)
      ensures Valid() && current == [[], [], [], [], [], [], []] && this.maxFileSize == maxFileSize
    {
      this.maxFileSize := maxFileSize;
      current := [[], [], [], [], [], [], []];
      compactPointer := [None, None, None, None, None, None, None];
    }

    ghost predicate Valid()
      reads this
    {
      |compactPointer| == NUM_LEVELS
    }

    ghost predicate Ready(bound: nat)
      reads this
    {
      Valid() && ValidVersion(current, bound) && DistinctSequences(VersionEntries(current))
    }

    /** SetupOtherInputs: completes a selection of `level` to a compaction whose
        inputs are closed, and gap-free when the selection was. */
    method SetupOtherInputs(level: nat, start: seq<File>, snap: Sequence, picked: bool, ghost bound: nat,
      ghost w0: Range, ghost a0: nat, ghost b0: nat)
      returns (c: Compaction, grandparents: seq<File>, ghost k: Course)
      requires Ready(bound) && level + 1 < NUM_LEVELS && start != [] && NoDuplicates(start) && forall f | f in start ::
        f in current[level]
      requires Selected(current[level], level, start, w0, a0, b0) && (picked ==> Gapless(FilesOf(start)))
      modifies this`compactPointer
      ensures Valid() && IsSetup(c, current, level, snap, picked)
      ensures forall f | f in start :: f in c.in0
      ensures Leads(current[level], current[level + 1], level, start, k)
      ensures Settled(current, 25 * maxFileSize, k, c, grandparents)
      ensures compactPointer == old(compactPointer)[level := compactPointer[level]]
      ensures compactPointer[level].Some? && IsLargest(c.in0, compactPointer[level].value)
    {
      var largest;
      c, grandparents, largest, k := SetUp(current, level, start, snap, picked, 25 * maxFileSize, bound, w0, a0, b0);
      compactPointer := compactPointer[level := Some(largest)];
    }

    /** The file a size-triggered compaction starts from: the first one past
        the level's compaction pointer, or the first one. */
    method NextFile(level: nat) returns (f: File)
      requires Valid() && level < NUM_LEVELS && current[level] != []
      ensures IsNext(current[level], compactPointer[level], f)
    {
      var i := 0;
      while i < |current[level]|
        invariant i <= |current[level]|
        invariant i > 0 ==> compactPointer[level].Some?
        invariant forall j | 0 <= j < i :: AtMost(current[level][j].largest, compactPointer[level].value)
      {
        if compactPointer[level].None? || Less(compactPointer[level].value, current[level][i].largest) {
          f := current[level][i];
          assert compactPointer[level].Some? ==> FirstPast(current[level], compactPointer[level].value, f, i);
          return;
        }
        i := i + 1;
      }
      f := current[level][0];
    }

    /** PickCompaction from the file `f` of `level`, which the compaction score
        (NextFile) or the seek statistics chose. */
    method PickCompaction(level: nat, f: File, snap: Sequence, ghost bound: nat)
      returns (c: Compaction, grandparents: seq<File>, ghost start: seq<File>, ghost k: Course)
      requires Ready(bound) && level + 1 < NUM_LEVELS && f in current[level]
      modifies this`compactPointer
      ensures Valid() && IsSetup(c, current, level, snap, true) && f in c.in0
      ensures StartsWith(current[level], level, f, start)
      ensures Leads(current[level], current[level + 1], level, start, k)
      ensures Settled(current, 25 * maxFileSize, k, c, grandparents)
    {
      LevelFiles(current, bound, level);
      var inputs, w, a, b := StartFrom(current[level], level, f);
      start := inputs;
      c, grandparents, k := SetupOtherInputs(level, inputs, snap, true, bound, w, a, b);
    }

    /** CompactRange over the user keys [begin, end]. */
    method CompactRange(level: nat, begin: Option<UserKey>, end: Option<UserKey>, snap: Sequence, ghost bound: nat)
      returns (c: Option<Compaction>, grandparents: seq<File>, ghost start: seq<File>, ghost k: Course)
      requires Ready(bound) && level + 1 < NUM_LEVELS
      modifies this`compactPointer
      ensures Valid()
      ensures c.None? <==> forall f | f in current[level] :: !Range(begin, end).Meets(f)
      ensures c.Some? ==> IsSetup(c.value, current, level, snap, false)
      ensures StartsIn(current[level], level, Range(begin, end), maxFileSize, start)
      ensures c.Some? ==> Leads(current[level], current[level + 1], level, start, k)
      ensures c.Some? ==> Settled(current, 25 * maxFileSize, k, c.value, grandparents)
    {
      LevelFiles(current, bound, level);
      var inputs, w, a, b := StartRange(current[level], level, Range(begin, end), maxFileSize);
      start, k := inputs, Course([], [], w, []);
      grandparents := [];
      c := None;
      if inputs != [] {
        var d, g, course := SetupOtherInputs(level, inputs, snap, false, bound, w, a, b);
        c, grandparents, k := Some(d), g, course;
      }
    }
  }

  /** The first file that ends past the pointer, or the first one when none does or
      there is no pointer. */
  ghost predicate IsNext(fs: seq<File>, pointer: Option<IKey>, f: File) {
    if pointer.Some? && exists g :: g in fs && Less(pointer.value, g.largest)
    then exists i :: FirstPast(fs, pointer.value, f, i)
    else fs != [] && f == fs[0]
  }

  ghost predicate FirstPast(fs: seq<File>, k: IKey, f: File, i: nat) {
    i < |fs| && fs[i] == f && Less(k, f.largest) && forall j | 0 <= j < i :: AtMost(fs[j].largest, k)
  }

  /** A picked compaction starts from one file; at level 0 from the least range that
      holds it and whatever it meets. */
  ghost predicate StartsWith(fs: seq<File>, level: nat, f: File, start: seq<File>) {
    if level == 0 then exists w :: Overlapping(fs, 0, Span([f]), w, start) else start == [f]
  }

  /** A manual compaction starts from all files that meet the range, above level 0 only
      from the first of them that together reach the limit. */
  ghost predicate StartsIn(fs: seq<File>, level: nat, r: Range, limit: nat, start: seq<File>) {
    exists w, all ::
      && Overlapping(fs, level, r, w, all) && start <= all
      && (start == all || (level > 0 && TotalFileSize(start) >= limit))
      && (level > 0 ==> forall m | 0 < m < |start| :: TotalFileSize(all[..m]) < limit)
      && (all != [] ==> start != [])
  }

  /** The first inputs of PickCompaction: one file, or at level 0 everything
      linked to it by overlaps. */
  method StartFrom(fs: seq<File>, level: nat, f: File)
    returns (inputs: seq<File>, ghost w: Range, ghost a: nat, ghost b: nat)
    requires GoodLevel(fs, level) && f in fs
    ensures f in inputs && NoDuplicates(inputs) && (forall g | g in inputs :: g in fs)
    ensures Selected(fs, level, inputs, w, a, b) && Gapless(FilesOf(inputs)) && StartsWith(fs, level, f, inputs)
  {
    w, a, b := Range(None, None), 0, 0;
    inputs := [f];
    GaplessOne(f);
    assert FilesOf([f]) == iset{f};
    if level == 0 {
      var smallest, largest := GetRange(inputs);
      var r := Range(Some(smallest.user), Some(largest.user));
      var found, wf := GetOverlappingInputs(fs, 0, r, iset{f});
      assert r == Span([f]) && Overlapping(fs, 0, Span([f]), wf, found);
      MeetingMembers(fs, wf);
      MeetingNoDuplicates(fs, wf);
      inputs, w := found, wf;
      assert f in FilesOf(inputs);
      assert iset{f} + FilesOf(inputs) == FilesOf(inputs);
    } else {
      ghost var i :| 0 <= i < |fs| && fs[i] == f;
      assert fs[i..i + 1] == [f];
      a, b := i, i + 1;
    }
  }

  /** How many of the files fit before their total size reaches the limit; the
      file that reaches it is included. */
  method CutAtLimit(files: seq<File>, limit: nat) returns (n: nat)
    requires files != []
    ensures 0 < n <= |files|
    ensures n < |files| ==> TotalFileSize(files[..n]) >= limit
    ensures forall m | 0 < m < n :: TotalFileSize(files[..m]) < limit
  {
    var total := 0;
    n := 0;
    while n < |files|
      invariant n <= |files| && total == TotalFileSize(files[..n])
      invariant forall m | 0 < m <= n :: TotalFileSize(files[..m]) < limit
    {
      assert files[..n + 1][..n] == files[..n];
      total := total + files[n].size;
      n := n + 1;
      if total >= limit {
        return;
      }
    }
  }

  /** The first inputs of CompactRange: the overlapping files, cut above level 0
      once they reach the size limit. */
  method StartRange(fs: seq<File>, level: nat, r: Range, limit: nat)
    returns (inputs: seq<File>, ghost w: Range, ghost a: nat, ghost b: nat)
    requires GoodLevel(fs, level)
    ensures inputs == [] <==> forall f | f in fs :: !r.Meets(f)
    ensures NoDuplicates(inputs)
    ensures inputs != [] ==> (forall f | f in inputs :: f in fs) && Selected(fs, level, inputs, w, a, b)
    ensures StartsIn(fs, level, r, limit, inputs)
  {
    a, b := 0, 0;
    var all, wr := GetOverlappingInputs(fs, level, r, iset{});
    inputs, w := all, wr;
    SomethingMeets(fs, level, r, w, inputs);
    MeetingNoDuplicates(fs, w);
    if inputs != [] {
      if level > 0 {
        var n := CutAtLimit(inputs, limit);
        inputs := inputs[..n];
      }
      a, b := CutIsSelected(fs, level, r, w, all, |inputs|);
    }
  }
}
