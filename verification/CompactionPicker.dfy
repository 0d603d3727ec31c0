/** Choosing compaction inputs: PickCompaction, CompactRange and
    SetupOtherInputs (db/version_set.cc). */
module CompactionPicker {
  import opened Options
  import opened Keys
  import opened Versions
  import opened Engine
  import opened Overlaps
  import opened Boundaries

  ghost predicate IsSmallest(ins: seq<File>, k: IKey) {
    (exists f :: f in ins && f.smallest == k) && forall f | f in ins :: AtMost(k, f.smallest)
  }

  method GetRange(inputs: seq<File>) returns (smallest: IKey, largest: IKey)
    requires inputs != []
    ensures IsSmallest(inputs, smallest) && IsLargest(inputs, largest)
    ensures smallest == Lowest(inputs) && largest == Highest(inputs)
  {
    EndsAre(inputs);
    smallest, largest := inputs[0].smallest, inputs[0].largest;
    assert IsSmallest(inputs[..1], smallest) && IsLargest(inputs[..1], largest);
    for i := 1 to |inputs|
      invariant IsSmallest(inputs[..i], smallest) && IsLargest(inputs[..i], largest)
    {
      var f := inputs[i];
      assert inputs[..i + 1] == inputs[..i] + [f];
      forall h | h in inputs[..i]
        ensures Less(f.smallest, smallest) ==> AtMost(f.smallest, h.smallest)
        ensures Less(largest, f.largest) ==> AtMost(h.largest, f.largest)
      {
        KeyOrder(f.smallest, smallest, h.smallest);
        KeyOrder(h.largest, largest, f.largest);
        KeyOrder(h.smallest, f.smallest, smallest);
        KeyOrder(largest, f.largest, h.largest);
      }
      if Less(f.smallest, smallest) {
        smallest := f.smallest;
      }
      if Less(largest, f.largest) {
        largest := f.largest;
      }
    }
    assert inputs[..|inputs|] == inputs;
  }

  ghost function Lowest(files: seq<File>): IKey
    requires files != []
  {
    if |files| == 1 then files[0].smallest
    else
      var k, last := Lowest(files[..|files| - 1]), files[|files| - 1].smallest;
      if Less(last, k) then last else k
  }

  ghost function Highest(files: seq<File>): IKey
    requires files != []
  {
    if |files| == 1 then files[0].largest
    else
      var k, last := Highest(files[..|files| - 1]), files[|files| - 1].largest;
      if Less(k, last) then last else k
  }

  /** The user keys from the first to the last of the files. */
  ghost function Span(files: seq<File>): Range {
    if files == [] then Range(None, None) else Range(Some(Lowest(files).user), Some(Highest(files).user))
  }

  lemma {:induction false} EndsAre(files: seq<File>)
    requires files != []
    ensures forall k :: IsSmallest(files, k) <==> k == Lowest(files)
    ensures forall k :: IsLargest(files, k) <==> k == Highest(files)
  {
    if |files| > 1 {
      var n := |files| - 1;
      EndsAre(files[..n]);
      assert files == files[..n] + [files[n]];
      assert IsSmallest(files[..n], Lowest(files[..n])) && IsLargest(files[..n], Highest(files[..n]));
      LongerEnds(files[..n], files[n]);
    } else {
      assert files == [files[0]];
    }
    forall k ensures IsSmallest(files, k) ==> k == Lowest(files)
      ensures IsLargest(files, k) ==> k == Highest(files)
    {
      KeyOrder(k, Lowest(files), k);
      KeyOrder(k, Highest(files), k);
    }
  }

  lemma LongerEnds(files: seq<File>, f: File)
    requires files != [] && IsSmallest(files, Lowest(files)) && IsLargest(files, Highest(files))
    ensures IsSmallest(files + [f], Lowest(files + [f])) && IsLargest(files + [f], Highest(files + [f]))
  {
    var more := files + [f];
    assert more[..|files|] == files && f in more;
    forall g | g in more ensures AtMost(Lowest(more), g.smallest) && AtMost(g.largest, Highest(more)) {
      KeyOrder(g.smallest, Lowest(more), Lowest(files));
      KeyOrder(Lowest(more), g.smallest, Lowest(files));
      KeyOrder(g.smallest, Lowest(files), Lowest(more));
      KeyOrder(Highest(more), g.largest, Highest(files));
      KeyOrder(Highest(files), g.largest, Highest(more));
      KeyOrder(Highest(files), Highest(more), g.largest);
    }
  }

  // ---- selections of one level ----

  /** At level 0 a selection is everything that meets a closed range; above, a
      stretch of neighbouring files. */
  ghost predicate Selected(fs: seq<File>, level: nat, ins: seq<File>, w: Range, a: nat, b: nat) {
    if level == 0 then Closed(fs, w) && FilesOf(ins) == FilesOf(Meeting(fs, w)) else Stretch(fs, ins, a, b)
  }

  lemma {:induction false} MeetingIsStretch(fs: seq<File>, r: Range) returns (a: nat, b: nat)
    requires SortedFiles(fs) && AllFilesValid(fs) && Meeting(fs, r) != []
    ensures a < b <= |fs| && Meeting(fs, r) == fs[a..b]
  {
    var n := |fs| - 1;
    if Meeting(fs[..n], r) == [] {
      a, b := n, n + 1;
    } else {
      a, b := MeetingIsStretch(fs[..n], r);
      assert fs[..n][a..b] == fs[a..b];
      if r.Meets(fs[n]) {
        StretchReachesEnd(fs, r, a, b);
        assert fs[a..n + 1] == fs[a..n] + [fs[n]];
        b := n + 1;
      }
    }
  }

  lemma StretchReachesEnd(fs: seq<File>, r: Range, a: nat, b: nat)
    requires SortedFiles(fs) && AllFilesValid(fs) && a < b < |fs| && r.Meets(fs[|fs| - 1])
    requires Meeting(fs[..|fs| - 1], r) == fs[a..b]
    ensures b == |fs| - 1
  {
    var n := |fs| - 1;
    MeetingMembers(fs[..n], r);
    StretchIndex(fs, fs[a..b], a, b, b - 1);
    StretchIndex(fs, fs[a..b], a, b, n - 1);
    if b < n {
      MiddleMeets(fs, r, b - 1, n - 1, n);
    }
    assert fs[n - 1] in fs[..n];
  }

  lemma MiddleMeets(fs: seq<File>, r: Range, i: nat, j: nat, k: nat)
    requires SortedFiles(fs) && AllFilesValid(fs) && i < j < k < |fs| && r.Meets(fs[i]) && r.Meets(fs[k])
    ensures r.Meets(fs[j])
  {
    var f, g, h := fs[i], fs[j], fs[k];
    assert FileBefore(f, g) && FileBefore(g, h) && g in fs;
    FileBounds(g, g.entries[0]);
  }

  lemma SelectOverlapping(fs: seq<File>, level: nat, r: Range, w: Range, ins: seq<File>) returns (a: nat, b: nat)
    requires AllFilesValid(fs) && (level > 0 ==> SortedFiles(fs))
    requires Overlapping(fs, level, r, w, ins) && ins != []
    ensures Selected(fs, level, ins, w, a, b)
  {
    a, b := 0, 0;
    if level > 0 {
      a, b := MeetingIsStretch(fs, w);
    }
  }

  /** What a boundary-complete selection leaves behind in its level is newer. */
  lemma SelectedIsOlder(v: Version, bound: nat, level: nat, ins: seq<File>, k: IKey, w: Range, a: nat, b: nat, g: File,
    f: File)
    requires ValidVersion(v, bound) && DistinctSequences(VersionEntries(v)) && level < NUM_LEVELS
    requires Selected(v[level], level, ins, w, a, b) && IsLargest(ins, k) && NoBoundary(v[level], k)
    requires g in v[level] && g !in ins && f in ins && f in v[level]
    ensures NewerThan(g.entries, f.entries)
  {
    var fs := v[level];
    forall e, x | e in g.entries && x in f.entries && e.k.user == x.k.user ensures e.k.sn > x.k.sn {
      FileBounds(g, e);
      FileBounds(f, x);
      if level == 0 {
        ClosedLeavesApart(fs, ins, w, g, f);
      } else {
        StretchLeavesOlder(fs, ins, a, b, k, g, f, e, x);
        assert VersionHas(v, e) && VersionHas(v, x);
        SameKeyOrder(v, e, x);
      }
    }
  }

  lemma SameKeyOrder(v: Version, e: Entry, x: Entry)
    requires DistinctSequences(VersionEntries(v)) && VersionHas(v, e) && VersionHas(v, x)
    requires e.k.user == x.k.user && Less(e.k, x.k)
    ensures e.k.sn > x.k.sn
  {
    assert e in VersionEntries(v) && x in VersionEntries(v);
  }

  lemma ClosedLeavesApart(fs: seq<File>, ins: seq<File>, w: Range, g: File, f: File)
    requires Closed(fs, w) && FilesOf(ins) == FilesOf(Meeting(fs, w))
    requires g in fs && g !in ins && f in ins
    ensures g.largest.user < f.smallest.user || f.largest.user < g.smallest.user
  {
    MeetingMembers(fs, w);
    assert g !in FilesOf(ins) && f in FilesOf(ins);
    assert w.Contains(f) && !w.Meets(g);
  }

  lemma StretchSide(fs: seq<File>, ins: seq<File>, a: nat, b: nat, k: IKey, g: File, f: File)
    requires SortedFiles(fs) && AllFilesValid(fs) && Stretch(fs, ins, a, b) && IsLargest(ins, k) && NoBoundary(fs, k)
    requires g in fs && g !in ins && f in ins && f in fs
    ensures FileBefore(g, f) || f.largest.user < g.smallest.user
  {
    var i :| 0 <= i < |fs| && fs[i] == g;
    var j :| 0 <= j < |fs| && fs[j] == f;
    StretchIndex(fs, ins, a, b, i);
    StretchIndex(fs, ins, a, b, j);
    if i < a {
      assert FileBefore(fs[i], fs[j]);
    } else {
      StretchLargest(fs, ins, a, b, k);
      assert FileBefore(fs[b - 1], fs[i]);
      assert !IsBoundary(k, g);
    }
  }

  lemma StretchLeavesOlder(fs: seq<File>, ins: seq<File>, a: nat, b: nat, k: IKey, g: File, f: File, e: Entry, x: Entry)
    requires SortedFiles(fs) && AllFilesValid(fs) && Stretch(fs, ins, a, b) && IsLargest(ins, k) && NoBoundary(fs, k)
    requires g in fs && g !in ins && f in ins && f in fs && e in g.entries && x in f.entries && e.k.user == x.k.user
    ensures Less(e.k, x.k)
  {
    StretchSide(fs, ins, a, b, k, g, f);
    FileBounds(g, e);
    FileBounds(f, x);
    KeyOrder(e.k, g.largest, f.smallest);
    KeyOrder(e.k, f.smallest, x.k);
  }

  /** Files of level + 1 that miss the hull of in0 lie to one side of all the
      inputs. */
  lemma MissedIsAside(c: Compaction, v: Version, fs: seq<File>, g: File)
    requires SortedFiles(fs) && AllFilesValid(fs) && AllFilesValid(c.in0)
    requires forall f | f in c.in0 :: c.lo <= f.smallest.user && f.largest.user <= c.hi
    requires c.in1 == Meeting(fs, Range(Some(c.lo), Some(c.hi)))
    requires g in fs && g !in c.in1
    ensures OneSide(c, g) && !UserOverlap(g, c.lo, c.hi)
  {
    MeetingMembers(fs, Range(Some(c.lo), Some(c.hi)));
    SortedDisjoint(fs);
    forall f | c.Input(f) ensures if g.largest.user < c.lo then FileBefore(g, f) else FileBefore(f, g) {
      if f in c.in1 {
        FileBounds(f, f.entries[0]);
        FileBounds(g, g.entries[0]);
        assert FileBefore(f, g) || FileBefore(g, f);
      }
    }
  }

  lemma HullOf(ins: seq<File>, smallest: IKey, largest: IKey)
    requires IsSmallest(ins, smallest) && IsLargest(ins, largest)
    ensures forall f | f in ins :: smallest.user <= f.smallest.user && f.largest.user <= largest.user
    ensures Anchored(FilesOf(ins), smallest.user, largest.user)
  {
    var f :| f in ins && f.smallest == smallest;
    var g :| g in ins && g.largest == largest;
    assert f in FilesOf(ins) && g in FilesOf(ins);
  }

  lemma GaplessInputs(c: Compaction)
    requires Gapless(FilesOf(c.in0) + FilesOf(c.in1))
    ensures GapFree(c)
  {
    var S := FilesOf(c.in0) + FilesOf(c.in1);
    forall a, b | a <= b && Avoids(c, a, b)
      ensures (forall f | c.Input(f) :: b < f.smallest.user) || (forall f | c.Input(f) :: f.largest.user < a)
    {
      assert forall f :: c.Input(f) <==> f in S;
      assert Clear(S, a, b);
    }
  }

  lemma LevelFiles(v: Version, bound: nat, level: nat)
    requires ValidVersion(v, bound) && level < NUM_LEVELS
    ensures AllFilesValid(v[level]) && ValidRanges(v[level]) && NoDuplicates(v[level])
      && (level > 0 ==> SortedFiles(v[level]))
  {
    if level > 0 {
      Ascending(v[level]);
    }
    forall f | f in v[level] ensures f.smallest.user <= f.largest.user {
      assert ValidFile(f);
      FileBounds(f, f.entries[0]);
    }
  }

  lemma NextLevelInputs(c: Compaction, v: Version, bound: nat)
    requires ValidVersion(v, bound) && c.level + 1 < NUM_LEVELS
    requires forall f | f in c.in0 :: f in v[c.level] && c.lo <= f.smallest.user && f.largest.user <= c.hi
    requires c.in1 == Meeting(v[c.level + 1], Range(Some(c.lo), Some(c.hi)))
    ensures NoDuplicates(c.in1) && forall f | f in c.in1 :: f in v[c.level + 1]
    ensures forall g | g in v[c.level + 1] && g !in c.in1 :: OneSide(c, g) && !UserOverlap(g, c.lo, c.hi)
  {
    LevelFiles(v, bound, c.level);
    LevelFiles(v, bound, c.level + 1);
    MeetingMembers(v[c.level + 1], Range(Some(c.lo), Some(c.hi)));
    MeetingNoDuplicates(v[c.level + 1], Range(Some(c.lo), Some(c.hi)));
    assert AllFilesValid(c.in0);
    forall g | g in v[c.level + 1] && g !in c.in1 ensures OneSide(c, g) && !UserOverlap(g, c.lo, c.hi) {
      MissedIsAside(c, v, v[c.level + 1], g);
    }
  }

  /** The chosen inputs satisfy what the engine's Begin and Move steps ask. */
  lemma ChosenInputsClosed(c: Compaction, v: Version, bound: nat, largest: IKey, smallest: IKey, w: Range, a: nat,
    b: nat)
    requires ValidVersion(v, bound) && DistinctSequences(VersionEntries(v)) && c.level + 1 < NUM_LEVELS
    requires c.in0 != [] && NoDuplicates(c.in0) && forall f | f in c.in0 :: f in v[c.level]
    requires Selected(v[c.level], c.level, c.in0, w, a, b)
    requires IsSmallest(c.in0, smallest) && IsLargest(c.in0, largest) && NoBoundary(v[c.level], largest)
    requires c.lo == smallest.user && c.hi == largest.user
    requires c.in1 == Meeting(v[c.level + 1], Range(Some(c.lo), Some(c.hi)))
    ensures ClosedInputs(c, v)
  {
    HullOf(c.in0, smallest, largest);
    NextLevelInputs(c, v, bound);
    forall g, f | g in v[c.level] && g !in c.in0 && f in c.in0 ensures NewerThan(g.entries, f.entries) {
      SelectedIsOlder(v, bound, c.level, c.in0, largest, w, a, b, g, f);
    }
    assert forall f :: f in FilesOf(c.in0) <==> f in c.in0;
  }
}
