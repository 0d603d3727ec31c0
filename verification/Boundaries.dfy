/** FindLargestKey, FindSmallestBoundaryFile and AddBoundaryInputs
    (db/version_set.cc). */
module Boundaries {
  import opened Options
  import opened Keys
  import opened Versions
  import opened Overlaps

  ghost predicate AllFilesValid(fs: seq<File>) {
    forall f | f in fs :: ValidFile(f)
  }

  ghost predicate IsLargest(ins: seq<File>, k: IKey) {
    (exists f :: f in ins && f.largest == k) && forall f | f in ins :: AtMost(f.largest, k)
  }

  predicate IsBoundary(k: IKey, g: File) {
    Less(k, g.smallest) && g.smallest.user == k.user
  }

  // No file of fs starts, later, with the user key k ends with.
  ghost predicate NoBoundary(fs: seq<File>, k: IKey) {
    forall g | g in fs :: !IsBoundary(k, g)
  }

  ghost predicate SmallestBoundary(fs: seq<File>, k: IKey, g: File) {
    && g in fs && IsBoundary(k, g)
    && forall h | h in fs && IsBoundary(k, h) :: AtMost(g.smallest, h.smallest)
  }

  method FindLargestKey(files: seq<File>) returns (largest: IKey)
    requires files != []
    ensures IsLargest(files, largest)
  {
    largest := files[0].largest;
    assert IsLargest(files[..1], largest);
    for i := 1 to |files|
      invariant IsLargest(files[..i], largest)
    {
      var f := files[i];
      ghost var was := largest;
      assert files[..i + 1] == files[..i] + [f];
      if Less(largest, f.largest) {
        forall h | h in files[..i + 1] ensures AtMost(h.largest, f.largest) {
          KeyOrder(h.largest, was, f.largest);
        }
        largest := f.largest;
      }
    }
    assert files[..|files|] == files;
  }

  method FindSmallestBoundaryFile(levelFiles: seq<File>, k: IKey) returns (r: Option<File>)
    ensures r.None? ==> NoBoundary(levelFiles, k)
    ensures r.Some? ==> SmallestBoundary(levelFiles, k, r.value)
  {
    r := None;
    for i := 0 to |levelFiles|
      invariant r.None? ==> NoBoundary(levelFiles[..i], k)
      invariant r.Some? ==> SmallestBoundary(levelFiles[..i], k, r.value)
    {
      var f := levelFiles[i];
      assert levelFiles[..i + 1] == levelFiles[..i] + [f];
      if IsBoundary(k, f) && (r.None? || Less(f.smallest, r.value.smallest)) {
        forall h | r.Some? && h in levelFiles[..i + 1] && IsBoundary(k, h) ensures AtMost(f.smallest, h.smallest) {
          if h != f {
            KeyOrder(f.smallest, r.value.smallest, h.smallest);
            KeyOrder(h.smallest, f.smallest, r.value.smallest);
          }
        }
        r := Some(f);
      }
    }
    assert levelFiles[..|levelFiles|] == levelFiles;
  }

  // ---- what boundary files do to a selection ----

  // The selection is a stretch of a sorted level.
  ghost predicate Stretch(fs: seq<File>, ins: seq<File>, a: nat, b: nat) {
    a < b <= |fs| && FilesOf(ins) == FilesOf(fs[a..b])
  }

  lemma StretchIndex(fs: seq<File>, ins: seq<File>, a: nat, b: nat, i: nat)
    requires Stretch(fs, ins, a, b) && i < |fs| && SortedFiles(fs) && AllFilesValid(fs)
    ensures fs[i] in ins <==> a <= i < b
  {
    Ascending(fs);
    assert fs[i] in ins <==> fs[i] in FilesOf(fs[a..b]);
    assert fs[a..b] == seq(b - a, j requires 0 <= j < b - a => fs[a + j]);
    assert forall j | a <= j < b :: fs[a..b][j - a] == fs[j];
  }

  lemma Ascending(fs: seq<File>)
    requires SortedFiles(fs) && AllFilesValid(fs)
    ensures forall i, j | 0 <= i < j < |fs| :: Less(fs[i].smallest, fs[j].smallest) && fs[i] != fs[j]
  {
    forall i, j | 0 <= i < j < |fs| ensures Less(fs[i].smallest, fs[j].smallest) {
      var f := fs[i];
      assert f in fs && FileBefore(f, fs[j]);
      FileBounds(f, f.entries[0]);
    }
  }

  lemma StretchLargest(fs: seq<File>, ins: seq<File>, a: nat, b: nat, k: IKey)
    requires Stretch(fs, ins, a, b) && SortedFiles(fs) && AllFilesValid(fs) && IsLargest(ins, k)
    ensures k == fs[b - 1].largest
  {
    var last := fs[b - 1];
    StretchIndex(fs, ins, a, b, b - 1);
    var f :| f in ins && f.largest == k;
    assert f in FilesOf(fs[a..b]);
    var j :| 0 <= j < b - a && fs[a..b][j] == f;
    assert last in fs;
    FileBounds(last, last.entries[0]);
    if a + j < b - 1 {
      assert FileBefore(fs[a + j], last);
      KeyOrder(f.largest, last.smallest, last.largest);
    }
  }

  lemma NotAfterLast(fs: seq<File>, last: nat, i: nat)
    requires SortedFiles(fs) && AllFilesValid(fs) && i <= last < |fs|
    ensures !Less(fs[last].largest, fs[i].smallest)
  {
    Ascending(fs);
    assert fs[last] in fs;
    FileBounds(fs[last], fs[last].entries[0]);
    KeyOrder(fs[i].smallest, fs[last].smallest, fs[last].largest);
  }

  /** In a sorted level the boundary file is the next one. */
  lemma StretchGrows(fs: seq<File>, ins: seq<File>, a: nat, b: nat, k: IKey, g: File)
    requires Stretch(fs, ins, a, b) && SortedFiles(fs) && AllFilesValid(fs) && IsLargest(ins, k)
    requires SmallestBoundary(fs, k, g)
    ensures Stretch(fs, ins + [g], a, b + 1)
  {
    StretchLargest(fs, ins, a, b, k);
    Ascending(fs);
    forall i | 0 <= i < b ensures !IsBoundary(k, fs[i]) {
      NotAfterLast(fs, b - 1, i);
    }
    var i :| 0 <= i < |fs| && fs[i] == g;
    var last, h := fs[b - 1], fs[b];
    assert last in fs && h in fs && FileBefore(last, h);
    FileBounds(last, last.entries[0]);
    assert IsBoundary(k, h);
    assert i == b;
    assert fs[a..b + 1] == fs[a..b] + [g];
    assert FilesOf(ins + [g]) == FilesOf(ins) + iset{g};
    assert FilesOf(fs[a..b + 1]) == FilesOf(fs[a..b]) + iset{g};
  }

  // ---- AddBoundaryInputs ----

  // File n is the smallest boundary file of the ones before it.
  ghost predicate ContinuesAt(fs: seq<File>, files: seq<File>, n: nat)
    requires n < |files|
  {
    exists k :: IsLargest(files[..n], k) && SmallestBoundary(fs, k, files[n])
  }

  ghost predicate Continues(fs: seq<File>, start: seq<File>, files: seq<File>) {
    start <= files && forall n | |start| <= n < |files| :: ContinuesAt(fs, files, n)
  }

  /** The selection with its boundary files: one after the other, until there is none. */
  ghost predicate Chained(fs: seq<File>, start: seq<File>, files: seq<File>) {
    Continues(fs, start, files) && exists k :: IsLargest(files, k) && NoBoundary(fs, k)
  }

  lemma ContinuesMore(fs: seq<File>, start: seq<File>, files: seq<File>, k: IKey, g: File)
    requires Continues(fs, start, files) && IsLargest(files, k) && SmallestBoundary(fs, k, g)
    ensures Continues(fs, start, files + [g])
  {
    var more := files + [g];
    forall n | |start| <= n < |more| ensures ContinuesAt(fs, more, n) {
      assert more[..n] == files[..n] && files[..|files|] == files;
      if n < |files| {
        assert ContinuesAt(fs, files, n);
      }
    }
  }

  ghost function Beyond(fs: seq<File>, k: IKey): nat {
    if fs == [] then 0 else Beyond(fs[..|fs| - 1], k) + if Less(k, fs[|fs| - 1].smallest) then 1 else 0
  }

  lemma {:induction false} BeyondShrinks(fs: seq<File>, k: IKey, m: IKey)
    requires Less(k, m)
    ensures Beyond(fs, m) <= Beyond(fs, k)
    ensures (exists g :: g in fs && Less(k, g.smallest) && AtMost(g.smallest, m)) ==> Beyond(fs, m) < Beyond(fs, k)
  {
    if fs != [] {
      var n := |fs| - 1;
      BeyondShrinks(fs[..n], k, m);
      assert fs == fs[..n] + [fs[n]];
      KeyOrder(k, m, fs[n].smallest);
    }
  }

  /** The state of the loop: `files` is the original selection followed by
      boundary files, and k is its largest key. */
  ghost predicate Extending(fs: seq<File>, start: seq<File>, files: seq<File>, k: IKey, seed: iset<File>, a: nat,
    b: nat, bb: nat) {
    && start <= files && IsLargest(files, k) && (NoDuplicates(start) ==> NoDuplicates(files))
    && (forall f | f in files :: f in start || f in fs)
    && (Stretch(fs, start, a, b) && SortedFiles(fs) ==> Stretch(fs, files, a, bb))
    && (Gapless(seed + FilesOf(start)) ==> Gapless(seed + FilesOf(files)))
    && forall w: Range | Closed(fs, w) && FilesOf(start) == FilesOf(Meeting(fs, w)) :: FilesOf(files) == FilesOf(start)
  }

  lemma ExtendingStep(fs: seq<File>, start: seq<File>, files: seq<File>, k: IKey, seed: iset<File>, a: nat, b: nat,
    bb: nat, g: File)
    requires AllFilesValid(fs) && AllFilesValid(start) && forall f | f in seed :: f.smallest.user <= f.largest.user
    requires Extending(fs, start, files, k, seed, a, b, bb) && SmallestBoundary(fs, k, g)
    ensures Extending(fs, start, files + [g], g.largest, seed, a, b, bb + 1)
    ensures Beyond(fs, g.largest) < Beyond(fs, k)
  {
    FileBounds(g, g.entries[0]);
    KeyOrder(k, g.smallest, g.largest);
    BeyondShrinks(fs, k, g.largest);
    forall f | f in files + [g] ensures AtMost(f.largest, g.largest) {
      KeyOrder(f.largest, k, g.largest);
    }
    if Stretch(fs, start, a, b) && SortedFiles(fs) {
      StretchGrows(fs, files, a, bb, k, g);
    }
    if Gapless(seed + FilesOf(start)) {
      BoundaryGapless(files, k, seed, g, fs, start);
    }
    forall w: Range | Closed(fs, w) ensures FilesOf(start) != FilesOf(Meeting(fs, w)) {
      NoBoundaryInside(fs, files, k, w, g);
    }
  }

  lemma BoundaryGapless(files: seq<File>, k: IKey, seed: iset<File>, g: File, fs: seq<File>, start: seq<File>)
    requires AllFilesValid(fs) && AllFilesValid(start) && forall f | f in seed :: f.smallest.user <= f.largest.user
    requires forall f | f in files :: f in start || f in fs
    requires Gapless(seed + FilesOf(files)) && IsLargest(files, k) && g in fs && IsBoundary(k, g)
    ensures Gapless(seed + FilesOf(files + [g]))
  {
    var S, T := seed + FilesOf(files), seed + FilesOf(files + [g]);
    var f :| f in files && f.largest == k;
    forall h | h in T ensures h.smallest.user <= h.largest.user {
      if h !in seed {
        assert ValidFile(h);
        FileBounds(h, h.entries[0]);
      }
    }
    assert f in S;
    GaplessGrows(S, T, f.smallest.user, k.user);
  }

  /** A selection closed under overlap has no boundary file. */
  lemma NoBoundaryInside(fs: seq<File>, files: seq<File>, k: IKey, w: Range, g: File)
    requires Closed(fs, w) && AllFilesValid(fs)
    requires IsLargest(files, k) && g in fs && IsBoundary(k, g)
    ensures FilesOf(files) != FilesOf(Meeting(fs, w))
  {
    MeetingMembers(fs, w);
    var f :| f in files && f.largest == k;
    assert f in FilesOf(files);
    FileBounds(g, g.entries[0]);
    KeyOrder(k, g.smallest, g.largest);
    assert g !in files && g !in FilesOf(files);
    if f in fs {
      FileBounds(f, f.entries[0]);
      assert w.Meets(f) && w.Contains(f) ==> w.Meets(g);
    }
    assert g in FilesOf(Meeting(fs, w)) <==> w.Meets(g);
  }

  /** AddBoundaryInputs: afterwards no file of the level continues the last
      user key of the selection. */
  method AddBoundaryInputs(levelFiles: seq<File>, start: seq<File>, ghost seed: iset<File>, ghost a: nat, ghost b: nat)
    returns (files: seq<File>, largest: IKey, ghost bb: nat)
    requires start != [] && AllFilesValid(levelFiles) && AllFilesValid(start)
    requires forall f | f in seed :: f.smallest.user <= f.largest.user
    ensures Extending(levelFiles, start, files, largest, seed, a, b, bb) && NoBoundary(levelFiles, largest)
    ensures Chained(levelFiles, start, files)
  {
    files := start;
    largest := FindLargestKey(files);
    bb := b;
    var continueSearching := true;
    while continueSearching
      invariant Extending(levelFiles, start, files, largest, seed, a, b, bb) && Continues(levelFiles, start, files)
      invariant !continueSearching ==> NoBoundary(levelFiles, largest)
      decreases Beyond(levelFiles, largest), continueSearching
    {
      var g := FindSmallestBoundaryFile(levelFiles, largest);
      if g.Some? {
        ContinuesMore(levelFiles, start, files, largest, g.value);
        ExtendingStep(levelFiles, start, files, largest, seed, a, b, bb, g.value);
        files := files + [g.value];
        largest := g.value.largest;
        bb := bb + 1;
      } else {
        continueSearching := false;
      }
    }
  }
}
