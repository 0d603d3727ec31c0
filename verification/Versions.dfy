/** Table files, levels and versions (db/version_edit.h, db/version_set.h). */
module Versions {
  import opened Options
  import opened Keys

  const NUM_LEVELS: nat := 7

  /** FileMetaData, together with the contents of the table it names: a table
      file is written once and never changes. */
  datatype File = File(number: nat, size: nat, smallest: IKey, largest: IKey, entries: seq<Entry>)

  type Version = v: seq<seq<File>> | |v| == NUM_LEVELS witness [[], [], [], [], [], [], []]

  ghost predicate ValidFile(f: File) {
    && 0 < |f.entries|
    && SortedEntries(f.entries)
    && f.smallest == f.entries[0].k
    && f.largest == f.entries[|f.entries| - 1].k
  }

  lemma FileBounds(f: File, e: Entry)
    requires ValidFile(f) && e in f.entries
    ensures AtMost(f.smallest, e.k) && AtMost(e.k, f.largest)
    ensures f.smallest.user <= e.k.user <= f.largest.user
  {}

  // f lies wholly before g in internal key order.
  predicate FileBefore(f: File, g: File) {
    Less(f.largest, g.smallest)
  }

  predicate UserOverlap(f: File, lo: UserKey, hi: UserKey) {
    f.smallest.user <= hi && lo <= f.largest.user
  }

  // BySmallestKey
  predicate BySmallest(f: File, g: File) {
    Less(f.smallest, g.smallest) || (f.smallest == g.smallest && f.number < g.number)
  }

  ghost predicate SortedBySmallest(fs: seq<File>) {
    forall i, j | 0 <= i < j < |fs| :: BySmallest(fs[i], fs[j])
  }

  /** Levels above 0: the files follow one another without overlap. */
  ghost predicate SortedFiles(fs: seq<File>) {
    forall i, j | 0 <= i < j < |fs| :: FileBefore(fs[i], fs[j])
  }

  function TotalFileSize(files: seq<File>): nat {
    if files == [] then 0 else TotalFileSize(files[..|files| - 1]) + files[|files| - 1].size
  }

  ghost predicate NoDuplicates(fs: seq<File>) {
    forall i, j | 0 <= i < j < |fs| :: fs[i] != fs[j]
  }

  ghost predicate Disjoint(fs: seq<File>) {
    forall f, g | f in fs && g in fs :: f == g || FileBefore(f, g) || FileBefore(g, f)
  }

  /** Sorting by smallest key sorts disjoint files. */
  lemma DisjointSorted(fs: seq<File>)
    requires forall f | f in fs :: ValidFile(f)
    requires SortedBySmallest(fs) && Disjoint(fs)
    ensures SortedFiles(fs)
  {
    forall i, j | 0 <= i < j < |fs| ensures FileBefore(fs[i], fs[j]) {
      var f, g := fs[i], fs[j];
      assert f in fs && g in fs;
      assert BySmallest(f, g);
      FileBounds(f, f.entries[0]);
      FileBounds(g, g.entries[0]);
    }
  }

  lemma SortedDisjoint(fs: seq<File>)
    requires SortedFiles(fs)
    ensures Disjoint(fs)
  {}

  // Every entry of f is newer than every entry of g for the same user key.
  ghost predicate NewerThan(es: seq<Entry>, stale: seq<Entry>) {
    forall e, x | e in es && x in stale && e.k.user == x.k.user :: e.k.sn > x.k.sn
  }

  /** Files a reader consults first: smaller levels before larger ones, and
      within level 0 larger file numbers before smaller ones. */
  predicate Above(l1: nat, f: File, l2: nat, g: File) {
    l1 < l2 || (l1 == 0 == l2 && f.number > g.number)
  }

  ghost predicate AllValid(v: Version) {
    forall l, f | 0 <= l < NUM_LEVELS && f in v[l] :: ValidFile(f)
  }

  ghost predicate SortedLevels(v: Version) {
    && SortedBySmallest(v[0])
    && forall l | 1 <= l < NUM_LEVELS :: SortedFiles(v[l])
  }

  // A file number names one file, listed in one level.
  ghost predicate DistinctNumbers(v: Version, bound: nat) {
    && (forall l, f | 0 <= l < NUM_LEVELS && f in v[l] :: f.number < bound)
    && forall l1, l2, f, g | 0 <= l1 < NUM_LEVELS && 0 <= l2 < NUM_LEVELS && f in v[l1] && g in v[l2]
      && f.number == g.number :: l1 == l2 && f == g
  }

  /** Newer entries of a user key are never below older ones. */
  ghost predicate NewestOnTop(v: Version) {
    forall l1, l2, f, g | 0 <= l1 < NUM_LEVELS && 0 <= l2 < NUM_LEVELS && f in v[l1] && g in v[l2]
      && Above(l1, f, l2, g) ::
      NewerThan(f.entries, g.entries)
  }

  ghost predicate ValidVersion(v: Version, bound: nat) {
    AllValid(v) && SortedLevels(v) && DistinctNumbers(v, bound) && NewestOnTop(v)
  }

  ghost predicate VersionHas(v: Version, e: Entry) {
    exists l, f :: 0 <= l < NUM_LEVELS && f in v[l] && e in f.entries
  }

  ghost function VersionEntries(v: Version): iset<Entry> {
    iset e | VersionHas(v, e)
  }

  /** What Builder::SaveTo leaves in a level: the base files whose numbers were
      not deleted, plus the added files, in BySmallestKey order. */
  ghost predicate Edited(base: seq<File>, deleted: iset<nat>, added: iset<File>, r: seq<File>) {
    && SortedBySmallest(r)
    && forall f :: f in r <==> (f in base && f.number !in deleted) || f in added
  }
}
