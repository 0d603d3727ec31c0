/** Version::Get and the searches under it (db/version_set.cc). */
module VersionReads {
  import opened Options
  import opened Keys
  import opened Versions
  import opened Sequences

  /** Saver's state after a search. */
  datatype Found = NotFound | Hit(e: Entry)

  ghost function EntrySet(es: seq<Entry>): iset<Entry> {
    iset e | e in es
  }

  ghost predicate NoneVisible(es: seq<Entry>, u: UserKey, s: Sequence) {
    forall e | e in es :: !Visible(e, u, s)
  }

  ghost function FileEntries(fs: seq<File>): iset<Entry> {
    iset f, e | f in fs && e in f.entries :: e
  }

  ghost predicate Answers(P: iset<Entry>, u: UserKey, s: nat, r: Found) {
    match r
    case NotFound => forall e | e in P :: !Visible(e, u, s)
    case Hit(e) => IsNewest(P, u, s, e)
  }

  /** The first file whose largest key is at or after `key`. */
  method FindFile(files: seq<File>, key: IKey) returns (right: nat)
    requires SortedFiles(files) && forall f | f in files :: ValidFile(f)
    ensures right <= |files|
    ensures forall j | 0 <= j < right :: Less(files[j].largest, key)
    ensures forall j | right <= j < |files| :: AtMost(key, files[j].largest)
  {
    var left := 0;
    right := |files|;
    while left < right
      invariant left <= right <= |files|
      invariant forall j | 0 <= j < left :: Less(files[j].largest, key)
      invariant forall j | right <= j < |files| :: AtMost(key, files[j].largest)
    {
      var mid := (left + right) / 2;
      LargestAscend(files);
      if Less(files[mid].largest, key) {
        left := mid + 1;
      } else {
        right := mid;
      }
    }
  }

  lemma LargestAscend(files: seq<File>)
    requires SortedFiles(files) && forall f | f in files :: ValidFile(f)
    ensures forall i, j | 0 <= i < j < |files| :: Less(files[i].largest, files[j].largest)
  {
    forall i, j | 0 <= i < j < |files| ensures Less(files[i].largest, files[j].largest) {
      var g := files[j];
      assert g in files && FileBefore(files[i], g);
      FileBounds(g, g.entries[0]);
    }
  }

  /** What TableCache::Get with SaveValue reports for one table. */
  method TableGet(f: File, u: UserKey, s: Sequence) returns (r: Found)
    requires ValidFile(f)
    ensures Answers(EntrySet(f.entries), u, s, r)
    ensures r.Hit? ==> AtMost(SeekKey(u, s), r.e.k)
  {
    var i := 0;
    while i < |f.entries| && Less(f.entries[i].k, SeekKey(u, s))
      invariant i <= |f.entries|
      invariant forall j | 0 <= j < i :: Less(f.entries[j].k, SeekKey(u, s))
    {
      i := i + 1;
    }
    SeekFindsNewest(f.entries, u, s, i);
    r := if i < |f.entries| && f.entries[i].k.user == u then Hit(f.entries[i]) else NotFound;
  }

  /** The search of one level above 0: at most one table is opened. */
  method SortedLevelGet(fs: seq<File>, u: UserKey, s: Sequence) returns (r: Found)
    requires SortedFiles(fs) && forall f | f in fs :: ValidFile(f)
    ensures Answers(FileEntries(fs), u, s, r)
  {
    var index := FindFile(fs, SeekKey(u, s));
    if index >= |fs| || u < fs[index].smallest.user {
      r := NotFound;
      SkippedLevel(fs, u, s, index);
    } else {
      r := TableGet(fs[index], u, s);
      OneTableSuffices(fs, u, s, index, r);
    }
  }

  lemma BeforeIndex(fs: seq<File>, u: UserKey, s: Sequence, j: nat, e: Entry)
    requires (forall f | f in fs :: ValidFile(f)) && j < |fs| && e in fs[j].entries
    requires Less(fs[j].largest, SeekKey(u, s))
    ensures !Visible(e, u, s)
  {
    assert fs[j] in fs;
    FileBounds(fs[j], e);
    SeekKeyBound(u, s, e.k);
    KeyOrder(e.k, fs[j].largest, SeekKey(u, s));
  }

  lemma SkippedLevel(fs: seq<File>, u: UserKey, s: Sequence, index: nat)
    requires SortedFiles(fs) && (forall f | f in fs :: ValidFile(f)) && index <= |fs|
    requires forall j | 0 <= j < index :: Less(fs[j].largest, SeekKey(u, s))
    requires index < |fs| ==> u < fs[index].smallest.user
    ensures Answers(FileEntries(fs), u, s, NotFound)
  {
    forall e | e in FileEntries(fs) ensures !Visible(e, u, s) {
      var f :| f in fs && e in f.entries;
      var j :| 0 <= j < |fs| && fs[j] == f;
      if j < index {
        BeforeIndex(fs, u, s, j, e);
      } else {
        FileBounds(f, e);
        assert fs[index] in fs;
        FileBounds(fs[index], fs[index].entries[0]);
        assert j > index ==> FileBefore(fs[index], fs[j]);
      }
    }
  }

  lemma OneTableSuffices(fs: seq<File>, u: UserKey, s: Sequence, index: nat, r: Found)
    requires SortedFiles(fs) && (forall f | f in fs :: ValidFile(f)) && index < |fs|
    requires forall j | 0 <= j < index :: Less(fs[j].largest, SeekKey(u, s))
    requires AtMost(SeekKey(u, s), fs[index].largest)
    requires Answers(EntrySet(fs[index].entries), u, s, r)
    ensures Answers(FileEntries(fs), u, s, r)
  {
    var here := fs[index];
    assert here in fs;
    forall e | e in FileEntries(fs) && Visible(e, u, s) && e !in here.entries ensures r.Hit? && e.k.sn <= r.e.k.sn {
      var f :| f in fs && e in f.entries;
      var j :| 0 <= j < |fs| && fs[j] == f;
      if j < index {
        BeforeIndex(fs, u, s, j, e);
      } else {
        assert FileBefore(here, fs[j]);
        AfterIndex(here, f, u, s, r, e);
      }
    }
  }

  lemma AfterIndex(here: File, f: File, u: UserKey, s: Sequence, r: Found, e: Entry)
    requires ValidFile(here) && ValidFile(f) && FileBefore(here, f)
    requires AtMost(SeekKey(u, s), here.largest)
    requires Answers(EntrySet(here.entries), u, s, r)
    requires e in f.entries && Visible(e, u, s)
    ensures r.Hit? && e.k.sn <= r.e.k.sn
  {
    var last := here.entries[|here.entries| - 1];
    FileBounds(f, e);
    SeekKeyBound(u, s, here.largest);
    assert last in EntrySet(here.entries);
    assert Visible(last, u, s);
    KeyOrder(here.largest, f.smallest, e.k);
  }

  /** std::sort(NewestFirst). */
  method SortNewestFirst(fs: seq<File>) returns (r: seq<File>)
    ensures forall f :: f in r <==> f in fs
    ensures forall i, j | 0 <= i < j < |r| :: r[i].number >= r[j].number
  {
    r := [];
    for n := 0 to |fs|
      invariant forall f :: f in r <==> f in fs[..n]
      invariant forall i, j | 0 <= i < j < |r| :: r[i].number >= r[j].number
    {
      var p := 0;
      while p < |r| && r[p].number >= fs[n].number
        invariant p <= |r|
        invariant forall i | 0 <= i < p :: r[i].number >= fs[n].number
      {
        p := p + 1;
      }
      InsertMembers(r, p, fs[n]);
      assert fs[..n + 1] == fs[..n] + [fs[n]];
      r := r[..p] + [fs[n]] + r[p..];
    }
  }

  /** The search of level 0: overlapping tables, newest first. */
  method LevelZeroGet(fs: seq<File>, u: UserKey, s: Sequence) returns (r: Found)
    requires forall f | f in fs :: ValidFile(f)
    requires forall f, g | f in fs && g in fs && f.number > g.number :: NewerThan(f.entries, g.entries)
    requires forall f, g | f in fs && g in fs && f.number == g.number :: f == g
    ensures Answers(FileEntries(fs), u, s, r)
  {
    var tmp: seq<File> := [];
    for i := 0 to |fs|
      invariant forall f :: f in tmp <==> f in fs[..i] && f.smallest.user <= u <= f.largest.user
    {
      if fs[i].smallest.user <= u <= fs[i].largest.user {
        tmp := tmp + [fs[i]];
      }
    }
    tmp := SortNewestFirst(tmp);
    for i := 0 to |tmp|
      invariant forall j | 0 <= j < i :: NoneVisible(tmp[j].entries, u, s)
    {
      r := TableGet(tmp[i], u, s);
      if r.Hit? {
        NewestTableWins(fs, tmp, u, s, i, r.e);
        return;
      }
      assert forall e | e in tmp[i].entries :: e in EntrySet(tmp[i].entries);
    }
    r := NotFound;
    NoTableHas(fs, tmp, u, s);
  }

  lemma NoTableHas(fs: seq<File>, tmp: seq<File>, u: UserKey, s: Sequence)
    requires forall f | f in fs :: ValidFile(f)
    requires forall f :: f in tmp <==> f in fs && f.smallest.user <= u <= f.largest.user
    requires forall j | 0 <= j < |tmp| :: NoneVisible(tmp[j].entries, u, s)
    ensures Answers(FileEntries(fs), u, s, NotFound)
  {
    forall e | e in FileEntries(fs) ensures !Visible(e, u, s) {
      var f :| f in fs && e in f.entries;
      FileBounds(f, e);
      if e.k.user == u {
        var j :| 0 <= j < |tmp| && tmp[j] == f;
        assert NoneVisible(tmp[j].entries, u, s);
      }
    }
  }

  lemma NewestTableWins(fs: seq<File>, tmp: seq<File>, u: UserKey, s: Sequence, i: nat, e: Entry)
    requires forall f | f in fs :: ValidFile(f)
    requires forall f, g | f in fs && g in fs && f.number > g.number :: NewerThan(f.entries, g.entries)
    requires forall f, g | f in fs && g in fs && f.number == g.number :: f == g
    requires forall f :: f in tmp <==> f in fs && f.smallest.user <= u <= f.largest.user
    requires forall a, b | 0 <= a < b < |tmp| :: tmp[a].number >= tmp[b].number
    requires i < |tmp| && forall j | 0 <= j < i :: NoneVisible(tmp[j].entries, u, s)
    requires IsNewest(EntrySet(tmp[i].entries), u, s, e)
    ensures IsNewest(FileEntries(fs), u, s, e)
  {
    var here := tmp[i];
    assert here in tmp;
    forall g, x | g in fs && x in g.entries && Visible(x, u, s) ensures x.k.sn <= e.k.sn {
      FileBounds(g, x);
      var j :| 0 <= j < |tmp| && tmp[j] == g;
      TableBehind(here, g, u, s, e, x, j < i);
    }
  }

  lemma TableBehind(here: File, g: File, u: UserKey, s: Sequence, e: Entry, x: Entry, earlier: bool)
    requires IsNewest(EntrySet(here.entries), u, s, e)
    requires x in g.entries && Visible(x, u, s)
    requires if earlier then NoneVisible(g.entries, u, s) else here == g || NewerThan(here.entries, g.entries)
    ensures x.k.sn <= e.k.sn
  {
    if !earlier && here == g {
      assert x in EntrySet(here.entries);
    }
  }

  /** Version::Get: searching level by level finds the newest entry of u
      visible at s in the whole version. */
  method Get(v: Version, u: UserKey, s: Sequence, ghost bound: nat) returns (r: Found)
    requires ValidVersion(v, bound)
    ensures Answers(VersionEntries(v), u, s, r)
  {
    for level := 0 to NUM_LEVELS
      invariant forall l | 0 <= l < level :: Answers(FileEntries(v[l]), u, s, NotFound)
    {
      if level == 0 {
        LevelZeroOrder(v, bound);
        r := LevelZeroGet(v[0], u, s);
      } else {
        r := SortedLevelGet(v[level], u, s);
      }
      if r.Hit? {
        SmallestLevelWins(v, bound, u, s, level, r.e);
        return;
      }
    }
    r := NotFound;
    NoLevelHas(v, u, s);
  }

  lemma LevelZeroOrder(v: Version, bound: nat)
    requires ValidVersion(v, bound)
    ensures forall f, g | f in v[0] && g in v[0] && f.number > g.number :: NewerThan(f.entries, g.entries)
    ensures forall f, g | f in v[0] && g in v[0] && f.number == g.number :: f == g
  {
    assert forall f, g | f in v[0] && g in v[0] && f.number > g.number :: Above(0, f, 0, g);
  }

  lemma NoLevelHas(v: Version, u: UserKey, s: Sequence)
    requires forall l | 0 <= l < NUM_LEVELS :: Answers(FileEntries(v[l]), u, s, NotFound)
    ensures Answers(VersionEntries(v), u, s, NotFound)
  {
    forall e | VersionHas(v, e) ensures !Visible(e, u, s) {
      var l, f :| 0 <= l < NUM_LEVELS && f in v[l] && e in f.entries;
      assert e in FileEntries(v[l]);
    }
  }

  lemma SmallestLevelWins(v: Version, bound: nat, u: UserKey, s: Sequence, level: nat, e: Entry)
    requires ValidVersion(v, bound) && level < NUM_LEVELS
    requires forall l | 0 <= l < level :: Answers(FileEntries(v[l]), u, s, NotFound)
    requires IsNewest(FileEntries(v[level]), u, s, e)
    ensures IsNewest(VersionEntries(v), u, s, e)
  {
    var f :| f in v[level] && e in f.entries;
    forall x | VersionHas(v, x) && Visible(x, u, s) ensures x.k.sn <= e.k.sn {
      var l, g :| 0 <= l < NUM_LEVELS && g in v[l] && x in g.entries;
      assert x in FileEntries(v[l]);
      if l > level {
        assert Above(level, f, l, g);
      }
    }
  }
}
