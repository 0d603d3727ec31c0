/** Version edits as bytes (db/version_edit.cc). */
module VersionEdits {
  import opened Options
  import opened Coding

  const NUM_LEVELS: nat := 7

  datatype FileMeta = FileMeta(number: nat, size: nat, smallest: Bytes, largest: Bytes)

  /** What an edit says. */
  datatype Edit = Edit(
    comparator: Option<Bytes>, logNumber: Option<nat>, prevLogNumber: Option<nat>, nextFileNumber: Option<nat>,
      lastSequence: Option<nat>,
    compactPointers: seq<(nat, Bytes)>, deletedFiles: set<(nat, nat)>, newFiles: seq<(nat, FileMeta)>)

  const EMPTY := Edit(None, None, None, None, None, [], {}, [])

  /** One tagged entry of the encoding. */
  datatype Item =
    | Comparator(name: Bytes) | LogNumber(n: nat) | PrevLogNumber(n: nat)
    | NextFileNumber(n: nat) | LastSequence(n: nat)
    | CompactPointer(level: nat, key: Bytes) | DeletedFile(level: nat, n: nat) | NewFile(level: nat, f: FileMeta)

  // Widths and levels are those of the C++ types.
  predicate ItemOk(it: Item) {
    match it
    case Comparator(name) => |name| < LIMIT32
    case CompactPointer(level, key) => level < NUM_LEVELS && |key| < LIMIT32
    case DeletedFile(level, n) => level < NUM_LEVELS && n < LIMIT64
    case NewFile(level, f) =>
      level < NUM_LEVELS && f.number < LIMIT64 && f.size < LIMIT64 && |f.smallest| < LIMIT32 && |f.largest| < LIMIT32
    case _ => it.n < LIMIT64
  }

  function TagOf(it: Item): nat {
    match it
    case Comparator(_) => 1
    case LogNumber(_) => 2
    case NextFileNumber(_) => 3
    case LastSequence(_) => 4
    case CompactPointer(_, _) => 5
    case DeletedFile(_, _) => 6
    case NewFile(_, _) => 7
    case PrevLogNumber(_) => 9
  }

  function Body(it: Item): Bytes {
    match it
    case Comparator(name) => Prefixed(name)
    case CompactPointer(level, key) => EncodeVarint(level) + Prefixed(key)
    case DeletedFile(level, n) => EncodeVarint(level) + EncodeVarint(n)
    case NewFile(level, f) => EncodeVarint(level) + FileBytes(f)
    case _ => EncodeVarint(it.n)
  }

  function EncodeItem(it: Item): (b: Bytes)
    ensures |b| >= 1
  {
    EncodeVarint(TagOf(it)) + Body(it)
  }

  function EncodeItems(items: seq<Item>): Bytes {
    if items == [] then [] else EncodeItem(items[0]) + EncodeItems(items[1..])
  }

  // ---- the entries of an edit ----

  // A single entry, or none.
  function Maybe(h: Option<Item>): seq<Item> {
    if h.Some? then [h.value] else []
  }

  function NamePart(e: Edit): Option<Item> {
    if e.comparator.Some? then Some(Comparator(e.comparator.value)) else None
  }

  function LogPart(e: Edit): Option<Item> {
    if e.logNumber.Some? then Some(LogNumber(e.logNumber.value)) else None
  }

  function PrevPart(e: Edit): Option<Item> {
    if e.prevLogNumber.Some? then Some(PrevLogNumber(e.prevLogNumber.value)) else None
  }

  function NextPart(e: Edit): Option<Item> {
    if e.nextFileNumber.Some? then Some(NextFileNumber(e.nextFileNumber.value)) else None
  }

  function SequencePart(e: Edit): Option<Item> {
    if e.lastSequence.Some? then Some(LastSequence(e.lastSequence.value)) else None
  }

  function Heads(e: Edit): seq<Item> {
    Maybe(NamePart(e)) + Maybe(LogPart(e)) + Maybe(PrevPart(e))
    + Maybe(NextPart(e)) + Maybe(SequencePart(e))
  }

  function Pointers(ps: seq<(nat, Bytes)>): seq<Item> {
    if ps == [] then [] else Pointers(ps[..|ps| - 1]) + [CompactPointer(ps[|ps| - 1].0, ps[|ps| - 1].1)]
  }

  function Deletions(ds: seq<(nat, nat)>): seq<Item> {
    if ds == [] then [] else Deletions(ds[..|ds| - 1]) + [DeletedFile(ds[|ds| - 1].0, ds[|ds| - 1].1)]
  }

  function Additions(fs: seq<(nat, FileMeta)>): seq<Item> {
    if fs == [] then [] else Additions(fs[..|fs| - 1]) + [NewFile(fs[|fs| - 1].0, fs[|fs| - 1].1)]
  }

  /** The entries in the order they are written; ds lists the deleted files. */
  function ItemsOf(e: Edit, ds: seq<(nat, nat)>): seq<Item> {
    Heads(e) + Pointers(e.compactPointers) + Deletions(ds) + Additions(e.newFiles)
  }

  // ---- what entries mean ----

  function Apply(e: Edit, it: Item): Edit {
    match it
    case Comparator(name) => e.(comparator := Some(name))
    case LogNumber(n) => e.(logNumber := Some(n))
    case PrevLogNumber(n) => e.(prevLogNumber := Some(n))
    case NextFileNumber(n) => e.(nextFileNumber := Some(n))
    case LastSequence(n) => e.(lastSequence := Some(n))
    case CompactPointer(level, key) => e.(compactPointers := e.compactPointers + [(level, key)])
    case DeletedFile(level, n) => e.(deletedFiles := e.deletedFiles + {(level, n)})
    case NewFile(level, f) => e.(newFiles := e.newFiles + [(level, f)])
  }

  function ApplyAll(e: Edit, items: seq<Item>): Edit {
    if items == [] then e else Apply(ApplyAll(e, items[..|items| - 1]), items[|items| - 1])
  }

  lemma {:induction false} ApplyJoin(e: Edit, a: seq<Item>, b: seq<Item>)
    ensures ApplyAll(e, a + b) == ApplyAll(ApplyAll(e, a), b)
  {
    if b == [] {
      assert a + b == a;
    } else {
      ApplyJoin(e, a, b[..|b| - 1]);
      assert (a + b)[..|a + b| - 1] == a + b[..|b| - 1];
    }
  }

  lemma ApplyTwo(e: Edit, a: Item, b: Item)
    ensures ApplyAll(e, [a]) == Apply(e, a) && ApplyAll(e, [a, b]) == Apply(Apply(e, a), b)
  {
    assert [a][..0] == [] && [a, b][..1] == [a];
  }

  lemma {:induction false} ApplyPointers(e: Edit, ps: seq<(nat, Bytes)>)
    ensures ApplyAll(e, Pointers(ps)) == e.(compactPointers := e.compactPointers + ps)
  {
    if ps == [] {
      assert e.compactPointers + ps == e.compactPointers;
    } else {
      var n := |ps| - 1;
      ApplyPointers(e, ps[..n]);
      assert Pointers(ps)[..|Pointers(ps)| - 1] == Pointers(ps[..n]);
      assert e.compactPointers + ps == e.compactPointers + ps[..n] + [ps[n]];
    }
  }

  lemma {:induction false} ApplyDeletions(e: Edit, ds: seq<(nat, nat)>)
    ensures ApplyAll(e, Deletions(ds)) == e.(deletedFiles := e.deletedFiles + (set d | d in ds))
  {
    if ds != [] {
      var n := |ds| - 1;
      ApplyDeletions(e, ds[..n]);
      assert Deletions(ds)[..|Deletions(ds)| - 1] == Deletions(ds[..n]);
      assert (set d | d in ds) == (set d | d in ds[..n]) + {ds[n]};
    } else {
      assert e.deletedFiles + (set d | d in ds) == e.deletedFiles;
    }
  }

  lemma {:induction false} ApplyAdditions(e: Edit, fs: seq<(nat, FileMeta)>)
    ensures ApplyAll(e, Additions(fs)) == e.(newFiles := e.newFiles + fs)
  {
    if fs == [] {
      assert e.newFiles + fs == e.newFiles;
    } else {
      var n := |fs| - 1;
      ApplyAdditions(e, fs[..n]);
      assert Additions(fs)[..|Additions(fs)| - 1] == Additions(fs[..n]);
      assert e.newFiles + fs == e.newFiles + fs[..n] + [fs[n]];
    }
  }

  lemma ApplyHead(e: Edit, h: Option<Item>)
    ensures ApplyAll(e, Maybe(h)) == if h.Some? then Apply(e, h.value) else e
  {
    if h.Some? {
      ApplyTwo(e, h.value, h.value);
    }
  }

  // The state DecodeFrom starts in: Clear leaves the compaction pointers.
  function Cleared(e: Edit): Edit {
    EMPTY.(compactPointers := e.compactPointers)
  }

  lemma ApplyHeads(before: Edit, e: Edit)
    ensures ApplyAll(Cleared(before), Heads(e))
      == e.(compactPointers := before.compactPointers, deletedFiles := {}, newFiles := [])
  {
    var a, b, c := Maybe(NamePart(e)), Maybe(LogPart(e)), Maybe(PrevPart(e));
    var d, f := Maybe(NextPart(e)), Maybe(SequencePart(e));
    var s := Cleared(before);
    ApplyJoin(s, a + b + c + d, f);
    ApplyJoin(s, a + b + c, d);
    ApplyJoin(s, a + b, c);
    ApplyJoin(s, a, b);
    ApplyHead(s, NamePart(e));
    ApplyHead(ApplyAll(s, a), LogPart(e));
    ApplyHead(ApplyAll(s, a + b), PrevPart(e));
    ApplyHead(ApplyAll(s, a + b + c), NextPart(e));
    ApplyHead(ApplyAll(s, a + b + c + d), SequencePart(e));
  }

  /** Applying an edit's entries gives the edit, after the compaction pointers
      that were there before; on a fresh edit, exactly the edit. */
  lemma ItemsMean(before: Edit, e: Edit, ds: seq<(nat, nat)>)
    requires (set d | d in ds) == e.deletedFiles
    ensures ApplyAll(Cleared(before), ItemsOf(e, ds))
      == e.(compactPointers := before.compactPointers + e.compactPointers)
  {
    var s := Cleared(before);
    ApplyJoin(s, Heads(e) + Pointers(e.compactPointers) + Deletions(ds), Additions(e.newFiles));
    ApplyJoin(s, Heads(e) + Pointers(e.compactPointers), Deletions(ds));
    ApplyJoin(s, Heads(e), Pointers(e.compactPointers));
    ApplyHeads(before, e);
    ApplyPointers(ApplyAll(s, Heads(e)), e.compactPointers);
    FreshLists(ApplyAll(s, Heads(e) + Pointers(e.compactPointers)), ds, e.newFiles);
  }

  lemma FreshLists(e: Edit, ds: seq<(nat, nat)>, fs: seq<(nat, FileMeta)>)
    requires e.deletedFiles == {} && e.newFiles == []
    ensures ApplyAll(ApplyAll(e, Deletions(ds)), Additions(fs)) == e.(deletedFiles := (set d | d in ds), newFiles := fs)
  {
    ApplyDeletions(e, ds);
    var x := e.(deletedFiles := (set d | d in ds));
    assert {} + (set d | d in ds) == (set d | d in ds);
    ApplyAdditions(x, fs);
    NoneFirst(fs);
  }

  lemma NoneFirst(fs: seq<(nat, FileMeta)>)
    ensures [] + fs == fs
  {}

  // ---- reading one entry ----

  // GetLevel
  function GetLevel(b: Bytes): (r: Option<Rest<nat>>)
    ensures r.Some? ==> |r.value.rest| < |b|
  {
    match GetVarint32(b)
    case None => None
    case Some(v) => if v.value < NUM_LEVELS then Some(v) else None
  }

  function GetPointer(b: Bytes): (r: Option<Rest<(nat, Bytes)>>)
    ensures r.Some? ==> |r.value.rest| < |b|
  {
    match GetLevel(b)
    case None => None
    case Some(l) => match GetLengthPrefixedSlice(l.rest)
      case None => None
      case Some(k) => Some(Rest((l.value, k.value), k.rest))
  }

  function GetDeleted(b: Bytes): (r: Option<Rest<(nat, nat)>>)
    ensures r.Some? ==> |r.value.rest| < |b|
  {
    match GetLevel(b)
    case None => None
    case Some(l) => match GetVarint64(l.rest)
      case None => None
      case Some(n) => Some(Rest((l.value, n.value), n.rest))
  }

  function GetFile(b: Bytes): (r: Option<Rest<FileMeta>>)
    ensures r.Some? ==> |r.value.rest| < |b|
  {
    match GetVarint64(b)
    case None => None
    case Some(n) => match GetVarint64(n.rest)
      case None => None
      case Some(z) => match GetLengthPrefixedSlice(z.rest)
        case None => None
        case Some(s) => match GetLengthPrefixedSlice(s.rest)
          case None => None
          case Some(l) => Some(Rest(FileMeta(n.value, z.value, s.value, l.value), l.rest))
  }

  lemma LevelReads(level: nat, tail: Bytes)
    requires level < NUM_LEVELS
    ensures GetLevel(EncodeVarint(level) + tail) == Some(Rest(level, tail))
  {
    Varint32RoundTrip(level, tail);
  }

  lemma PointerReads(level: nat, key: Bytes, tail: Bytes)
    requires level < NUM_LEVELS && |key| < LIMIT32
    ensures GetPointer(EncodeVarint(level) + Prefixed(key) + tail) == Some(Rest((level, key), tail))
  {
    LevelReads(level, Prefixed(key) + tail);
    SliceRoundTrip(key, tail);
    Reassociate(EncodeVarint(level), Prefixed(key), tail);
  }

  lemma DeletedReads(level: nat, n: nat, tail: Bytes)
    requires level < NUM_LEVELS && n < LIMIT64
    ensures GetDeleted(EncodeVarint(level) + EncodeVarint(n) + tail) == Some(Rest((level, n), tail))
  {
    LevelReads(level, EncodeVarint(n) + tail);
    Varint64RoundTrip(n, tail);
    Reassociate(EncodeVarint(level), EncodeVarint(n), tail);
  }

  function FileBytes(f: FileMeta): Bytes {
    EncodeVarint(f.number) + EncodeVarint(f.size) + Prefixed(f.smallest) + Prefixed(f.largest)
  }

  lemma FileReads(f: FileMeta, tail: Bytes)
    requires f.number < LIMIT64 && f.size < LIMIT64 && |f.smallest| < LIMIT32 && |f.largest| < LIMIT32
    ensures GetFile(FileBytes(f) + tail) == Some(Rest(f, tail))
  {
    var n, z, s, l := EncodeVarint(f.number), EncodeVarint(f.size), Prefixed(f.smallest), Prefixed(f.largest);
    Varint64RoundTrip(f.number, z + (s + (l + tail)));
    Varint64RoundTrip(f.size, s + (l + tail));
    SliceRoundTrip(f.smallest, l + tail);
    SliceRoundTrip(f.largest, tail);
    Shift4(n, z, s, l, tail);
  }

  lemma Shift4(a: Bytes, b: Bytes, c: Bytes, d: Bytes, e: Bytes)
    ensures a + b + c + d + e == a + (b + (c + (d + e)))
  {}

  // ---- the edit object ----

  lemma {:induction false} EncodeJoin(a: seq<Item>, b: seq<Item>)
    ensures EncodeItems(a + b) == EncodeItems(a) + EncodeItems(b)
  {
    if a == [] {
      assert a + b == b;
      NoneBefore(EncodeItems(b));
    } else {
      EncodeJoin(a[1..], b);
      HeadAndTail(a, b);
      Reassociate(EncodeItem(a[0]), EncodeItems(a[1..]), EncodeItems(b));
    }
  }

  lemma HeadAndTail(a: seq<Item>, b: seq<Item>)
    requires a != []
    ensures EncodeItems(a + b) == EncodeItem(a[0]) + EncodeItems(a[1..] + b)
      && EncodeItems(a) == EncodeItem(a[0]) + EncodeItems(a[1..])
  {
    assert (a + b)[1..] == a[1..] + b;
  }

  lemma EncodeOne(it: Item)
    ensures EncodeItems([it]) == EncodeItem(it)
  {
    assert [it][1..] == [];
  }

  ghost predicate AllOk(items: seq<Item>) {
    forall k | 0 <= k < |items| :: ItemOk(items[k])
  }

  class VersionEdit {
    var comparator: Option<Bytes>
    var logNumber: Option<nat>
    var prevLogNumber: Option<nat>
    var nextFileNumber: Option<nat>
    var lastSequence: Option<nat>
    var compactPointers: seq<(nat, Bytes)>
    var deletedFiles: set<(nat, nat)>
    var newFiles: seq<(nat, FileMeta)>

    function Contents(): Edit
      reads this
    {
      Edit(comparator, logNumber, prevLogNumber, nextFileNumber, lastSequence, compactPointers, deletedFiles, newFiles)
    }

    constructor ()
      ensures Contents() == EMPTY
    {
      comparator, logNumber, prevLogNumber, nextFileNumber, lastSequence := None, None, None, None, None;
      compactPointers, deletedFiles, newFiles := [], {}, [];
    }

    /** Everything but the compaction pointers. */
    method Clear()
      modifies this
      ensures Contents() == Cleared(old(Contents()))
    {
      comparator, logNumber, prevLogNumber, nextFileNumber, lastSequence := None, None, None, None, None;
      deletedFiles, newFiles := {}, [];
    }

    static method Put(dst: Bytes, it: Item, ghost start: Bytes, ghost items: seq<Item>) returns (r: Bytes)
      requires dst == start + EncodeItems(items)
      ensures r == start + EncodeItems(items + [it])
    {
      EncodeJoin(items, [it]);
      EncodeOne(it);
      Reassociate(start, EncodeItems(items), EncodeItem(it));
      r := dst + EncodeItem(it);
    }

    static method PutMaybe(dst: Bytes, h: Option<Item>, ghost start: Bytes, ghost items: seq<Item>) returns (r: Bytes)
      requires dst == start + EncodeItems(items)
      ensures r == start + EncodeItems(items + Maybe(h))
    {
      if h.Some? {
        r := Put(dst, h.value, start, items);
      } else {
        assert items + Maybe(h) == items;
        r := dst;
      }
    }

    method EncodeHeads(dst: Bytes) returns (r: Bytes)
      ensures r == dst + EncodeItems(Heads(Contents()))
    {
      ghost var e := Contents();
      NothingYet(dst);
      r := PutMaybe(dst, if comparator.Some? then Some(Comparator(comparator.value)) else None, dst, []);
      assert [] + Maybe(NamePart(e)) == Maybe(NamePart(e));
      r := PutMaybe(r, if logNumber.Some? then Some(LogNumber(logNumber.value)) else None, dst, Maybe(NamePart(e)));
      r := PutMaybe(r, if prevLogNumber.Some? then Some(PrevLogNumber(prevLogNumber.value)) else None, dst,
        Maybe(NamePart(e)) + Maybe(LogPart(e)));
      r := PutMaybe(r, if nextFileNumber.Some? then Some(NextFileNumber(nextFileNumber.value)) else None, dst,
        Maybe(NamePart(e)) + Maybe(LogPart(e)) + Maybe(PrevPart(e)));
      r := PutMaybe(r, if lastSequence.Some? then Some(LastSequence(lastSequence.value)) else None, dst,
        Maybe(NamePart(e)) + Maybe(LogPart(e)) + Maybe(PrevPart(e)) + Maybe(NextPart(e)));
    }

    /** Writes the entries; the deleted files come in the set's own order, here
        any. */
    method EncodeTo(dst: Bytes) returns (r: Bytes, ghost ds: seq<(nat, nat)>)
      ensures (set d | d in ds) == deletedFiles && r == dst + EncodeItems(ItemsOf(Contents(), ds))
    {
      ghost var e := Contents();
      r := EncodeHeads(dst);
      NothingMore(Heads(e));
      for i := 0 to |compactPointers|
        invariant r == dst + EncodeItems(Heads(e) + Pointers(e.compactPointers[..i]))
      {
        assert e.compactPointers[..i + 1][..i] == e.compactPointers[..i];
        Assoc(Heads(e), Pointers(e.compactPointers[..i]), CompactPointer(compactPointers[i].0, compactPointers[i].1));
        r := Put(r, CompactPointer(compactPointers[i].0, compactPointers[i].1), dst,
          Heads(e) + Pointers(e.compactPointers[..i]));
      }
      assert e.compactPointers[..|e.compactPointers|] == e.compactPointers;
      r, ds := EncodeDeleted(r, dst, Heads(e) + Pointers(e.compactPointers));
      r := EncodeNew(r, dst, Heads(e) + Pointers(e.compactPointers) + Deletions(ds));
    }

    method EncodeDeleted(dst: Bytes, ghost start: Bytes, ghost items: seq<Item>)
      returns (r: Bytes, ghost ds: seq<(nat, nat)>)
      requires dst == start + EncodeItems(items)
      ensures (set d | d in ds) == deletedFiles && r == start + EncodeItems(items + Deletions(ds))
    {
      r, ds := dst, [];
      NothingMore(items);
      var todo := deletedFiles;
      while todo != {}
        invariant r == start + EncodeItems(items + Deletions(ds)) && todo <= deletedFiles
          && (set d | d in ds) == deletedFiles - todo
        decreases todo
      {
        var d :| d in todo;
        assert (ds + [d])[..|ds|] == ds;
        Assoc(items, Deletions(ds), DeletedFile(d.0, d.1));
        r := Put(r, DeletedFile(d.0, d.1), start, items + Deletions(ds));
        assert (set x | x in ds + [d]) == (set x | x in ds) + {d};
        ds := ds + [d];
        todo := todo - {d};
      }
    }

    method EncodeNew(dst: Bytes, ghost start: Bytes, ghost items: seq<Item>) returns (r: Bytes)
      requires dst == start + EncodeItems(items)
      ensures r == start + EncodeItems(items + Additions(newFiles))
    {
      r := dst;
      NothingMore(items);
      for i := 0 to |newFiles|
        invariant r == start + EncodeItems(items + Additions(newFiles[..i]))
      {
        assert newFiles[..i + 1][..i] == newFiles[..i];
        Assoc(items, Additions(newFiles[..i]), NewFile(newFiles[i].0, newFiles[i].1));
        r := Put(r, NewFile(newFiles[i].0, newFiles[i].1), start, items + Additions(newFiles[..i]));
      }
      assert newFiles[..|newFiles|] == newFiles;
    }

    /** Reads one entry: its tag is known, its body comes next. */
    method DecodeOne(tag: nat, input: Bytes, ghost it: Item, ghost tail: Bytes) returns (ok: bool, rest: Bytes)
      modifies this
      ensures ok ==> |rest| < |input|
      ensures ItemOk(it) && tag == TagOf(it) && input == Body(it) + tail
        ==> ok && rest == tail && Contents() == Apply(old(Contents()), it)
    {
      match tag
      case 1 => ok, rest := DecodeName(input, it, tail);
      case 5 => ok, rest := DecodePointer(input, it, tail);
      case 6 => ok, rest := DecodeDeleted(input, it, tail);
      case 7 => ok, rest := DecodeNew(input, it, tail);
      case _ => ok, rest := DecodeNumber(tag, input, it, tail);
    }

    method DecodeName(input: Bytes, ghost it: Item, ghost tail: Bytes) returns (ok: bool, rest: Bytes)
      modifies this`comparator
      ensures ok ==> |rest| < |input|
      ensures ItemOk(it) && it.Comparator? && input == Body(it) + tail
        ==> ok && rest == tail && Contents() == Apply(old(Contents()), it)
    {
      Known(it, tail);
      match GetLengthPrefixedSlice(input)
      case None => return false, input;
      case Some(r) =>
        comparator := Some(r.value);
        return true, r.rest;
    }

    method DecodePointer(input: Bytes, ghost it: Item, ghost tail: Bytes) returns (ok: bool, rest: Bytes)
      modifies this`compactPointers
      ensures ok ==> |rest| < |input|
      ensures ItemOk(it) && it.CompactPointer? && input == Body(it) + tail
        ==> ok && rest == tail && Contents() == Apply(old(Contents()), it)
    {
      Known(it, tail);
      match GetPointer(input)
      case None => return false, input;
      case Some(r) =>
        compactPointers := compactPointers + [r.value];
        return true, r.rest;
    }

    method DecodeDeleted(input: Bytes, ghost it: Item, ghost tail: Bytes) returns (ok: bool, rest: Bytes)
      modifies this`deletedFiles
      ensures ok ==> |rest| < |input|
      ensures ItemOk(it) && it.DeletedFile? && input == Body(it) + tail
        ==> ok && rest == tail && Contents() == Apply(old(Contents()), it)
    {
      Known(it, tail);
      match GetDeleted(input)
      case None => return false, input;
      case Some(r) =>
        deletedFiles := deletedFiles + {r.value};
        return true, r.rest;
    }

    method DecodeNew(input: Bytes, ghost it: Item, ghost tail: Bytes) returns (ok: bool, rest: Bytes)
      modifies this`newFiles
      ensures ok ==> |rest| < |input|
      ensures ItemOk(it) && it.NewFile? && input == Body(it) + tail
        ==> ok && rest == tail && Contents() == Apply(old(Contents()), it)
    {
      Known(it, tail);
      match GetNew(input)
      case None => return false, input;
      case Some(r) =>
        newFiles := newFiles + [r.value];
        return true, r.rest;
    }

    method DecodeNumber(tag: nat, input: Bytes, ghost it: Item, ghost tail: Bytes) returns (ok: bool, rest: Bytes)
      requires tag !in {1, 5, 6, 7}
      modifies this
      ensures ok ==> |rest| < |input|
      ensures ItemOk(it) && tag == TagOf(it) && input == Body(it) + tail
        ==> ok && rest == tail && Contents() == Apply(old(Contents()), it)
    {
      if tag !in {2, 3, 4, 9} {
        // An unknown tag.
        return false, input;
      }
      Known(it, tail);
      match GetVarint64(input)
      case None => ok, rest := false, input;
      case Some(r) =>
        ok, rest := true, r.rest;
        match tag {
          case 2 => logNumber := Some(r.value);
          case 3 => nextFileNumber := Some(r.value);
          case 4 => lastSequence := Some(r.value);
          case _ => prevLogNumber := Some(r.value);
        }
    }

    /** Reads entries until the input ends. */
    method DecodeFrom(src: Bytes, ghost items: seq<Item>) returns (ok: bool)
      modifies this
      ensures AllOk(items) && src == EncodeItems(items)
        ==> ok && Contents() == ApplyAll(Cleared(old(Contents())), items)
    {
      Clear();
      var input := src;
      ghost var k := 0;
      ghost var known := AllOk(items) && src == EncodeItems(items);
      assert items[..0] == [] && items[0..] == items;
      while true
        invariant known ==>
          && k <= |items| && input == EncodeItems(items[k..])
          && Contents() == ApplyAll(Cleared(old(Contents())), items[..k])
        decreases |input|
      {
        match GetVarint32(input)
        case None =>
          if known {
            AtEnd(items, k, input);
          }
          return input == [];
        case Some(t) =>
          ghost var it, tail := EMPTY_ITEM, [];
          if known {
            NextItem(items, k, input);
            it, tail := items[k], EncodeItems(items[k + 1..]);
          }
          ok, input := DecodeOne(t.value, t.rest, it, tail);
          if !ok {
            return;
          }
          k := k + 1;
      }
    }
  }

  /** Names, keys and numbers have the widths of the C++ types. */
  ghost predicate EditOk(e: Edit) {
    && AllOk(Heads(e)) && (forall i | 0 <= i < |e.compactPointers| ::
      ItemOk(CompactPointer(e.compactPointers[i].0, e.compactPointers[i].1)))
    && (forall d | d in e.deletedFiles :: ItemOk(DeletedFile(d.0, d.1)))
    && forall i | 0 <= i < |e.newFiles| :: ItemOk(NewFile(e.newFiles[i].0, e.newFiles[i].1))
  }

  lemma {:induction false} PointersOk(ps: seq<(nat, Bytes)>)
    requires forall i | 0 <= i < |ps| :: ItemOk(CompactPointer(ps[i].0, ps[i].1))
    ensures AllOk(Pointers(ps))
  {
    if ps != [] {
      PointersOk(ps[..|ps| - 1]);
    }
  }

  lemma {:induction false} DeletionsOk(ds: seq<(nat, nat)>)
    requires forall i | 0 <= i < |ds| :: ItemOk(DeletedFile(ds[i].0, ds[i].1))
    ensures AllOk(Deletions(ds))
  {
    if ds != [] {
      DeletionsOk(ds[..|ds| - 1]);
    }
  }

  lemma {:induction false} AdditionsOk(fs: seq<(nat, FileMeta)>)
    requires forall i | 0 <= i < |fs| :: ItemOk(NewFile(fs[i].0, fs[i].1))
    ensures AllOk(Additions(fs))
  {
    if fs != [] {
      AdditionsOk(fs[..|fs| - 1]);
    }
  }

  lemma EntriesOk(e: Edit, ds: seq<(nat, nat)>)
    requires EditOk(e) && (set d | d in ds) == e.deletedFiles
    ensures AllOk(ItemsOf(e, ds))
  {
    PointersOk(e.compactPointers);
    forall i | 0 <= i < |ds| ensures ItemOk(DeletedFile(ds[i].0, ds[i].1)) {
      assert ds[i] in e.deletedFiles;
    }
    DeletionsOk(ds);
    AdditionsOk(e.newFiles);
  }

  /** An edit written and read back into another object: on a fresh one it is the
      same edit; compaction pointers already there stay in front. */
  method ThereAndBack(from: VersionEdit, into: VersionEdit) returns (ok: bool)
    requires from != into && EditOk(from.Contents())
    modifies into
    ensures ok && into.Contents()
      == from.Contents().(compactPointers := old(into.compactPointers) + from.compactPointers)
  {
    var bytes;
    ghost var ds;
    bytes, ds := from.EncodeTo([]);
    NoneBefore(EncodeItems(ItemsOf(from.Contents(), ds)));
    EntriesOk(from.Contents(), ds);
    ItemsMean(into.Contents(), from.Contents(), ds);
    ok := into.DecodeFrom(bytes, ItemsOf(from.Contents(), ds));
  }

  const EMPTY_ITEM := LogNumber(0)

  function GetNew(b: Bytes): (r: Option<Rest<(nat, FileMeta)>>)
    ensures r.Some? ==> |r.value.rest| < |b|
  {
    match GetLevel(b)
    case None => None
    case Some(l) => match GetFile(l.rest)
      case None => None
      case Some(f) => Some(Rest((l.value, f.value), f.rest))
  }

  /** What the parser of an entry's tag finds in its body. */
  lemma Known(it: Item, tail: Bytes)
    ensures ItemOk(it) ==> match it
      case Comparator(name) => GetLengthPrefixedSlice(Body(it) + tail) == Some(Rest(name, tail))
      case CompactPointer(level, key) => GetPointer(Body(it) + tail) == Some(Rest((level, key), tail))
      case DeletedFile(level, n) => GetDeleted(Body(it) + tail) == Some(Rest((level, n), tail))
      case NewFile(level, f) => GetNew(Body(it) + tail) == Some(Rest((level, f), tail))
      case _ => GetVarint64(Body(it) + tail) == Some(Rest(it.n, tail))
  {
    if ItemOk(it) {
      match it
      case Comparator(name) => SliceRoundTrip(name, tail);
      case CompactPointer(level, key) => PointerReads(level, key, tail);
      case DeletedFile(level, n) => DeletedReads(level, n, tail);
      case NewFile(level, f) =>
        LevelReads(level, FileBytes(f) + tail);
        FileReads(f, tail);
        Reassociate(EncodeVarint(level), FileBytes(f), tail);
      case _ => Varint64RoundTrip(it.n, tail);
    }
  }

  lemma NothingYet(dst: Bytes)
    ensures dst == dst + EncodeItems([])
  {}

  lemma NothingMore(items: seq<Item>)
    ensures items + [] == items && Pointers([]) == [] && Deletions([]) == [] && Additions([]) == []
  {}

  lemma Assoc(a: seq<Item>, b: seq<Item>, it: Item)
    ensures a + b + [it] == a + (b + [it])
  {}

  // The entry that comes next, and what follows it.
  lemma NextItem(items: seq<Item>, k: nat, input: Bytes)
    requires k <= |items| && input == EncodeItems(items[k..]) && GetVarint32(input).Some?
    ensures k < |items| && GetVarint32(input)
      == Some(Rest(TagOf(items[k]), Body(items[k]) + EncodeItems(items[k + 1..])))
    ensures items[..k + 1][..k] == items[..k] && items[..k + 1][k] == items[k]
  {
    var it, tail := items[k], EncodeItems(items[k + 1..]);
    assert items[k..][1..] == items[k + 1..];
    Reassociate(EncodeVarint(TagOf(it)), Body(it), tail);
    Varint32RoundTrip(TagOf(it), Body(it) + tail);
  }

  // Only at the end is there no tag.
  lemma AtEnd(items: seq<Item>, k: nat, input: Bytes)
    requires k <= |items| && input == EncodeItems(items[k..]) && GetVarint32(input).None?
    ensures k == |items| && input == [] && items[..k] == items
  {
    if k < |items| {
      var it, tail := items[k], EncodeItems(items[k + 1..]);
      assert items[k..][1..] == items[k + 1..];
      Reassociate(EncodeVarint(TagOf(it)), Body(it), tail);
      Varint32RoundTrip(TagOf(it), Body(it) + tail);
    }
  }
}
