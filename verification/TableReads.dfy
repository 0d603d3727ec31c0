/** Looking a key up in a table file (table/table.cc). */
module TableReads {
  import Keys
  import opened Options
  import opened Coding
  import opened Blocks
  import opened ByteKeys
  import Bloom
  import opened FilterBlocks
  import opened TableFormat
  import opened TableParts

  /** pos is the first position at or after k. */
  ghost predicate FirstAt(es: seq<KeyValue>, k: Bytes, pos: nat) {
    && pos <= |es| && (forall q | 0 <= q < pos :: KeyLess(es[q].key, k))
    && (pos < |es| ==> !KeyLess(es[pos].key, k))
  }

  // What a seek in the index block finds.
  ghost predicate IndexFinds(p: Parts, k: Bytes, i: nat) {
    && i <= |p.seps| && (forall j | 0 <= j < i :: KeyLess(p.seps[j], k))
    && (i < |p.seps| ==> !KeyLess(p.seps[i], k))
  }

  // Every block is written and indexed.
  ghost predicate Whole(c: Codec, file: Bytes, p: Parts) {
    Parted(c, file, p) && |p.seps| == |p.handles| && p.ends[|p.handles|] == |p.es|
  }

  /** es are the entries of block i. */
  ghost predicate IsSection(p: Parts, i: nat, es: seq<KeyValue>) {
    && i + 1 < |p.ends| && p.ends[i] <= p.ends[i + 1] <= |p.es| && |es| == p.ends[i + 1] - p.ends[i]
    && forall j | 0 <= j < |es| :: es[j] == p.es[p.ends[i] + j]
  }

  lemma SepsInternal(c: Codec, file: Bytes, p: Parts, i: nat)
    requires Whole(c, file, p) && i < |p.seps|
    ensures 0 <= p.ends[i] < p.ends[i + 1] <= |p.es| && IsInternal(p.seps[i]) && IsInternal(p.es[p.ends[i + 1] - 1].key)
    ensures !KeyLess(p.seps[i], p.es[p.ends[i + 1] - 1].key)
    ensures p.ends[i + 1] < |p.es| ==> Divides(p.seps[i], p.es[p.ends[i + 1] - 1].key, p.es[p.ends[i + 1]].key)
  {
    assert Separates(p, i) && Rises(p.ends, i, i + 1);
    NotPast(p.seps[i], p.es[p.ends[i + 1] - 1].key);
  }

  lemma NotPast(sep: Bytes, last: Bytes)
    requires Closes(sep, last)
    ensures !KeyLess(sep, last)
  {
    BytesOrder(User(last), User(sep), User(last));
    BytesOrder(User(sep), User(sep), User(sep));
  }

  /** A later key is past the separator. */
  lemma SepBefore(c: Codec, file: Bytes, p: Parts, i: nat, q: nat)
    requires Whole(c, file, p) && i < |p.seps| && p.ends[i + 1] <= q < |p.es|
    ensures KeyLess(p.seps[i], p.es[q].key)
  {
    SepsInternal(c, file, p, i);
    var e := p.ends[i + 1];
    if e < q {
      assert Before(p.es, e, q);
      KeyOrder(p.seps[i], p.es[e].key, p.es[q].key);
    }
  }

  /** An earlier key is not past it. */
  lemma SepAfter(c: Codec, file: Bytes, p: Parts, i: nat, q: nat)
    requires Whole(c, file, p) && i < |p.seps| && q < p.ends[i + 1]
    ensures q < |p.es| && IsInternal(p.es[q].key) && IsInternal(p.seps[i]) && !KeyLess(p.seps[i], p.es[q].key)
  {
    SepsInternal(c, file, p, i);
    var e := p.ends[i + 1];
    if q < e - 1 {
      assert Before(p.es, q, e - 1);
      KeyOrder(p.seps[i], p.es[q].key, p.es[e - 1].key);
    }
  }

  lemma SepsAscend(c: Codec, file: Bytes, p: Parts, i: nat, j: nat)
    requires Whole(c, file, p) && i < j < |p.seps|
    ensures KeyLess(p.seps[i], p.seps[j])
  {
    SepsInternal(c, file, p, j);
    var q := p.ends[j + 1] - 1;
    if i + 1 < j {
      assert Rises(p.ends, i + 1, j);
    }
    SepBefore(c, file, p, i, q);
    KeyOrder(p.seps[i], p.es[q].key, p.seps[j]);
  }

  /** The keys before the block the index names are all before k. */
  lemma EarlierBlocks(c: Codec, file: Bytes, p: Parts, k: Bytes, i: nat, q: nat)
    requires Whole(c, file, p) && IsInternal(k) && IndexFinds(p, k, i) && q < p.ends[i]
    ensures q < |p.es| && KeyLess(p.es[q].key, k)
  {
    SepAfter(c, file, p, i - 1, q);
    KeyOrder(p.es[q].key, p.seps[i - 1], k);
  }

  /** Seeking in that block finds the first position at or after k in the whole
      table. When it runs off the block's end, shortening the separator hid
      nothing: the entry there has another user key. */
  lemma SeekInBlock(c: Codec, file: Bytes, p: Parts, k: Bytes, i: nat, es: seq<KeyValue>, j: nat)
    requires Whole(c, file, p) && IsInternal(k) && IndexFinds(p, k, i) && i < |p.seps|
    requires IsSection(p, i, es) && FirstAt(es, k, j)
    ensures FirstAt(p.es, k, p.ends[i] + j)
    ensures p.ends[i] + j < |p.es| && j == |es| ==> User(p.es[p.ends[i] + j].key) != User(k)
  {
    forall q | 0 <= q < p.ends[i] + j ensures KeyLess(p.es[q].key, k) {
      EntryBefore(c, file, p, k, i, es, j, q);
    }
    EntryAfter(c, file, p, k, i, es, j);
  }

  lemma EntryBefore(c: Codec, file: Bytes, p: Parts, k: Bytes, i: nat, es: seq<KeyValue>, j: nat, q: nat)
    requires Whole(c, file, p) && IsInternal(k) && IndexFinds(p, k, i) && i < |p.seps|
    requires IsSection(p, i, es) && FirstAt(es, k, j) && q < p.ends[i] + j
    ensures q < |p.es| && KeyLess(p.es[q].key, k)
  {
    if q < p.ends[i] {
      EarlierBlocks(c, file, p, k, i, q);
    } else {
      assert es[q - p.ends[i]] == p.es[q];
    }
  }

  lemma EntryAfter(c: Codec, file: Bytes, p: Parts, k: Bytes, i: nat, es: seq<KeyValue>, j: nat)
    requires Whole(c, file, p) && IsInternal(k) && IndexFinds(p, k, i) && i < |p.seps|
    requires IsSection(p, i, es) && FirstAt(es, k, j)
    ensures p.ends[i] + j < |p.es| ==> !KeyLess(p.es[p.ends[i] + j].key, k)
    ensures p.ends[i] + j < |p.es| && j == |es| ==> User(p.es[p.ends[i] + j].key) != User(k)
  {
    if j < |es| {
      assert es[j] == p.es[p.ends[i] + j];
    } else if p.ends[i] + j < |p.es| {
      AfterBlock(c, file, p, k, i, es);
    }
  }

  // The first entry of the next block, when all of block i is before the key.
  lemma AfterBlock(c: Codec, file: Bytes, p: Parts, k: Bytes, i: nat, es: seq<KeyValue>)
    requires Whole(c, file, p) && IsInternal(k) && IndexFinds(p, k, i) && i < |p.seps|
    requires IsSection(p, i, es) && FirstAt(es, k, |es|) && p.ends[i] + |es| < |p.es|
    ensures var next := p.es[p.ends[i] + |es|].key; !KeyLess(next, k) && User(next) != User(k)
  {
    var e := p.ends[i + 1];
    SepsInternal(c, file, p, i);
    assert es[|es| - 1] == p.es[e - 1];
    PastTheBlock(p.es[e - 1].key, p.seps[i], p.es[e].key, k);
  }

  lemma PastTheBlock(last: Bytes, sep: Bytes, next: Bytes, k: Bytes)
    requires Divides(sep, last, next) && IsInternal(k) && KeyLess(last, k) && !KeyLess(sep, k)
    ensures !KeyLess(next, k) && User(next) != User(k)
  {
    KeyOrder(k, sep, next);
    KeyOrder(next, k, sep);
    KeyOrder(sep, next, k);
  }

  /** When k is past every separator, it is past every key. */
  lemma PastTheIndex(c: Codec, file: Bytes, p: Parts, k: Bytes)
    requires Whole(c, file, p) && IsInternal(k) && IndexFinds(p, k, |p.seps|)
    ensures FirstAt(p.es, k, |p.es|)
  {
    forall q | 0 <= q < |p.es| ensures KeyLess(p.es[q].key, k) {
      EarlierBlocks(c, file, p, k, |p.seps|, q);
    }
  }

  /** What InternalGet reports: the first entry at or after k, unless that has
      another user key, when it may report nothing. */
  ghost predicate Answers(es: seq<KeyValue>, k: Bytes, pos: nat, r: Option<KeyValue>) {
    && IsInternal(k) && FirstAt(es, k, pos)
    && match r
       case Some(kv) => pos < |es| && kv == es[pos]
       case None => pos < |es| ==> IsInternal(es[pos].key) && User(es[pos].key) != User(k)
  }

  /** When the filter rules k out at the block's offset, no key of the block has
      its user key. */
  lemma RuledOut(c: Codec, policy: Bloom.Policy, file: Bytes, p: Parts, f: Filtering, k: Bytes, i: nat, j: nat)
    requires Whole(c, file, p) && IsInternal(k) && i < |p.handles| && FilterStored(c, policy, file, p, f)
    requires !Admits(policy, f.data, f.offs, f.end, p.handles[i].offset, k)
    requires p.ends[i] <= j < p.ends[i + 1] <= |p.es|
    ensures User(p.es[j].key) != User(k)
  {
    assert BlockMarked(p, f.marks, i);
    var m := Mark(p.handles[i].offset, p.es[j].key);
    assert m in f.marks;
    if User(p.es[j].key) == User(k) {
      NeverRuledOut(policy, f.data, f.offs, f.end, f.marks, m, k);
      assert false;
    }
  }

  lemma IndexOrder(c: Codec, file: Bytes, p: Parts, ies: seq<KeyValue>, l: Layout)
    requires Whole(c, file, p) && IsIndex(ies, p) && l.es == ies
    ensures Ascending(l, KeyLess)
  {
    forall i, j | 0 <= i < j < |l.es| ensures KeyLess(l.es[i].key, l.es[j].key) {
      assert IndexAt(ies, p, i) && IndexAt(ies, p, j);
      SepsAscend(c, file, p, i, j);
    }
  }

  lemma SectionOrder(c: Codec, file: Bytes, p: Parts, i: nat, l: Layout)
    requires Whole(c, file, p) && i < |p.handles| && IsSection(p, i, l.es)
    ensures Ascending(l, KeyLess)
  {
    forall a, b | 0 <= a < b < |l.es| ensures KeyLess(l.es[a].key, l.es[b].key) {
      assert Before(p.es, p.ends[i] + a, p.ends[i] + b);
    }
  }

  lemma KeysTransitive()
    ensures Transitive(KeyLess) && Transitive(BytesLess)
  {
    forall a, b, c ensures KeyLess(a, b) && KeyLess(b, c) ==> KeyLess(a, c) {
      KeyOrder(a, b, c);
    }
    forall a, b, c ensures BytesLess(a, b) && BytesLess(b, c) ==> BytesLess(a, c) {
      BytesOrder(a, b, c);
    }
  }

  // What the index entry at i says.
  lemma IndexEntry(p: Parts, ies: seq<KeyValue>, i: nat)
    requires IsIndex(ies, p) && i < |ies| && Fits(p.handles[i])
    ensures DecodeHandle(ies[i].value) == Some(Rest(p.handles[i], [])) && ies[i].key == p.seps[i]
  {
    assert IndexAt(ies, p, i);
    HandleRoundTrip(p.handles[i], []);
    assert EncodeHandle(p.handles[i]) + [] == EncodeHandle(p.handles[i]);
  }

  // The index block's seek, on the separators.
  lemma IndexSought(p: Parts, ies: seq<KeyValue>, k: Bytes, i: nat)
    requires IsIndex(ies, p) && i <= |ies| && (forall j | 0 <= j < i :: KeyLess(ies[j].key, k))
      && (i < |ies| ==> !KeyLess(ies[i].key, k))
    ensures IndexFinds(p, k, i)
  {
    forall j | 0 <= j < i ensures KeyLess(p.seps[j], k) {
      assert IndexAt(ies, p, j);
    }
    if i < |ies| {
      assert IndexAt(ies, p, i);
    }
  }

  lemma SectionIs(c: Codec, file: Bytes, p: Parts, i: nat) returns (es: seq<KeyValue>)
    requires Whole(c, file, p) && i < |p.handles|
    ensures IsSection(p, i, es) && HoldsBlock(c, file, p.handles[i], es)
  {
    assert Section(c, file, p, i);
    es := p.es[p.ends[i]..p.ends[i + 1]];
  }

  lemma {:induction false} FirstExists(es: seq<KeyValue>, k: Bytes) returns (j: nat)
    ensures FirstAt(es, k, j)
  {
    if es == [] {
      return 0;
    }
    var n := |es| - 1;
    j := FirstExists(es[..n], k);
    if j == n && KeyLess(es[n].key, k) {
      j := n + 1;
    }
  }

  /** A block that was sought answers for the table. */
  lemma BlockAnswers(c: Codec, file: Bytes, p: Parts, k: Bytes, i: nat, es: seq<KeyValue>, j: nat)
    requires Whole(c, file, p) && IsInternal(k) && IndexFinds(p, k, i) && i < |p.seps|
    requires IsSection(p, i, es) && FirstAt(es, k, j)
    ensures Answers(p.es, k, p.ends[i] + j, if j < |es| then Some(es[j]) else None)
  {
    SeekInBlock(c, file, p, k, i, es, j);
  }

  /** A block the filter ruled out does too. */
  lemma FilterAnswers(c: Codec, policy: Bloom.Policy, file: Bytes, p: Parts, f: Filtering, k: Bytes, i: nat)
    returns (pos: nat)
    requires Whole(c, file, p) && IsInternal(k) && IndexFinds(p, k, i) && i < |p.seps|
      && FilterStored(c, policy, file, p, f)
    requires !Admits(policy, f.data, f.offs, f.end, p.handles[i].offset, k)
    ensures Answers(p.es, k, pos, None)
  {
    var es := SectionIs(c, file, p, i);
    var j := FirstExists(es, k);
    SeekInBlock(c, file, p, k, i, es, j);
    pos := p.ends[i] + j;
    if j < |es| {
      RuledOut(c, policy, file, p, f, k, i, pos);
    }
  }

  // A seek for the metaindex key stops at it.
  lemma MetaFound(key: Bytes, f: Option<Filtering>, i: nat)
    requires i <= |MetaEntries(key, f)| && forall j | 0 <= j < i :: BytesLess(MetaEntries(key, f)[j].key, key)
    ensures i == 0 && (f.Some? ==> MetaEntries(key, f)[0].key == key)
  {
    BytesOrder(key, key, key);
  }

  /** An opened table. What the ghost fields say lets every read succeed. */
  class Table {
    const codec: Codec
    const file: Bytes
    const policy: Bloom.Policy
    const indexData: Bytes
    const filter: FilterBlockReader?
    ghost const p: Parts
    ghost const ies: seq<KeyValue>
    ghost const f: Option<Filtering>
    ghost const limit: nat
    ghost const l: Layout

    ghost predicate Ok() {
      && Whole(codec, file, p) && IsIndex(ies, p)
      && BlockOf(indexData, limit, l) && l.es == ies
      && (filter != null ==>
        && f.Some? && FilterStored(codec, policy, file, p, f.value) && filter.Valid() && filter.policy == policy
        && filter.contents == f.value.data && filter.Reads(f.value.offs, f.value.end))
    }

    /** Reads the footer, the index block and, when asked, the filter. The file
        is one that was built: no read fails. */
    constructor Open(codec: Codec, paranoid: bool, file: Bytes, policy: Bloom.Policy, filtering: bool, ghost p: Parts,
      ghost ies: seq<KeyValue>, ghost f: Option<Filtering>, ghost footer: Footer)
      requires TableOf(codec, policy, file, p, ies, f, footer)
      ensures Ok() && this.p == p && this.codec == codec && this.file == file
      ensures filter != null <==> filtering && f.Some?
    {
      this.codec, this.file, this.policy, this.p, this.ies, this.f := codec, file, policy, p, ies, f;
      var ft := DecodeFooter(file[|file| - FOOTER_SIZE..]).value;
      ghost var raw, limit: nat, l :| BlockAt(codec, file, footer.index, ies, raw, limit, l);
      indexData := ReadBlock(codec, paranoid, file, ft.index).value;
      this.limit, this.l := limit, l;
      var reader: FilterBlockReader? := null;
      if filtering {
        reader := ReadMeta(codec, paranoid, file, policy, FILTER_KEY, ft.meta, f);
        if reader != null {
          assert FilterBlockOf(policy, f.value.data, f.value.offs, f.value.end, f.value.marks);
        }
      }
      filter := reader;
    }

    /** Looks the filter's handle up in the metaindex block. */
    static method ReadMeta(codec: Codec, paranoid: bool, file: Bytes, policy: Bloom.Policy, key: Bytes, meta: Handle,
      ghost f: Option<Filtering>) returns (r: FilterBlockReader?)
      requires HoldsBlock(codec, file, meta, MetaEntries(key, f))
      requires f.Some? ==> Fits(f.value.handle) && Reads(codec, file, f.value.handle, f.value.data)
      ensures r != null <==> f.Some?
      ensures r != null ==> r.Valid() && r.policy == policy && r.contents == f.value.data
      ensures r != null ==> forall offs, end: nat, marks ::
        FilterBlockOf(policy, r.contents, offs, end, marks) ==> r.Reads(offs, end)
    {
      ghost var raw, limit: nat, l :| BlockAt(codec, file, meta, MetaEntries(key, f), raw, limit, l);
      var contents := ReadBlock(codec, paranoid, file, meta).value;
      KeysTransitive();
      var iter := new Iter(contents, BytesLess, limit, l);
      var i := iter.Seek(key);
      MetaFound(key, f, i);
      if iter.Valid() && iter.key == key {
        r := ReadFilter(codec, paranoid, file, policy, iter.Value(), f.value);
      } else {
        r := null;
      }
    }

    static method ReadFilter(codec: Codec, paranoid: bool, file: Bytes, policy: Bloom.Policy, filterHandleValue: Bytes,
      ghost f: Filtering) returns (r: FilterBlockReader)
      requires filterHandleValue == EncodeHandle(f.handle) && Fits(f.handle) && Reads(codec, file, f.handle, f.data)
      ensures r.Valid() && r.policy == policy && r.contents == f.data
      ensures forall offs, end: nat, marks :: FilterBlockOf(policy, r.contents, offs, end, marks) ==> r.Reads(offs, end)
    {
      HandleRoundTrip(f.handle, []);
      assert EncodeHandle(f.handle) + [] == EncodeHandle(f.handle);
      var handle := DecodeHandle(filterHandleValue).value.value;
      var data := ReadBlock(codec, paranoid, file, handle).value;
      r := new FilterBlockReader(policy, data);
    }

    /** From an index value to an iterator over its block. */
    method BlockReader(verify: bool, indexValue: Bytes, ghost h: Handle, ghost es: seq<KeyValue>) returns (it: Iter)
      requires DecodeHandle(indexValue) == Some(Rest(h, [])) && HoldsBlock(codec, file, h, es)
      ensures fresh(it) && it.Ok() && it.l.es == es && it.less == KeyLess
    {
      ghost var raw, limit: nat, l :| BlockAt(codec, file, h, es, raw, limit, l);
      var handle := DecodeHandle(indexValue).value.value;
      var contents := ReadBlock(codec, verify, file, handle).value;
      it := new Iter(contents, KeyLess, limit, l);
    }

    /** Reports the first entry at or after k; or nothing, and then that entry is
        of another user key. */
    method InternalGet(verify: bool, k: Bytes) returns (r: Option<KeyValue>, ghost pos: nat)
      requires Ok() && IsInternal(k)
      ensures Answers(p.es, k, pos, r)
    {
      KeysTransitive();
      IndexOrder(codec, file, p, ies, l);
      var iiter := new Iter(indexData, KeyLess, limit, l);
      var i := iiter.Seek(k);
      IndexSought(p, ies, k, i);
      if !iiter.Valid() {
        PastTheIndex(codec, file, p, k);
        return None, |p.es|;
      }
      var handleValue := iiter.Value();
      ghost var es := SectionIs(codec, file, p, i);
      IndexEntry(p, ies, i);
      if filter != null {
        var may := MayHold(handleValue, k, i);
        if !may {
          pos := FilterAnswers(codec, policy, file, p, f.value, k, i);
          return None, pos;
        }
      }
      r, pos := SeekBlock(verify, handleValue, k, i, es);
    }

    method MayHold(handleValue: Bytes, k: Bytes, ghost i: nat) returns (may: bool)
      requires Ok() && IsInternal(k) && filter != null && i < |p.handles|
        && DecodeHandle(handleValue) == Some(Rest(p.handles[i], []))
      ensures may <==> Admits(policy, f.value.data, f.value.offs, f.value.end, p.handles[i].offset, k)
    {
      var handle := DecodeHandle(handleValue).value.value;
      may := filter.KeyMayMatch(handle.offset, k, f.value.offs, f.value.end, f.value.marks);
    }

    method SeekBlock(verify: bool, handleValue: Bytes, k: Bytes, ghost i: nat, ghost es: seq<KeyValue>)
      returns (r: Option<KeyValue>, ghost pos: nat)
      requires Ok() && IsInternal(k) && IndexFinds(p, k, i) && i < |p.seps| && IsSection(p, i, es)
        && HoldsBlock(codec, file, p.handles[i], es)
      requires DecodeHandle(handleValue) == Some(Rest(p.handles[i], []))
      ensures Answers(p.es, k, pos, r)
    {
      var it := BlockReader(verify, handleValue, p.handles[i], es);
      KeysTransitive();
      SectionOrder(codec, file, p, i, it.l);
      var j := it.Seek(k);
      BlockAnswers(codec, file, p, k, i, es, j);
      pos := p.ends[i] + j;
      if it.Valid() {
        r := Some(KeyValue(it.key, it.Value()));
      } else {
        r := None;
      }
    }

    /** Reads user key u at sequence number s: the newest entry visible there, or
        nothing when there is none. */
    method Get(verify: bool, u: Bytes, s: Keys.Sequence) returns (r: Option<KeyValue>)
      requires Ok() && Kinds(p.es)
      ensures r.Some? ==> IsNewest(p.es, u, s, r.value)
      ensures r.None? ==> forall i | 0 <= i < |p.es| :: !VisibleAt(p.es, i, u, s)
    {
      ghost var pos;
      r, pos := InternalGet(verify, LookupKey(u, s));
      NewestAt(p.es, u, s, pos, r);
      if r.Some? && (!IsInternal(r.value.key) || User(r.value.key) != u) {
        r := None;
      }
    }
  }

  // ---- what a read of a user key means ----

  ghost predicate Kinds(es: seq<KeyValue>) {
    forall i | 0 <= i < |es| :: KindAt(es, i)
  }

  // The entry's tag ends in one of the two kinds.
  ghost predicate KindAt(es: seq<KeyValue>, i: nat)
    requires i < |es|
  {
    IsInternal(es[i].key) && Packed(es[i].key) % 256 <= 1
  }

  ghost predicate VisibleAt(es: seq<KeyValue>, i: nat, u: Bytes, s: nat)
    requires i < |es|
  {
    IsInternal(es[i].key) && User(es[i].key) == u && SequenceOf(es[i].key) <= s
  }

  ghost predicate IsNewest(es: seq<KeyValue>, u: Bytes, s: nat, kv: KeyValue) {
    exists pos: nat :: pos < |es| && es[pos] == kv && VisibleAt(es, pos, u, s) && NoneNewer(es, pos, u, s)
  }

  ghost predicate NoneNewer(es: seq<KeyValue>, pos: nat, u: Bytes, s: nat)
    requires pos < |es| && IsInternal(es[pos].key)
  {
    forall i | 0 <= i < |es| && VisibleAt(es, i, u, s) :: SequenceOf(es[i].key) <= SequenceOf(es[pos].key)
  }

  /** An entry is before the lookup key when its user key is, or when it is of
      that user key and not visible. */
  lemma LookupBound(key: Bytes, u: Bytes, s: Keys.Sequence)
    requires IsInternal(key) && Packed(key) % 256 <= 1
    ensures KeyLess(key, LookupKey(u, s)) <==> (BytesLess(User(key), u) || (User(key) == u && SequenceOf(key) > s))
  {
    TaggedParts(u, Keys.SeekKey(0, s));
  }

  /** Any visible entry is at or after the first key not before the lookup key,
      which is then of the same user key and at least as new. */
  lemma VisibleFrom(es: seq<KeyValue>, u: Bytes, s: Keys.Sequence, pos: nat, i: nat)
    requires Ascends(es) && Kinds(es) && FirstAt(es, LookupKey(u, s), pos) && i < |es| && VisibleAt(es, i, u, s)
    ensures pos < |es| && VisibleAt(es, pos, u, s) && SequenceOf(es[i].key) <= SequenceOf(es[pos].key)
  {
    assert KindAt(es, i);
    LookupBound(es[i].key, u, s);
    BytesOrder(u, u, u);
    assert pos <= i;
    assert KindAt(es, pos);
    LookupBound(es[pos].key, u, s);
    if pos < i {
      assert Before(es, pos, i);
      BytesOrder(u, User(es[pos].key), u);
    }
  }

  lemma NewestAt(es: seq<KeyValue>, u: Bytes, s: Keys.Sequence, pos: nat, r: Option<KeyValue>)
    requires Ascends(es) && Kinds(es) && Answers(es, LookupKey(u, s), pos, r)
    ensures if r.Some? && User(r.value.key) == u then IsNewest(es, u, s, r.value)
      else forall i | 0 <= i < |es| :: !VisibleAt(es, i, u, s)
  {
    TaggedParts(u, Keys.SeekKey(0, s));
    forall i | 0 <= i < |es| && VisibleAt(es, i, u, s)
      ensures pos < |es| && VisibleAt(es, pos, u, s) && SequenceOf(es[i].key) <= SequenceOf(es[pos].key)
    {
      VisibleFrom(es, u, s, pos, i);
    }
    if r.Some? && User(r.value.key) == u {
      assert KindAt(es, pos);
      LookupBound(es[pos].key, u, s);
      assert VisibleAt(es, pos, u, s) && NoneNewer(es, pos, u, s);
    }
  }
}
