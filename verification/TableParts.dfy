/** What a table file holds: its entries cut into blocks, the key that stands
    for each block in the index, and where everything lies. */
module TableParts {
  import opened Options
  import opened Coding
  import opened Blocks
  import opened ByteKeys
  import opened Bloom
  import opened FilterBlocks
  import opened TableFormat

  /** Block i holds the entries from ends[i] to ends[i + 1]; what comes after the
      last end is not in a finished block yet. */
  datatype Parts = Parts(es: seq<KeyValue>, ends: seq<nat>, handles: seq<Handle>, seps: seq<Bytes>)

  ghost predicate Cut(p: Parts) {
    && |p.ends| == |p.handles| + 1 && p.ends[0] == 0 && |p.seps| <= |p.handles|
    && Rising(p.ends)
    && p.ends[|p.handles|] <= |p.es|
  }

  ghost predicate Ascends(es: seq<KeyValue>) {
    && (forall i | 0 <= i < |es| :: IsInternal(es[i].key))
    && forall i, j | 0 <= i < j < |es| :: Before(es, i, j)
  }

  ghost predicate Before(es: seq<KeyValue>, i: nat, j: nat)
    requires i < j < |es|
  {
    KeyLess(es[i].key, es[j].key)
  }

  /** The block stored at h reads as these entries. */
  ghost predicate BlockAt(c: Codec, file: Bytes, h: Handle, es: seq<KeyValue>, raw: Bytes, limit: nat, l: Layout) {
    Reads(c, file, h, raw) && BlockOf(raw, limit, l) && l.es == es
  }

  ghost predicate HoldsBlock(c: Codec, file: Bytes, h: Handle, es: seq<KeyValue>) {
    Fits(h) && exists raw, limit: nat, l :: BlockAt(c, file, h, es, raw, limit, l)
  }

  lemma BlockStays(c: Codec, file: Bytes, file': Bytes, h: Handle, es: seq<KeyValue>)
    requires HoldsBlock(c, file, h, es) && file <= file'
    ensures HoldsBlock(c, file', h, es)
  {
    var raw, limit: nat, l :| BlockAt(c, file, h, es, raw, limit, l);
    ReadsStays(c, file, file', h, raw);
    assert BlockAt(c, file', h, es, raw, limit, l);
  }

  ghost predicate Section(c: Codec, file: Bytes, p: Parts, i: nat)
    requires Cut(p) && i < |p.handles|
  {
    p.ends[i] < p.ends[i + 1] <= |p.es| && HoldsBlock(c, file, p.handles[i], p.es[p.ends[i]..p.ends[i + 1]])
  }

  /** The key standing for block i is at or after its last key and before the
      next key, and belongs to neither user key unless it is that last key. */
  ghost predicate Separates(p: Parts, i: nat)
    requires Cut(p) && i < |p.seps|
  {
    var e := p.ends[i + 1];
    && 0 < e <= |p.es|
    && if e < |p.es| then Divides(p.seps[i], p.es[e - 1].key, p.es[e].key) else Closes(p.seps[i], p.es[e - 1].key)
  }

  /** Each key of block i is marked in the filter at the block's offset. */
  ghost predicate BlockMarked(p: Parts, marks: set<Mark>, i: nat)
    requires Cut(p) && i < |p.handles|
  {
    && p.ends[i + 1] <= |p.es|
    && forall q | p.ends[i] <= q < p.ends[i + 1] :: Mark(p.handles[i].offset, p.es[q].key) in marks
  }

  ghost predicate Parted(c: Codec, file: Bytes, p: Parts) {
    && Cut(p) && Ascends(p.es)
    && (forall i | 0 <= i < |p.handles| :: Section(c, file, p, i))
    && forall i | 0 <= i < |p.seps| :: Separates(p, i)
  }

  ghost predicate AllMarked(p: Parts, marks: set<Mark>) {
    Cut(p) && forall i | 0 <= i < |p.handles| :: BlockMarked(p, marks, i)
  }

  // ---- growing ----

  ghost predicate Pending(p: Parts) {
    Cut(p) && |p.seps| + 1 == |p.handles| && p.ends[|p.handles|] == |p.es|
  }

  ghost predicate Indexed(p: Parts) {
    Cut(p) && |p.seps| == |p.handles| && (p.handles != [] ==> p.ends[|p.handles|] < |p.es|)
  }

  lemma EndsBelow(p: Parts)
    requires Cut(p)
    ensures forall i | 0 <= i < |p.ends| :: p.ends[i] <= p.ends[|p.handles|]
  {
    forall i | 0 <= i < |p.ends| ensures p.ends[i] <= p.ends[|p.handles|] {
      assert i < |p.handles| ==> Rises(p.ends, i, |p.handles|);
    }
  }

  lemma AscendsGrows(es: seq<KeyValue>, kv: KeyValue)
    requires Ascends(es) && IsInternal(kv.key) && (es != [] ==> KeyLess(es[|es| - 1].key, kv.key))
    ensures Ascends(es + [kv])
  {
    forall i, j | 0 <= i < j < |es| + 1 ensures Before(es + [kv], i, j) {
      if j < |es| {
        assert Before(es, i, j);
      } else if i < |es| - 1 {
        assert Before(es, i, |es| - 1);
        KeyOrder(es[i].key, es[|es| - 1].key, kv.key);
      }
    }
  }

  /** Every block is indexed, and the last one's separator lets the key follow. */
  ghost predicate Follows(p: Parts, key: Bytes) {
    && Cut(p) && |p.seps| == |p.handles|
    && (p.handles != [] && p.ends[|p.handles|] == |p.es|
      ==> p.es != [] && Divides(p.seps[|p.handles| - 1], p.es[|p.es| - 1].key, key))
  }

  lemma Extends(c: Codec, file: Bytes, p: Parts, kv: KeyValue)
    requires Parted(c, file, p) && IsInternal(kv.key) && (p.es != [] ==> KeyLess(p.es[|p.es| - 1].key, kv.key))
      && Follows(p, kv.key)
    ensures Parted(c, file, Parts(p.es + [kv], p.ends, p.handles, p.seps))
      && Indexed(Parts(p.es + [kv], p.ends, p.handles, p.seps))
  {
    var p' := Parts(p.es + [kv], p.ends, p.handles, p.seps);
    AscendsGrows(p.es, kv);
    forall i | 0 <= i < |p'.handles| ensures Section(c, file, p', i) {
      assert Section(c, file, p, i);
      assert p'.es[p.ends[i]..p.ends[i + 1]] == p.es[p.ends[i]..p.ends[i + 1]];
    }
    forall i | 0 <= i < |p.seps| ensures Separates(p', i) {
      assert Separates(p, i);
      assert i + 1 < |p.handles| ==> Rises(p.ends, i + 1, |p.handles|);
    }
  }

  /** Each key of the block being filled is marked at the file's offset. */
  ghost predicate LastMarked(p: Parts, at: nat, marks: set<Mark>)
    requires Cut(p)
  {
    forall q | p.ends[|p.handles|] <= q < |p.es| :: Mark(at, p.es[q].key) in marks
  }

  ghost predicate MarkedWith(p: Parts, at: nat, marks: set<Mark>) {
    AllMarked(p, marks) && LastMarked(p, at, marks)
  }

  lemma MarksKept(p: Parts, p': Parts, kv: KeyValue, at: nat, marks: set<Mark>, marks': set<Mark>)
    requires AllMarked(p, marks) && LastMarked(p, at, marks) && marks' == marks + {Mark(at, kv.key)}
    requires p'.ends == p.ends && p'.handles == p.handles && p'.es == p.es + [kv] && |p'.seps| <= |p'.handles|
    ensures AllMarked(p', marks') && LastMarked(p', at, marks')
  {
    forall i | 0 <= i < |p'.handles| ensures BlockMarked(p', marks', i) {
      assert BlockMarked(p, marks, i);
    }
  }

  lemma Flushes(c: Codec, file: Bytes, file': Bytes, p: Parts, h: Handle)
    requires Parted(c, file, p) && Indexed(p) && file <= file' && p.ends[|p.handles|] < |p.es|
    requires HoldsBlock(c, file', h, p.es[p.ends[|p.handles|]..])
    ensures Parted(c, file', Parts(p.es, p.ends + [|p.es|], p.handles + [h], p.seps))
      && Pending(Parts(p.es, p.ends + [|p.es|], p.handles + [h], p.seps))
  {
    var p' := Parts(p.es, p.ends + [|p.es|], p.handles + [h], p.seps);
    RisingGrows(p.ends, |p.es|);
    EndsBelow(p);
    forall i | 0 <= i < |p'.handles| ensures Section(c, file', p', i) {
      if i < |p.handles| {
        assert Section(c, file, p, i);
        BlockStays(c, file, file', p.handles[i], p.es[p.ends[i]..p.ends[i + 1]]);
      } else {
        assert p.es[p.ends[i]..] == p.es[p.ends[i]..|p.es|];
      }
    }
    forall i | 0 <= i < |p'.seps| ensures Separates(p', i) {
      assert Separates(p, i);
    }
  }

  lemma MarksFlush(p: Parts, marks: set<Mark>, h: Handle)
    requires AllMarked(p, marks) && p.ends[|p.handles|] < |p.es|
    requires LastMarked(p, h.offset, marks)
    ensures AllMarked(Parts(p.es, p.ends + [|p.es|], p.handles + [h], p.seps), marks)
  {
    var p' := Parts(p.es, p.ends + [|p.es|], p.handles + [h], p.seps);
    RisingGrows(p.ends, |p.es|);
    EndsBelow(p);
    forall i | 0 <= i < |p'.handles| ensures BlockMarked(p', marks, i) {
      assert i < |p.handles| ==> BlockMarked(p, marks, i);
    }
  }

  lemma Closed(c: Codec, file: Bytes, p: Parts, sep: Bytes)
    requires Parted(c, file, p) && Pending(p) && p.es != [] && Closes(sep, p.es[|p.es| - 1].key)
    ensures Parted(c, file, Parts(p.es, p.ends, p.handles, p.seps + [sep]))
  {
    var p' := Parts(p.es, p.ends, p.handles, p.seps + [sep]);
    forall i | 0 <= i < |p'.handles| ensures Section(c, file, p', i) {
      assert Section(c, file, p, i);
    }
    forall i | 0 <= i < |p'.seps| ensures Separates(p', i) {
      assert i < |p.seps| ==> Separates(p, i);
    }
  }

  lemma SoundStays(c: Codec, file: Bytes, file': Bytes, p: Parts)
    requires Parted(c, file, p) && file <= file'
    ensures Parted(c, file', p)
  {
    forall i | 0 <= i < |p.handles| ensures Section(c, file', p, i) {
      assert Section(c, file, p, i);
      BlockStays(c, file, file', p.handles[i], p.es[p.ends[i]..p.ends[i + 1]]);
    }
  }

  // ---- a finished table ----

  // The index block's entries.
  ghost predicate IsIndex(ies: seq<KeyValue>, p: Parts) {
    |p.seps| <= |p.handles| && |ies| == |p.seps| && forall i | 0 <= i < |ies| :: IndexAt(ies, p, i)
  }

  ghost predicate IndexAt(ies: seq<KeyValue>, p: Parts, i: nat)
    requires i < |ies| == |p.seps| <= |p.handles|
  {
    ies[i] == KeyValue(p.seps[i], EncodeHandle(p.handles[i]))
  }

  datatype Filtering = Filtering(handle: Handle, data: Bytes, offs: seq<nat>, end: nat, marks: set<Mark>)

  function Ascii(s: string): (r: Bytes)
    ensures |r| == |s|
  {
    seq(|s|, i requires 0 <= i < |s| => s[i] as int % 256)
  }

  // The metaindex block's key for the filter.
  const FILTER_KEY: Bytes := Ascii("filter.leveldb.BuiltinBloomFilter2")

  ghost predicate FilterStored(c: Codec, policy: Policy, file: Bytes, p: Parts, f: Filtering) {
    Reads(c, file, f.handle, f.data) && FilterBlockOf(policy, f.data, f.offs, f.end, f.marks) && AllMarked(p, f.marks)
  }

  lemma FilterStays(c: Codec, policy: Policy, file: Bytes, file': Bytes, p: Parts, p': Parts, f: Filtering)
    requires FilterStored(c, policy, file, p, f) && file <= file'
    requires p' == Parts(p.es, p.ends, p.handles, p'.seps) && |p'.seps| <= |p'.handles|
    ensures FilterStored(c, policy, file', p', f)
  {
    ReadsStays(c, file, file', f.handle, f.data);
    forall i | 0 <= i < |p'.handles| ensures BlockMarked(p', f.marks, i) {
      assert BlockMarked(p, f.marks, i);
    }
  }

  function MetaEntries(key: Bytes, f: Option<Filtering>): seq<KeyValue> {
    if f.Some? then [KeyValue(key, EncodeHandle(f.value.handle))] else []
  }

  /** Everything but the footer. */
  ghost predicate Stored(c: Codec, policy: Policy, file: Bytes, p: Parts, ies: seq<KeyValue>, f: Option<Filtering>,
    footer: Footer) {
    && Parted(c, file, p) && |p.seps| == |p.handles| && p.ends[|p.handles|] == |p.es|
    && IsIndex(ies, p) && HoldsBlock(c, file, footer.index, ies)
    && HoldsBlock(c, file, footer.meta, MetaEntries(FILTER_KEY, f))
    && (f.Some? ==> Fits(f.value.handle) && FilterStored(c, policy, file, p, f.value))
  }

  lemma StoredStays(c: Codec, policy: Policy, file: Bytes, file': Bytes, p: Parts, ies: seq<KeyValue>,
    f: Option<Filtering>, footer: Footer)
    requires Stored(c, policy, file, p, ies, f, footer) && file <= file'
    ensures Stored(c, policy, file', p, ies, f, footer)
  {
    SoundStays(c, file, file', p);
    BlockStays(c, file, file', footer.index, ies);
    BlockStays(c, file, file', footer.meta, MetaEntries(FILTER_KEY, f));
    if f.Some? {
      FilterStays(c, policy, file, file', p, p, f.value);
    }
  }

  ghost predicate TableOf(c: Codec, policy: Policy, file: Bytes, p: Parts, ies: seq<KeyValue>, f: Option<Filtering>,
    footer: Footer) {
    && |file| >= FOOTER_SIZE && DecodeFooter(file[|file| - FOOTER_SIZE..]) == Some(footer)
    && Stored(c, policy, file, p, ies, f, footer)
  }
}
