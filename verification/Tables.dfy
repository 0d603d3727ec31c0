/** Building a table file (table/table_builder.cc). */
module Tables {
  import opened Options
  import opened Coding
  import opened BlockFormat
  import opened Blocks
  import opened ByteKeys
  import Bloom
  import opened FilterBlocks
  import opened TableFormat
  import opened TableParts

  class TableBuilder {
    const codec: Codec
    const snappy: bool
    const blockSize: nat
    const policy: Bloom.Policy
    const dataBlock: BlockBuilder
    const indexBlock: BlockBuilder
    const filterBlock: FilterBlockBuilder?
    var file: Bytes
    var offset: nat
    var lastKey: Bytes
    var numEntries: nat
    var pendingIndexEntry: bool
    var pendingHandle: Handle
    var closed: bool
    ghost var p: Parts

    // The three builders, apart from one another.
    ghost predicate Wired()
      reads this, dataBlock, indexBlock, filterBlock
    {
      && dataBlock != indexBlock && dataBlock.Valid() && indexBlock.Valid() && Sound(codec) && offset == |file|
      && (filterBlock != null ==> filterBlock.Valid() && filterBlock.policy == policy)
    }

    // The blocks written, and their index entries.
    ghost predicate Written()
      reads this, indexBlock
    {
      && Parted(codec, file, p) && IsIndex(indexBlock.l.es, p) && numEntries == |p.es|
      && (p.es != [] ==> lastKey == p.es[|p.es| - 1].key) && |lastKey| < LIMIT32
      && (if pendingIndexEntry then Pending(p) && p.es != [] && pendingHandle == p.handles[|p.handles| - 1]
        else Indexed(p))
    }

    // The block being filled.
    ghost predicate Filling()
      reads this, dataBlock
    {
      Cut(p) && dataBlock.l.es == p.es[p.ends[|p.handles|]..] && dataBlock.CurrentSizeEstimate() < LIMIT32
    }

    ghost predicate Filtered()
      reads this, filterBlock
    {
      filterBlock != null ==>
        filterBlock.Current() && filterBlock.at == offset && MarkedWith(p, offset, filterBlock.marks)
    }

    ghost predicate Valid()
      reads this, dataBlock, indexBlock, filterBlock
    {
      Wired() && Written() && Filling() && Filtered() && !closed
    }

    constructor (codec: Codec, snappy: bool, blockSize: nat, interval: nat, policy: Bloom.Policy, filtering: bool)
      requires Sound(codec) && interval >= 1 && Bloom.Fit(policy)
      ensures Valid() && p.es == [] && this.codec == codec && this.policy == policy
        && (filterBlock != null <==> filtering)
      ensures fresh(dataBlock) && fresh(indexBlock) && (filterBlock != null ==> fresh(filterBlock))
    {
      this.codec, this.snappy, this.blockSize, this.policy := codec, snappy, blockSize, policy;
      dataBlock := new BlockBuilder(interval);
      indexBlock := new BlockBuilder(1);
      file, offset, lastKey, numEntries, pendingIndexEntry, pendingHandle, closed :=
        [], 0, [], 0, false, Handle(0, 0), false;
      p := Parts([], [0], [], []);
      if filtering {
        filterBlock := new FilterBlockBuilder(policy);
      } else {
        filterBlock := null;
      }
    }

    /** Appends a block's bytes, its type and its checksum. */
    method WriteRawBlock(contents: Bytes, kind: Byte, ghost raw: Bytes) returns (h: Handle)
      requires offset == |file| && offset + |contents| < LIMIT64
      requires (kind == NO_COMPRESSION && raw == contents)
        || (kind == SNAPPY && codec.uncompress(contents) == Some(raw))
      modifies this`file, this`offset
      ensures offset == |file| && old(file) <= file && h == Handle(old(offset), |contents|)
        && Reads(codec, file, h, raw)
      ensures offset == old(offset) + |contents| + TRAILER_SIZE
    {
      h := Handle(offset, |contents|);
      ReadsStored(codec, file, contents, kind, raw);
      file := file + StoredForm(codec, contents, kind);
      offset := offset + |contents| + TRAILER_SIZE;
    }

    /** Finishes a block and stores it, compressed when that saves enough. */
    method WriteBlock(block: BlockBuilder) returns (h: Handle)
      requires Sound(codec) && block.Valid() && block.CurrentSizeEstimate() < LIMIT32 && offset == |file|
        && offset + LIMIT32 < LIMIT64
      modifies this`file, this`offset, block
      ensures block.Valid() && block.l.es == [] && block.buffer == [] && block.CurrentSizeEstimate() == 8
      ensures offset == |file| && old(file) <= file && h.offset == old(offset)
        && offset <= old(offset) + LIMIT32 + TRAILER_SIZE
      ensures HoldsBlock(codec, file, h, old(block.l.es))
    {
      ghost var limit, l := |block.buffer|, block.l;
      var raw := block.Finish();
      var contents, kind := raw, NO_COMPRESSION;
      if snappy {
        var compressed := codec.compress(raw);
        if compressed.Some? && |compressed.value| < |raw| - |raw| / 8 {
          contents, kind := compressed.value, SNAPPY;
        }
      }
      h := WriteRawBlock(contents, kind, raw);
      assert BlockAt(codec, file, h, l.es, raw, limit, l);
      block.Reset();
    }

    // Indexes the block just written under a key that stands for it.
    method IndexPending(sep: Bytes)
      requires indexBlock.Valid() && Cut(p) && |p.seps| + 1 == |p.handles|
        && pendingHandle == p.handles[|p.handles| - 1] && Fits(pendingHandle)
      requires IsIndex(indexBlock.l.es, p) && |sep| < LIMIT32
      modifies indexBlock, this`pendingIndexEntry
      ensures indexBlock.Valid() && !pendingIndexEntry
        && IsIndex(indexBlock.l.es, Parts(p.es, p.ends, p.handles, p.seps + [sep]))
      ensures indexBlock.CurrentSizeEstimate() <= old(indexBlock.CurrentSizeEstimate()) + |sep| + 39
    {
      ghost var before := indexBlock.l.es;
      HandleRoundTrip(pendingHandle, []);
      indexBlock.Add(sep, EncodeHandle(pendingHandle));
      pendingIndexEntry := false;
      IndexGrows(before, p, sep);
    }

    /** Ends the block being filled. */
    method Flush()
      requires Valid() && offset + LIMIT32 < LIMIT64
      modifies this`file, this`offset, this`pendingHandle, this`pendingIndexEntry, this`p, dataBlock, filterBlock
      ensures Valid() && p.es == old(p.es) && (p.es != [] ==> pendingIndexEntry)
        && offset <= old(offset) + LIMIT32 + TRAILER_SIZE
      ensures filterBlock != null ==> filterBlock.FinalSize() == old(filterBlock.FinalSize())
      ensures |p.handles| == old(|p.handles|) + if old(dataBlock.l.es) == [] then 0 else 1
      ensures dataBlock.l.es == []
    {
      BufferEmpty(dataBlock.l, dataBlock.buffer);
      if dataBlock.buffer == [] {
        NoBlocks(p);
        return;
      }
      ghost var was := p;
      FlushBlock();
      IndexKept(indexBlock.l.es, was, p);
      StartFilter(was);
    }

    method StartFilter(ghost was: Parts)
      requires filterBlock != null ==>
        && filterBlock.Valid() && filterBlock.Current() && filterBlock.at == pendingHandle.offset <= offset
      requires filterBlock != null
        ==> AllMarked(was, filterBlock.marks) && LastMarked(was, pendingHandle.offset, filterBlock.marks)
      requires p == Parts(was.es, was.ends + [|was.es|], was.handles + [pendingHandle], was.seps) && Cut(p)
        && was.ends[|was.handles|] < |was.es|
      modifies filterBlock
      ensures Filtered() && (filterBlock != null
        ==> filterBlock.Valid() && filterBlock.FinalSize() == old(filterBlock.FinalSize()))
    {
      if filterBlock != null {
        MarksFlush(was, filterBlock.marks, pendingHandle);
        filterBlock.StartBlock(offset);
      }
    }

    method FlushBlock()
      requires Sound(codec) && dataBlock.Valid() && Filling() && dataBlock.l.es != [] && offset == |file|
        && offset + LIMIT32 < LIMIT64
      requires Parted(codec, file, p) && Indexed(p)
      modifies this`file, this`offset, this`pendingHandle, this`pendingIndexEntry, this`p, dataBlock
      ensures dataBlock.Valid() && Filling() && offset == |file| && Parted(codec, file, p) && Pending(p)
      ensures pendingIndexEntry && pendingHandle.offset == old(offset) <= offset <= old(offset) + LIMIT32 + TRAILER_SIZE
      ensures p == Parts(old(p.es), old(p.ends) + [|old(p.es)|], old(p.handles) + [pendingHandle], old(p.seps))
      ensures dataBlock.l.es == []
    {
      ghost var was, before := p, file;
      pendingHandle := WriteBlock(dataBlock);
      pendingIndexEntry := true;
      Flushes(codec, before, file, was, pendingHandle);
      p := Parts(was.es, was.ends + [|was.es|], was.handles + [pendingHandle], was.seps);
    }

    predicate Room(key: Bytes, value: Bytes)
      reads this, dataBlock
    {
      && |key| < LIMIT32 && |value| < LIMIT32 && dataBlock.CurrentSizeEstimate() + |key| + |value| + 19 < LIMIT32
      && offset + LIMIT32 < LIMIT64
    }

    /** Adds an entry after all others: first the index entry still owed for the
        block before it. */
    method Add(key: Bytes, value: Bytes)
      requires Valid() && IsInternal(key) && (p.es != [] ==> KeyLess(p.es[|p.es| - 1].key, key))
      requires Room(key, value)
      modifies this, dataBlock, indexBlock, filterBlock
      ensures Valid() && p.es == old(p.es) + [KeyValue(key, value)]
      ensures if old(dataBlock.SizeWith(key, value)) >= blockSize
        then |p.handles| == old(|p.handles|) + 1 && dataBlock.l.es == []
        else |p.handles| == old(|p.handles|) && dataBlock.l.es != []
    {
      AddEntry(key, value);
      if dataBlock.CurrentSizeEstimate() >= blockSize {
        Flush();
      }
    }

    method AddEntry(key: Bytes, value: Bytes)
      requires Valid() && IsInternal(key) && (p.es != [] ==> KeyLess(p.es[|p.es| - 1].key, key))
      requires Room(key, value)
      modifies this`lastKey, this`numEntries, this`pendingIndexEntry, this`p, dataBlock, indexBlock, filterBlock
      ensures Valid() && p.es == old(p.es) + [KeyValue(key, value)] && |p.handles| == old(|p.handles|)
      ensures dataBlock.l.es != []
      ensures dataBlock.CurrentSizeEstimate() == old(dataBlock.SizeWith(key, value))
    {
      Prepare(key, KeyValue(key, value));
      Place(key, value);
    }

    // The index and the filter, ready for the entry.
    method Prepare(key: Bytes, ghost kv: KeyValue)
      requires indexBlock.Valid() && Written() && (p.es != [] ==> KeyLess(p.es[|p.es| - 1].key, key)) && IsInternal(key)
        && kv.key == key
      requires (filterBlock != null ==> filterBlock.Valid()) && Filtered()
      modifies indexBlock, this`lastKey, this`pendingIndexEntry, this`p, filterBlock
      ensures indexBlock.Valid() && !pendingIndexEntry && IsIndex(indexBlock.l.es, p)
      ensures p == Parts(old(p.es), old(p.ends), old(p.handles), p.seps) && Parted(codec, file, p) && Follows(p, key)
      ensures filterBlock != null ==> filterBlock.Valid() && filterBlock.Current() && filterBlock.at == offset
      ensures filterBlock != null
        ==> MarkedWith(Parts(p.es + [kv], p.ends, p.handles, p.seps), offset, filterBlock.marks)
    {
      ghost var first := p;
      CatchUp(key);
      MarkKey(key, first, kv);
    }

    method MarkKey(key: Bytes, ghost first: Parts, ghost kv: KeyValue)
      requires IsInternal(key) && kv.key == key && Cut(first) && Cut(p)
        && p == Parts(first.es, first.ends, first.handles, p.seps)
      requires filterBlock != null ==>
        && filterBlock.Valid() && filterBlock.Current() && AllMarked(first, filterBlock.marks)
        && LastMarked(first, filterBlock.at, filterBlock.marks)
      modifies filterBlock
      ensures filterBlock != null
        ==> filterBlock.Valid() && filterBlock.Current() && filterBlock.at == old(filterBlock.at)
      ensures filterBlock != null
        ==> MarkedWith(Parts(p.es + [kv], p.ends, p.handles, p.seps), filterBlock.at, filterBlock.marks)
    {
      if filterBlock != null {
        filterBlock.AddKey(key);
        MarksKept(first, Parts(p.es + [kv], p.ends, p.handles, p.seps), kv, filterBlock.at, old(filterBlock.marks),
          filterBlock.marks);
      }
    }

    // Adds the index entry owed for the last block, now that its next key is known.
    method CatchUp(key: Bytes)
      requires indexBlock.Valid() && Written() && (p.es != [] ==> KeyLess(p.es[|p.es| - 1].key, key))
      modifies indexBlock, this`lastKey, this`pendingIndexEntry, this`p
      ensures indexBlock.Valid() && !pendingIndexEntry && IsIndex(indexBlock.l.es, p)
      ensures p == Parts(old(p.es), old(p.ends), old(p.handles), p.seps) && Parted(codec, file, p) && Follows(p, key)
    {
      if pendingIndexEntry {
        ghost var was := p;
        lastKey := FindShortestSeparator(lastKey, key);
        LastFits(codec, file, p);
        IndexPending(lastKey);
        Closed(codec, file, was, lastKey);
        p := Parts(p.es, p.ends, p.handles, p.seps + [lastKey]);
      }
    }

    method Place(key: Bytes, value: Bytes)
      requires dataBlock.Valid() && Filling() && Parted(codec, file, p) && Follows(p, key) && Room(key, value)
      requires IsInternal(key) && (p.es != [] ==> KeyLess(p.es[|p.es| - 1].key, key))
      requires IsIndex(indexBlock.l.es, p) && !pendingIndexEntry && numEntries == |p.es| && dataBlock != indexBlock
      modifies this`lastKey, this`numEntries, this`p, dataBlock
      ensures dataBlock.Valid() && Filling() && Written()
      ensures p == Parts(old(p.es) + [KeyValue(key, value)], old(p.ends), old(p.handles), old(p.seps))
      ensures dataBlock.l.es != []
      ensures dataBlock.CurrentSizeEstimate() == old(dataBlock.SizeWith(key, value))
    {
      Extends(codec, file, p, KeyValue(key, value));
      lastKey := key;
      numEntries := numEntries + 1;
      ghost var was := p;
      p := Parts(p.es + [KeyValue(key, value)], p.ends, p.handles, p.seps);
      IndexKept(indexBlock.l.es, was, p);
      LastGrows(was.es, was.ends[|was.handles|], KeyValue(key, value));
      dataBlock.Add(key, value);
    }

    // Every 32-bit size of the finished file will fit.
    ghost predicate RoomToFinish()
      reads this, indexBlock, filterBlock
    {
      && offset + 6 * LIMIT32 < LIMIT64 && indexBlock.CurrentSizeEstimate() + |lastKey| + 39 < LIMIT32
      && (filterBlock != null
        ==> filterBlock.FinalSize() + 4 * ((offset + LIMIT32 + TRAILER_SIZE) / BASE) + 9 < LIMIT32)
    }

    /** Writes what is pending, the filter, the two indexes and the footer. */
    method Finish() returns (ghost ies: seq<KeyValue>, ghost f: Option<Filtering>, ghost footer: Footer)
      requires Valid() && RoomToFinish()
      modifies this, dataBlock, indexBlock, filterBlock
      ensures closed && p.es == old(p.es) && (f.Some? <==> filterBlock != null)
        && TableOf(codec, policy, file, p, ies, f, footer)
    {
      FlushLast();
      ies, f, footer := WriteTail();
      closed := true;
    }

    // Ends the last block.
    method FlushLast()
      requires Valid() && RoomToFinish()
      modifies this`file, this`offset, this`pendingHandle, this`pendingIndexEntry, this`p, dataBlock, filterBlock
      ensures Valid() && Fit() && p.es == old(p.es)
      ensures offset + 4 * LIMIT32 < LIMIT64 && indexBlock.CurrentSizeEstimate() + |lastKey| + 39 < LIMIT32
      ensures pendingIndexEntry || (Indexed(p) && p.ends[|p.handles|] == |p.es|)
    {
      Flush();
      assert Fit() by {
        if filterBlock != null {
          FewerRanges(offset, old(offset) + LIMIT32 + TRAILER_SIZE);
        }
      }
      NoBlocks(p);
    }

    method WriteTail() returns (ghost ies: seq<KeyValue>, ghost f: Option<Filtering>, ghost footer: Footer)
      requires Sound(codec) && dataBlock.interval >= 1 && indexBlock.Valid() && Written() && Fit() && Filtered()
        && offset == |file|
      requires pendingIndexEntry || (Indexed(p) && p.ends[|p.handles|] == |p.es|)
      requires offset + 4 * LIMIT32 < LIMIT64 && indexBlock.CurrentSizeEstimate() + |lastKey| + 39 < LIMIT32
      modifies this`file, this`offset, this`lastKey, this`pendingIndexEntry, this`p, indexBlock, filterBlock
      ensures p.es == old(p.es) && (f.Some? <==> filterBlock != null) && TableOf(codec, policy, file, p, ies, f, footer)
    {
      ghost var flushed := file;
      var meta;
      meta, f := WriteFilters();
      SoundStays(codec, flushed, file, p);
      ies, footer := WriteIndexAndFooter(meta, f);
    }

    method WriteIndexAndFooter(meta: Handle, ghost f: Option<Filtering>)
      returns (ghost ies: seq<KeyValue>, ghost footer: Footer)
      requires Sound(codec) && indexBlock.Valid() && Written() && offset == |file|
      requires pendingIndexEntry || (Indexed(p) && p.ends[|p.handles|] == |p.es|)
      requires offset + LIMIT32 < LIMIT64 && indexBlock.CurrentSizeEstimate() + |lastKey| + 39 < LIMIT32
      requires HoldsBlock(codec, file, meta, MetaEntries(FILTER_KEY, f))
      requires f.Some? ==> Fits(f.value.handle) && FilterStored(codec, policy, file, p, f.value)
      modifies this`file, this`offset, this`lastKey, this`pendingIndexEntry, this`p, indexBlock
      ensures p.es == old(p.es) && TableOf(codec, policy, file, p, ies, f, footer)
    {
      ghost var written, parts := file, p;
      var index;
      index, ies := WriteIndex();
      BlockStays(codec, written, file, meta, MetaEntries(FILTER_KEY, f));
      if f.Some? {
        FilterStays(codec, policy, written, file, parts, p, f.value);
      }
      footer := WriteFooter(meta, index, ies, f);
    }

    // The filter block, and the metaindex block naming it.
    method WriteFilters() returns (meta: Handle, ghost f: Option<Filtering>)
      requires Sound(codec) && dataBlock.interval >= 1 && Fit() && Filtered() && offset == |file|
        && offset + 3 * LIMIT32 < LIMIT64
      requires Cut(p) && p.ends[|p.handles|] == |p.es|
      modifies this`file, this`offset, filterBlock
      ensures offset == |file| && old(file) <= file && offset <= old(offset) + 2 * (LIMIT32 + TRAILER_SIZE)
      ensures f.Some? <==> filterBlock != null
      ensures f.Some? ==> Fits(f.value.handle) && FilterStored(codec, policy, file, p, f.value)
      ensures HoldsBlock(codec, file, meta, MetaEntries(FILTER_KEY, f))
    {
      var filter;
      filter, f := WriteFilter();
      ghost var filtered := file;
      meta := WriteMeta(filter, f);
      if f.Some? {
        FilterStays(codec, policy, filtered, file, p, p, f.value);
      }
    }

    method WriteFilter() returns (h: Handle, ghost f: Option<Filtering>)
      requires Fit() && Filtered() && offset == |file| && offset + LIMIT32 < LIMIT64
      requires Cut(p) && p.ends[|p.handles|] == |p.es|
      modifies this`file, this`offset, filterBlock
      ensures offset == |file| && old(file) <= file && offset <= old(offset) + LIMIT32 + TRAILER_SIZE
      ensures f.Some? <==> filterBlock != null
      ensures f.Some? ==> h == f.value.handle && Fits(h) && FilterStored(codec, policy, file, p, f.value)
    {
      if filterBlock == null {
        return Handle(0, 0), None;
      }
      var data;
      ghost var end;
      data, end := filterBlock.Finish();
      h := WriteRawBlock(data, NO_COMPRESSION, data);
      f := Some(Filtering(h, data, filterBlock.offs, end, filterBlock.marks));
    }

    ghost predicate Fit()
      reads this, filterBlock
    {
      filterBlock != null ==>
        filterBlock.Valid() && filterBlock.policy == policy
          && filterBlock.FinalSize() + 4 * |filterBlock.filterOffsets| + 9 < LIMIT32
    }

    // The metaindex block: where the filter is, if there is one.
    method WriteMeta(filter: Handle, ghost f: Option<Filtering>) returns (h: Handle)
      requires Sound(codec) && offset == |file| && offset + LIMIT32 < LIMIT64 && dataBlock.interval >= 1
      requires (f.Some? <==> filterBlock != null) && (f.Some? ==> f.value.handle == filter && Fits(filter))
      modifies this`file, this`offset
      ensures offset == |file| && old(file) <= file && offset <= old(offset) + LIMIT32 + TRAILER_SIZE
      ensures HoldsBlock(codec, file, h, MetaEntries(FILTER_KEY, f))
    {
      var metaIndexBlock := new BlockBuilder(dataBlock.interval);
      if filterBlock != null {
        HandleRoundTrip(filter, []);
        metaIndexBlock.Add(FILTER_KEY, EncodeHandle(filter));
      }
      assert metaIndexBlock.l.es == MetaEntries(FILTER_KEY, f);
      h := WriteBlock(metaIndexBlock);
    }

    // Indexes the last block under a short key at or after its last one.
    method WriteIndex() returns (h: Handle, ghost ies: seq<KeyValue>)
      requires Sound(codec) && indexBlock.Valid() && Written()
      requires pendingIndexEntry || (Indexed(p) && p.ends[|p.handles|] == |p.es|)
      requires offset == |file| && offset + LIMIT32 < LIMIT64
        && indexBlock.CurrentSizeEstimate() + |lastKey| + 39 < LIMIT32
      modifies this`file, this`offset, this`lastKey, this`pendingIndexEntry, this`p, indexBlock
      ensures offset == |file| && old(file) <= file
      ensures p == Parts(old(p.es), old(p.ends), old(p.handles), p.seps) && |p.seps| == |p.handles|
        && p.ends[|p.handles|] == |p.es|
      ensures Parted(codec, file, p) && IsIndex(ies, p) && HoldsBlock(codec, file, h, ies)
    {
      if pendingIndexEntry {
        ghost var was := p;
        lastKey := FindShortSuccessor(lastKey);
        LastFits(codec, file, p);
        IndexPending(lastKey);
        Closed(codec, file, was, lastKey);
        p := Parts(p.es, p.ends, p.handles, p.seps + [lastKey]);
      }
      ies := indexBlock.l.es;
      ghost var before := file;
      h := WriteBlock(indexBlock);
      SoundStays(codec, before, file, p);
    }

    method WriteFooter(meta: Handle, index: Handle, ghost ies: seq<KeyValue>, ghost f: Option<Filtering>)
      returns (ghost footer: Footer)
      requires offset == |file| && Stored(codec, policy, file, p, ies, f, Footer(meta, index))
      modifies this`file, this`offset
      ensures TableOf(codec, policy, file, p, ies, f, footer)
    {
      FooterRoundTrip(meta, index);
      footer := Footer(meta, index);
      ghost var body := file;
      file := file + EncodeFooter(meta, index);
      offset := offset + FOOTER_SIZE;
      assert file[|file| - FOOTER_SIZE..] == EncodeFooter(meta, index);
      StoredStays(codec, policy, body, file, p, ies, f, footer);
    }
  }

  lemma LastGrows(es: seq<KeyValue>, at: nat, kv: KeyValue)
    requires at <= |es|
    ensures (es + [kv])[at..] == es[at..] + [kv]
  {}

  lemma FewerRanges(a: nat, b: nat)
    requires a <= b
    ensures 4 * (a / BASE) <= 4 * (b / BASE)
  {}

  lemma LastFits(c: Codec, file: Bytes, p: Parts)
    requires Parted(c, file, p) && p.handles != []
    ensures Fits(p.handles[|p.handles| - 1])
  {
    assert Section(c, file, p, |p.handles| - 1);
  }

  lemma NoBlocks(p: Parts)
    requires Cut(p)
    ensures Indexed(p) && p.ends[|p.handles|] == |p.es| ==> p.es == [] && p.handles == []
  {}

  lemma IndexKept(ies: seq<KeyValue>, p: Parts, p': Parts)
    requires IsIndex(ies, p) && p'.seps == p.seps && p.handles <= p'.handles
    ensures IsIndex(ies, p')
  {
    forall i | 0 <= i < |ies| ensures IndexAt(ies, p', i) {
      assert IndexAt(ies, p, i);
    }
  }

  lemma IndexGrows(ies: seq<KeyValue>, p: Parts, sep: Bytes)
    requires IsIndex(ies, p) && |p.seps| + 1 <= |p.handles|
    ensures IsIndex(ies + [KeyValue(sep, EncodeHandle(p.handles[|p.seps|]))],
      Parts(p.es, p.ends, p.handles, p.seps + [sep]))
  {
    var ies', p' := ies + [KeyValue(sep, EncodeHandle(p.handles[|p.seps|]))],
      Parts(p.es, p.ends, p.handles, p.seps + [sep]);
    forall i | 0 <= i < |ies'| ensures IndexAt(ies', p', i) {
      assert i < |ies| ==> IndexAt(ies, p, i);
    }
  }

  lemma BufferEmpty(l: Layout, buffer: Bytes)
    requires Shaped(l) && l.offs[|l.es|] == |buffer|
    ensures buffer == [] <==> l.es == []
  {
    OffsetsOrder(l, 0, |l.es|);
  }
}
