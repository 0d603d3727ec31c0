/** The filter block: one filter for each 2 KB of table offsets
    (table/filter_block.cc). */
module FilterBlocks {
  import opened Coding
  import opened Bits
  import opened Bloom
  import opened ByteKeys

  const BASE_LG := 11
  const BASE := 2048

  // InternalFilterPolicy: filters are over user keys.
  function Users(keys: seq<Bytes>): (r: seq<Bytes>)
    requires forall k | k in keys :: IsInternal(k)
    ensures |r| == |keys| && forall i | 0 <= i < |keys| :: r[i] == User(keys[i])
  {
    if keys == [] then [] else Users(keys[..|keys| - 1]) + [User(keys[|keys| - 1])]
  }

  /** A key added while a block starting at offset `at` was written. */
  datatype Mark = Mark(at: nat, key: Bytes)

  function End(offs: seq<nat>, size: nat, i: nat): nat
    requires i < |offs|
  {
    if i + 1 < |offs| then offs[i + 1] else size
  }

  predicate InOrder(offs: seq<nat>, size: nat, i: nat)
    requires i < |offs|
  {
    offs[i] <= End(offs, size, i) <= size
  }

  ghost predicate AllInOrder(offs: seq<nat>, size: nat) {
    forall i | 0 <= i < |offs| :: InOrder(offs, size, i)
  }

  lemma OrderGrows(offs: seq<nat>, size: nat, size': nat)
    requires AllInOrder(offs, size) && size <= size'
    ensures AllInOrder(offs + [size], size')
  {
    forall i | 0 <= i < |offs| + 1 ensures InOrder(offs + [size], size', i) {
      assert i < |offs| ==> InOrder(offs, size, i);
    }
  }

  /** The filter of the mark's 2 KB range admits its key. */
  ghost predicate Holds(p: Policy, result: Bytes, offs: seq<nat>, m: Mark) {
    && IsInternal(m.key) && m.at / BASE < |offs| && InOrder(offs, |result|, m.at / BASE)
    && MayMatch(p, User(m.key), result[offs[m.at / BASE]..End(offs, |result|, m.at / BASE)])
  }

  // The flattened keys: key i starts at start[i].
  ghost predicate Flat(keys: Bytes, start: seq<nat>, pending: seq<Bytes>) {
    |start| == |pending| && forall i | 0 <= i < |start| :: FlatAt(keys, start, pending, i)
  }

  ghost predicate FlatAt(keys: Bytes, start: seq<nat>, pending: seq<Bytes>, i: nat)
    requires i < |start| == |pending|
  {
    InOrder(start, |keys|, i) && keys[start[i]..End(start, |keys|, i)] == pending[i]
  }

  lemma FlatGrows(keys: Bytes, start: seq<nat>, pending: seq<Bytes>, key: Bytes)
    requires Flat(keys, start, pending)
    ensures Flat(keys + key, start + [|keys|], pending + [key])
  {
    var keys', start', pending' := keys + key, start + [|keys|], pending + [key];
    forall i | 0 <= i < |start'| ensures FlatAt(keys', start', pending', i) {
      if i < |start| {
        assert FlatAt(keys, start, pending, i);
        assert End(start', |keys'|, i) == End(start, |keys|, i);
      }
    }
  }

  lemma HoldsStays(p: Policy, result: Bytes, result': Bytes, offs: seq<nat>, m: Mark)
    requires Holds(p, result, offs, m) && result <= result'
    ensures Holds(p, result', offs + [|result|], m)
  {
    var i := m.at / BASE;
    assert End(offs + [|result|], |result'|, i) == End(offs, |result|, i);
    assert result'[offs[i]..End(offs, |result|, i)] == result[offs[i]..End(offs, |result|, i)];
  }

  /** The mark's filter is written, or its key is waiting for it. */
  ghost predicate Settled(p: Policy, result: Bytes, offs: seq<nat>, pending: seq<Bytes>, m: Mark) {
    if m.at / BASE < |offs| then Holds(p, result, offs, m)
      else m.at / BASE == |offs| && m.key in pending && IsInternal(m.key)
  }

  ghost predicate Keyed(keys: seq<Bytes>) {
    forall i | 0 <= i < |keys| :: IsInternal(keys[i])
  }

  lemma SettleOne(p: Policy, result: Bytes, result': Bytes, offs: seq<nat>, pending: seq<Bytes>, m: Mark)
    requires Fit(p) && Keyed(pending) && Settled(p, result, offs, pending, m)
    requires result <= result' && (pending != [] ==> IsFilter(p, Users(pending), result'[|result|..]))
    ensures Holds(p, result', offs + [|result|], m)
  {
    if m.at / BASE < |offs| {
      HoldsStays(p, result, result', offs, m);
    } else {
      var i :| 0 <= i < |pending| && pending[i] == m.key;
      assert Users(pending)[i] == User(m.key);
      NoFalseNegative(p, Users(pending), result'[|result|..], User(m.key));
      assert result'[|result|..|result'|] == result'[|result|..];
    }
  }

  class FilterBlockBuilder {
    const policy: Policy
    var keys: Bytes
    var start: seq<nat>
    var result: Bytes
    var filterOffsets: seq<Uint32>
    ghost var at: nat
    ghost var pending: seq<Bytes>
    ghost var offs: seq<nat>
    ghost var marks: set<Mark>

    ghost predicate Valid()
      reads this
    {
      && Fit(policy) && Flat(keys, start, pending) && Keyed(pending)
      && |filterOffsets| == |offs| && AllInOrder(offs, |result|)
      && (forall i | 0 <= i < |offs| :: filterOffsets[i] == offs[i] % 0x1_0000_0000)
      && forall m | m in marks :: Settled(policy, result, offs, pending, m)
    }

    constructor (policy: Policy)
      requires Fit(policy)
      ensures Valid() && at == 0 && marks == {} && Current() && this.policy == policy
    {
      this.policy := policy;
      keys, start, result, filterOffsets := [], [], [], [];
      at, pending, offs, marks := 0, [], [], {};
    }

    // The filters before the current block's range are written.
    ghost predicate Current()
      reads this
    {
      at / BASE == |offs|
    }

    method StartBlock(blockOffset: nat)
      requires Valid() && Current() && blockOffset >= at
      modifies this
      ensures Valid() && Current() && at == blockOffset && marks == old(marks) && FinalSize() == old(FinalSize())
    {
      var filterIndex := blockOffset / BASE;
      while filterIndex > |filterOffsets|
        invariant Valid() && |offs| <= filterIndex && marks == old(marks) && FinalSize() == old(FinalSize())
        decreases filterIndex - |filterOffsets|
      {
        GenerateFilter();
      }
      at := blockOffset;
    }

    method AddKey(key: Bytes)
      requires Valid() && Current() && IsInternal(key)
      modifies this
      ensures Valid() && Current() && at == old(at) && marks == old(marks) + {Mark(at, key)}
    {
      FlatGrows(keys, start, pending, key);
      start := start + [|keys|];
      keys := keys + key;
      pending := pending + [key];
      marks := marks + {Mark(at, key)};
    }

    // Cuts the flattened keys apart.
    method TmpKeys() returns (tmpKeys: seq<Bytes>)
      requires Flat(keys, start, pending)
      ensures tmpKeys == pending
    {
      tmpKeys := [];
      for i := 0 to |start|
        invariant tmpKeys == pending[..i]
      {
        var limit := if i + 1 < |start| then start[i + 1] else |keys|;
        assert FlatAt(keys, start, pending, i);
        tmpKeys := tmpKeys + [keys[start[i]..limit]];
      }
    }

    method GenerateFilter()
      requires Valid()
      modifies this
      ensures Valid() && marks == old(marks) && at == old(at) && pending == [] && offs == old(offs) + [|old(result)|]
      ensures |result| == |old(result)| + FilterSize(policy, |old(pending)|)
    {
      ghost var was := result;
      ghost var waiting := pending;
      filterOffsets := filterOffsets + [|result| % 0x1_0000_0000];
      offs := offs + [|result|];
      if |start| > 0 {
        var tmpKeys := TmpKeys();
        result := InternalCreateFilter(policy, tmpKeys, result);
        keys, start, pending := [], [], [];
      }
      OrderGrows(old(offs), |was|, |result|);
      forall m | m in marks ensures Settled(policy, result, offs, pending, m) {
        SettleOne(policy, was, result, old(offs), waiting, m);
      }
    }

    // The filters' size once the waiting keys have theirs.
    ghost function FinalSize(): nat
      reads this
    {
      |result| + FilterSize(policy, |pending|)
    }

    /** Writes the last filter, the offsets, where they start, and the range. */
    method Finish() returns (data: Bytes, ghost end: nat)
      requires Valid() && FinalSize() + 4 * |filterOffsets| + 9 < 0x1_0000_0000
      modifies this
      ensures FilterBlockOf(policy, data, offs, end, marks) && marks == old(marks) && |data| < 0x1_0000_0000
    {
      if |start| > 0 {
        GenerateFilter();
      }
      var arrayOffset := |result|;
      ghost var was := result;
      end := arrayOffset;
      AppendOffsets();
      result := result + EncodeFixed32(arrayOffset) + [BASE_LG];
      data := result;
      Uncut(filterOffsets, offs, |was|);
      FinishedFilters(policy, was, FixedAll(filterOffsets), filterOffsets, offs, marks, data);
    }

    method AppendOffsets()
      modifies this`result
      ensures result == old(result) + FixedAll(filterOffsets)
    {
      for i := 0 to |filterOffsets|
        invariant result == old(result) + FixedAll(filterOffsets[..i])
      {
        assert filterOffsets[..i + 1][..i] == filterOffsets[..i];
        result := result + EncodeFixed32(filterOffsets[i]);
      }
      assert filterOffsets[..|filterOffsets|] == filterOffsets;
    }
  }

  // A filter's size for n keys.
  function FilterSize(p: Policy, n: nat): nat {
    if n == 0 then 0 else if n * p.bitsPerKey < 64 then 9 else (n * p.bitsPerKey + 7) / 8 + 1
  }

  // InternalFilterPolicy::CreateFilter
  method InternalCreateFilter(p: Policy, keys: seq<Bytes>, dst: Bytes) returns (r: Bytes)
    requires Fit(p) && Keyed(keys) && keys != []
    ensures dst <= r && IsFilter(p, Users(keys), r[|dst|..]) && |r| == |dst| + FilterSize(p, |keys|)
  {
    var mkey: seq<Bytes> := [];
    for i := 0 to |keys|
      invariant mkey == Users(keys[..i])
    {
      assert keys[..i + 1][..i] == keys[..i];
      mkey := mkey + [User(keys[i])];
    }
    assert keys[..|keys|] == keys;
    r := CreateFilter(p, mkey, dst);
  }

  /** A finished filter block: the filters, the offset of each, where the offsets
      start, and the range's logarithm; each mark's filter admits its key. */
  ghost predicate FilterBlockOf(p: Policy, data: Bytes, offs: seq<nat>, end: nat, marks: set<Mark>) {
    && |data| == end + 4 * |offs| + 5 < 0x1_0000_0000 && data[|data| - 1] == BASE_LG
    && Fixed32At(data, end + 4 * |offs|) == end
    && AllInOrder(offs, end) && (forall i | 0 <= i < |offs| :: OffsetIs(data, end, i, offs[i]))
    && forall m | m in marks :: Holds(p, data[..end], offs, m)
  }

  ghost predicate OffsetIs(data: Bytes, end: nat, i: nat, x: nat) {
    end + 4 * i + 4 <= |data| && Fixed32At(data, end + 4 * i) == x
  }

  // Offsets under 2^32 were not cut.
  lemma Uncut(filterOffsets: seq<Uint32>, offs: seq<nat>, size: nat)
    requires |filterOffsets| == |offs| && size < 0x1_0000_0000 && AllInOrder(offs, size)
    requires forall i | 0 <= i < |offs| :: filterOffsets[i] == offs[i] % 0x1_0000_0000
    ensures offs == filterOffsets
  {
    forall i | 0 <= i < |offs| ensures offs[i] == filterOffsets[i] {
      assert InOrder(offs, size, i);
    }
  }

  lemma FinishedFilters(p: Policy, was: Bytes, all: Bytes, filterOffsets: seq<Uint32>, offs: seq<nat>, marks: set<Mark>,
    data: Bytes)
    requires |was| < 0x1_0000_0000 && AllInOrder(offs, |was|) && offs == filterOffsets && all == FixedAll(filterOffsets)
    requires forall m | m in marks :: Holds(p, was, offs, m)
    requires data == was + all + EncodeFixed32(|was|) + [BASE_LG] && |data| < 0x1_0000_0000
    ensures FilterBlockOf(p, data, offs, |was|, marks)
  {
    assert data[..|was|] == was;
    forall i | 0 <= i < |offs| ensures OffsetIs(data, |was|, i, offs[i]) {
      OffsetThere(was, all, filterOffsets, i, data);
    }
    LastWord(was + all, |was|, data);
  }

  lemma OffsetThere(was: Bytes, all: Bytes, filterOffsets: seq<Uint32>, i: nat, data: Bytes)
    requires i < |filterOffsets| && was + all <= data && all == FixedAll(filterOffsets)
    ensures OffsetIs(data, |was|, i, filterOffsets[i])
  {
    FixedAt(filterOffsets, i);
    Fixed32In(was, all, data, i, filterOffsets[i], EncodeFixed32(filterOffsets[i]));
  }

  lemma LastWord(before: Bytes, x: Uint32, data: Bytes)
    requires data == before + EncodeFixed32(x) + [BASE_LG]
    ensures |data| == |before| + 5 && data[|data| - 1] == BASE_LG && Fixed32At(data, |before|) == x
  {
    assert data[|before|..|before| + 4] == EncodeFixed32(x);
    DecodeEncodeFixed32(x);
  }

  /** What the reader finds at an index. */
  lemma ReadOffsets(p: Policy, data: Bytes, offs: seq<nat>, end: nat, marks: set<Mark>, i: nat)
    requires FilterBlockOf(p, data, offs, end, marks) && i < |offs|
    ensures end + 4 * i + 8 <= |data| && Fixed32At(data, end + 4 * i) == offs[i]
      && Fixed32At(data, end + 4 * i + 4) == End(offs, end, i)
    ensures InOrder(offs, end, i)
  {
    assert OffsetIs(data, end, i, offs[i]);
    if i + 1 < |offs| {
      assert OffsetIs(data, end, i + 1, offs[i + 1]);
    }
  }

  /** The answer for a block offset: that of the filter of its range. */
  ghost predicate Admits(p: Policy, data: Bytes, offs: seq<nat>, end: nat, blockOffset: nat, key: Bytes)
    requires IsInternal(key)
  {
    var i := blockOffset / BASE;
    i < |offs| ==> InOrder(offs, end, i) && end <= |data| && MayMatch(p, User(key), data[offs[i]..End(offs, end, i)])
  }

  /** A key marked in the block, whatever its sequence number, is never ruled
      out. */
  lemma NeverRuledOut(p: Policy, data: Bytes, offs: seq<nat>, end: nat, marks: set<Mark>, m: Mark, key: Bytes)
    requires FilterBlockOf(p, data, offs, end, marks) && m in marks && IsInternal(key) && IsInternal(m.key)
      && User(m.key) == User(key)
    ensures Admits(p, data, offs, end, m.at, key)
  {
    var i := m.at / BASE;
    assert Holds(p, data[..end], offs, m);
    assert data[..end][offs[i]..End(offs, end, i)] == data[offs[i]..End(offs, end, i)];
  }

  class FilterBlockReader {
    const policy: Policy
    const contents: Bytes
    const offset: nat
    const num: nat
    const baseLg: nat

    ghost predicate Valid() {
      num > 0 ==> offset + 4 * num + 5 <= |contents|
    }

    // The constructor found where the offsets are.
    ghost predicate Reads(offs: seq<nat>, end: nat) {
      offset == end && num == |offs| && baseLg == BASE_LG
    }

    constructor (policy: Policy, contents: Bytes)
      ensures Valid() && this.policy == policy && this.contents == contents
      ensures forall offs, end: nat, marks :: FilterBlockOf(policy, contents, offs, end, marks) ==> Reads(offs, end)
    {
      this.policy, this.contents := policy, contents;
      var n := |contents|;
      if n < 5 {
        offset, num, baseLg := 0, 0, 0;
      } else {
        baseLg := contents[n - 1];
        var lastWord := Fixed32At(contents, n - 5);
        if lastWord > n - 5 {
          offset, num := 0, 0;
        } else {
          offset, num := lastWord, (n - 5 - lastWord) / 4;
        }
      }
    }

    /** Errors count as matches; in a finished block the answer is exactly that
        of the filter of the offset's range. */
    method KeyMayMatch(blockOffset: nat, key: Bytes, ghost offs: seq<nat>, ghost end: nat, ghost marks: set<Mark>)
      returns (r: bool)
      requires Valid() && IsInternal(key)
      requires FilterBlockOf(policy, contents, offs, end, marks) ==> Reads(offs, end)
      ensures FilterBlockOf(policy, contents, offs, end, marks)
        ==> (r <==> Admits(policy, contents, offs, end, blockOffset, key))
    {
      RangeSize();
      var index := blockOffset / Pow2(baseLg);
      if index < num {
        var first := Fixed32At(contents, offset + index * 4);
        var limit := Fixed32At(contents, offset + index * 4 + 4);
        if FilterBlockOf(policy, contents, offs, end, marks) {
          AnswerAt(policy, contents, offs, end, marks, blockOffset, key);
        }
        if first <= limit && limit <= offset {
          r := Bloom.KeyMayMatch(policy, User(key), contents[first..limit]);
          return;
        } else if first == limit {
          return false;
        }
      }
      return true;
    }
  }

  // The two offsets read at the index bound the filter that answers.
  lemma AnswerAt(p: Policy, data: Bytes, offs: seq<nat>, end: nat, marks: set<Mark>, blockOffset: nat, key: Bytes)
    requires FilterBlockOf(p, data, offs, end, marks) && IsInternal(key) && blockOffset / BASE < |offs|
    ensures var i := blockOffset / BASE;
      end + 4 * i + 8 <= |data|
      && var a, b := Fixed32At(data, end + 4 * i), Fixed32At(data, end + 4 * i + 4);
      a <= b <= end && (Admits(p, data, offs, end, blockOffset, key) <==> MayMatch(p, User(key), data[a..b]))
  {
    ReadOffsets(p, data, offs, end, marks, blockOffset / BASE);
  }

  lemma RangeSize()
    ensures Pow2(BASE_LG) == BASE && forall k :: Pow2(k) > 0
  {
    forall k ensures Pow2(k) > 0 {
      Positive(k);
    }
    assert Pow2(3) == 2 * (2 * (2 * Pow2(0)));
    assert Pow2(6) == 2 * (2 * (2 * Pow2(3)));
    assert Pow2(9) == 2 * (2 * (2 * Pow2(6)));
    assert Pow2(11) == 2 * (2 * Pow2(9));
  }

  lemma Positive(k: nat)
    ensures Pow2(k) > 0
  {}
}
