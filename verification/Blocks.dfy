/** BlockBuilder and Block::Iter (table/block_builder.cc, table/block.cc): what
    was added is what is read. */
module Blocks {
  import opened Options
  import opened Coding
  import opened BlockFormat

  datatype KeyValue = KeyValue(key: Bytes, value: Bytes)

  /** Where the entries of a block lie: entry i between offs[i] and offs[i + 1],
      sharing shared[i] bytes with the key before; `starts` are the entries at
      the restart points. */
  datatype Layout = Layout(es: seq<KeyValue>, offs: seq<nat>, shared: seq<nat>, starts: seq<nat>)

  ghost predicate Rising(s: seq<nat>) {
    forall i, j | 0 <= i < j < |s| :: Rises(s, i, j)
  }

  ghost predicate Rises(s: seq<nat>, i: nat, j: nat)
    requires i < j < |s|
  {
    s[i] < s[j]
  }

  lemma RisingGrows(s: seq<nat>, x: nat)
    requires Rising(s) && (s != [] ==> s[|s| - 1] < x)
    ensures Rising(s + [x])
  {
    forall i, j | 0 <= i < j < |s| + 1 ensures Rises(s + [x], i, j) {
      if j < |s| {
        assert Rises(s, i, j);
      } else if i < |s| - 1 {
        assert Rises(s, i, |s| - 1);
      }
    }
  }

  ghost predicate Shaped(l: Layout) {
    && |l.offs| == |l.es| + 1 && |l.shared| == |l.es| && l.offs[0] == 0
    && l.starts != [] && l.starts[0] == 0
    && (forall j | 1 <= j < |l.starts| :: l.starts[j] < |l.es|)
    && Rising(l.starts) && Rising(l.offs)
    && (forall j | 0 <= j < |l.starts| && l.starts[j] < |l.es| :: l.shared[l.starts[j]] == 0)
  }

  // Entry i shares a prefix with the key before it.
  ghost predicate Shares(l: Layout, i: nat)
    requires i < |l.es| && |l.shared| == |l.es|
  {
    && l.shared[i] <= |l.es[i].key|
    && (l.shared[i] > 0
      ==> i > 0 && l.shared[i] <= |l.es[i - 1].key| && l.es[i].key[..l.shared[i]] == l.es[i - 1].key[..l.shared[i]])
  }

  function Delta(l: Layout, i: nat): Bytes
    requires i < |l.es| && |l.shared| == |l.es| && l.shared[i] <= |l.es[i].key|
  {
    l.es[i].key[l.shared[i]..]
  }

  /** Entry i decodes at its place. */
  ghost predicate Decodes(data: Bytes, limit: nat, l: Layout, i: nat)
    requires i < |l.es| && |l.offs| == |l.es| + 1 && |l.shared| == |l.es|
  {
    Shares(l, i) && EntryAt(data, l.offs[i], limit, l.shared[i], Delta(l, i), l.es[i].value, l.offs[i + 1])
  }

  /** A finished block: the entries, the restart offsets, and their number. */
  ghost predicate BlockOf(data: Bytes, limit: nat, l: Layout) {
    && Shaped(l) && l.offs[|l.es|] == limit && |data| == limit + 4 * |l.starts| + 4 && |data| < LIMIT32
    && (forall i | 0 <= i < |l.es| :: Decodes(data, limit, l, i))
    && (forall j | 0 <= j < |l.starts| :: RestartIs(data, limit, l, j))
    && Fixed32At(data, |data| - 4) == |l.starts|
  }

  ghost predicate RestartIs(data: Bytes, limit: nat, l: Layout, j: nat)
    requires Shaped(l) && j < |l.starts| && limit + 4 * |l.starts| + 4 == |data|
  {
    Fixed32At(data, limit + 4 * j) == l.offs[l.starts[j]]
  }

  // ---- building ----

  // The bytes of entry i, before the block is finished.
  ghost predicate Written(data: Bytes, l: Layout, i: nat)
    requires i < |l.es| && |l.offs| == |l.es| + 1 && |l.shared| == |l.es|
  {
    && Shares(l, i) && l.offs[i] + |EntryBytes(l.shared[i], Delta(l, i), l.es[i].value)| == l.offs[i + 1] <= |data|
    && data[l.offs[i]..l.offs[i + 1]] == EntryBytes(l.shared[i], Delta(l, i), l.es[i].value)
    && |l.es[i].key| < LIMIT32 && |l.es[i].value| < LIMIT32
  }

  // Restart points are `interval` entries apart.
  ghost predicate GroupAt(l: Layout, interval: nat, j: int) {
    0 <= j && j + 1 < |l.starts| ==> l.starts[j + 1] == l.starts[j] + interval
  }

  // Between restart points an entry shares with the key before it all that agrees.
  ghost predicate SharesAll(l: Layout, i: int) {
    0 < i < |l.es| && i < |l.shared| && i !in l.starts ==> AgreeIn(l.es[i - 1].key, l.es[i].key, l.shared[i])
  }

  /** The entries after the last restart point number `counter`. */
  ghost predicate Grouped(l: Layout, interval: nat, counter: nat) {
    && l.starts != [] && |l.es| == l.starts[|l.starts| - 1] + counter
    && (forall j :: GroupAt(l, interval, j)) && forall i :: SharesAll(l, i)
  }

  class BlockBuilder {
    const interval: nat
    var buffer: Bytes
    var restarts: seq<Uint32>
    var counter: nat
    var lastKey: Bytes
    ghost var l: Layout

    ghost predicate Valid()
      reads this
    {
      Sound() && Grouped(l, interval, counter)
    }

    ghost predicate Sound()
      reads this
    {
      && Shaped(l) && l.offs[|l.es|] == |buffer| && 1 <= interval && counter <= interval
      && (forall i | 0 <= i < |l.es| :: Written(buffer, l, i))
      && |restarts| == |l.starts| && (forall j | 0 <= j < |restarts| :: restarts[j] == l.offs[l.starts[j]] % LIMIT32)
      && lastKey == (if l.es == [] then [] else l.es[|l.es| - 1].key)
      && (l.es == [] ==> |l.starts| == 1 && counter == 0)
    }

    constructor (interval: nat)
      requires interval >= 1
      ensures Valid() && l.es == []
    {
      this.interval, buffer, restarts, counter, lastKey := interval, [], [0], 0, [];
      l := Layout([], [0], [], [0]);
    }

    method Add(key: Bytes, value: Bytes)
      requires Valid() && |key| < LIMIT32 && |value| < LIMIT32
      modifies this
      ensures Valid() && l.es == old(l.es) + [KeyValue(key, value)]
      ensures CurrentSizeEstimate() <= old(CurrentSizeEstimate()) + |key| + |value| + 19
      ensures CurrentSizeEstimate() == old(SizeWith(key, value))
    {
      var shared := 0;
      ghost var was := l;
      AgreementIs(lastKey, key);
      if counter < interval {
        shared := Common(lastKey, key);
        AgreeOnce(lastKey, key, Agreement(lastKey, key), shared);
        Append(key, value, shared, l.starts);
        GroupedMore(was, l, interval, old(counter));
      } else {
        restarts := restarts + [|buffer| % LIMIT32];
        counter := 0;
        Append(key, value, 0, l.starts + [|l.es|]);
        GroupedMore(was, l, interval, old(counter));
      }
    }

    method Append(key: Bytes, value: Bytes, shared: nat, ghost starts: seq<nat>)
      requires Shaped(l) && l.offs[|l.es|] == |buffer| && (forall i | 0 <= i < |l.es| :: Written(buffer, l, i))
      requires 1 <= interval && counter < interval && lastKey == (if l.es == [] then [] else l.es[|l.es| - 1].key)
      requires |key| < LIMIT32 && |value| < LIMIT32 && shared <= |lastKey| && shared <= |key|
        && lastKey[..shared] == key[..shared]
      requires if starts == l.starts then l.es == [] ==> |l.starts| == 1
        else starts == l.starts + [|l.es|] && shared == 0 && l.es != []
      requires |restarts| == |starts| && forall j | 0 <= j < |restarts| ::
        restarts[j] == (if j < |l.starts| then l.offs[l.starts[j]] else |buffer|) % LIMIT32
      modifies this
      ensures Sound() && l.es == old(l.es) + [KeyValue(key, value)] && counter == old(counter) + 1
      ensures l == Layout(old(l.es) + [KeyValue(key, value)], old(l.offs) + [|buffer|], old(l.shared) + [shared],
        starts)
      ensures restarts == old(restarts) && |buffer| <= |old(buffer)| + |key| + |value| + 15
      ensures |buffer| == |old(buffer)| + EntrySize(shared, |key| - shared, |value|)
    {
      ghost var was, data := l, buffer;
      var nonShared := |key| - shared;
      buffer := buffer + EncodeVarint(shared) + EncodeVarint(nonShared) + EncodeVarint(|value|);
      buffer := buffer + key[shared..] + value;
      AddedBytes(data, shared, key[shared..], value, buffer);
      l := Layout(was.es + [KeyValue(key, value)], was.offs + [|buffer|], was.shared + [shared], starts);
      LayoutGrows(was, l, data, buffer, KeyValue(key, value), shared);
      lastKey := lastKey[..shared] + key[shared..];
      assert lastKey == key;
      counter := counter + 1;
    }

    function CurrentSizeEstimate(): nat
      reads this
    {
      |buffer| + |restarts| * 4 + 4
    }

    /** CurrentSizeEstimate after adding an entry. */
    function SizeWith(key: Bytes, value: Bytes): nat
      reads this
    {
      if counter < interval then
        CurrentSizeEstimate()
        + EntrySize(Agreement(lastKey, key), |key| - Agreement(lastKey, key), |value|)
      else CurrentSizeEstimate() + EntrySize(0, |key|, |value|) + 4
    }

    /** Appends the restart array; the block then reads as its entries. */
    method Finish() returns (data: Bytes)
      requires Valid() && CurrentSizeEstimate() < LIMIT32
      modifies this`buffer
      ensures BlockOf(data, |old(buffer)|, l) && Grouped(l, interval, counter)
    {
      ghost var before := buffer;
      RestartsFit(before, restarts, l);
      AppendRestarts();
      buffer := buffer + EncodeFixed32(|restarts|);
      data := buffer;
      assert data[|data| - 4..] == EncodeFixed32(|restarts|);
      FinishedBlock(before, restarts, l, data);
    }

    method AppendRestarts()
      modifies this`buffer
      ensures buffer == old(buffer) + FixedAll(restarts)
    {
      for i := 0 to |restarts|
        invariant buffer == old(buffer) + FixedAll(restarts[..i])
      {
        assert restarts[..i + 1][..i] == restarts[..i];
        buffer := buffer + EncodeFixed32(restarts[i]);
      }
      assert restarts[..|restarts|] == restarts;
    }

    /** Starts over with no entries. */
    method Reset()
      requires interval >= 1
      modifies this
      ensures Valid() && l.es == [] && buffer == [] && |restarts| == 1
    {
      buffer, restarts, counter, lastKey := [], [0], 0, [];
      l := Layout([], [0], [], [0]);
    }
  }

  // One more entry: at a restart point, or sharing all it can.
  lemma GroupedMore(l: Layout, l': Layout, interval: nat, counter: nat)
    requires Shaped(l) && Grouped(l, interval, counter) && |l'.es| == |l.es| + 1 && l.es <= l'.es
      && l.shared <= l'.shared
    requires |l'.shared| == |l'.es|
    requires if counter < interval
      then l'.starts == l.starts && (l.es != [] ==> AgreeIn(l.es[|l.es| - 1].key, l'.es[|l.es|].key, l'.shared[|l.es|]))
      else l'.starts == l.starts + [|l.es|] && counter == interval
    ensures Grouped(l', interval, if counter < interval then counter + 1 else 1)
  {
    forall j ensures GroupAt(l', interval, j) {
      assert GroupAt(l, interval, j);
    }
    forall i ensures SharesAll(l', i) {
      assert SharesAll(l, i);
    }
  }

  lemma RestartsFit(before: Bytes, restarts: seq<Uint32>, l: Layout)
    requires Shaped(l) && l.offs[|l.es|] == |before| < LIMIT32
    requires |restarts| == |l.starts|
      && (forall j | 0 <= j < |restarts| :: restarts[j] == l.offs[l.starts[j]] % LIMIT32)
    ensures forall j | 0 <= j < |restarts| :: restarts[j] == l.offs[l.starts[j]]
  {
    forall j | 0 <= j < |restarts| ensures restarts[j] == l.offs[l.starts[j]] {
      OffsetsOrder(l, l.starts[j], |l.es|);
    }
  }

  lemma AddedBytes(data: Bytes, shared: nat, delta: Bytes, value: Bytes, data': Bytes)
    requires data' == data + EncodeVarint(shared) + EncodeVarint(|delta|) + EncodeVarint(|value|) + delta + value
    requires shared < LIMIT32 && |delta| < LIMIT32 && |value| < LIMIT32
    ensures data' == data + EntryBytes(shared, delta, value) && |data'| <= |data| + 15 + |delta| + |value|
  {
    Varint32Size(shared);
    Varint32Size(|delta|);
    Varint32Size(|value|);
    FivePieces(data, EncodeVarint(shared), EncodeVarint(|delta|), EncodeVarint(|value|), delta, value);
  }

  lemma FivePieces(data: Bytes, a: Bytes, b: Bytes, c: Bytes, delta: Bytes, value: Bytes)
    ensures data + a + b + c + delta + value == data + (a + b + c + delta + value)
  {}

  lemma WrittenStays(data: Bytes, data': Bytes, l: Layout, l': Layout, i: nat)
    requires |l.offs| == |l.es| + 1 && |l.shared| == |l.es| && |l'.offs| == |l'.es| + 1 && |l'.shared| == |l'.es|
    requires i < |l.es| && Written(data, l, i) && data <= data'
    requires l.es <= l'.es && l.offs <= l'.offs && l.shared <= l'.shared
    ensures Written(data', l', i)
  {
    assert l'.es[i] == l.es[i] && l'.offs[i] == l.offs[i] && l'.offs[i + 1] == l.offs[i + 1]
      && l'.shared[i] == l.shared[i];
    assert i > 0 ==> l'.es[i - 1] == l.es[i - 1];
    assert data'[l.offs[i]..l.offs[i + 1]] == data[l.offs[i]..l.offs[i + 1]];
  }

  lemma ShapeGrows(l: Layout, l': Layout, kv: KeyValue, shared: nat, end: nat)
    requires Shaped(l) && l.offs[|l.es|] < end
    requires l' == Layout(l.es + [kv], l.offs + [end], l.shared + [shared], l'.starts)
    requires if l'.starts == l.starts then l.es == [] ==> shared == 0
      else l'.starts == l.starts + [|l.es|] && shared == 0 && l.es != []
    requires l.es == [] ==> |l.starts| == 1
    ensures Shaped(l')
  {
    RisingGrows(l.offs, end);
    if l'.starts != l.starts {
      RisingGrows(l.starts, |l.es|);
    }
    forall j | 0 <= j < |l'.starts| && l'.starts[j] < |l'.es| ensures l'.shared[l'.starts[j]] == 0 {
      if j < |l.starts| {
        assert l'.starts[j] == l.starts[j];
      }
    }
  }

  lemma LayoutGrows(l: Layout, l': Layout, data: Bytes, data': Bytes, kv: KeyValue, shared: nat)
    requires Shaped(l) && l.offs[|l.es|] == |data| && forall i | 0 <= i < |l.es| :: Written(data, l, i)
    requires shared <= |kv.key| < LIMIT32 && |kv.value| < LIMIT32
      && data' == data + EntryBytes(shared, kv.key[shared..], kv.value)
    requires l' == Layout(l.es + [kv], l.offs + [|data'|], l.shared + [shared], l'.starts)
    requires shared > 0
      ==> l.es != [] && shared <= |l.es[|l.es| - 1].key| && kv.key[..shared] == l.es[|l.es| - 1].key[..shared]
    requires if l'.starts == l.starts then l.es == [] ==> shared == 0
      else l'.starts == l.starts + [|l.es|] && shared == 0 && l.es != []
    requires l.es == [] ==> |l.starts| == 1
    ensures Shaped(l') && l'.offs[|l'.es|] == |data'| && forall i | 0 <= i < |l'.es| :: Written(data', l', i)
  {
    ShapeGrows(l, l', kv, shared, |data'|);
    forall i | 0 <= i < |l'.es| ensures Written(data', l', i) {
      if i < |l.es| {
        WrittenStays(data, data', l, l', i);
      }
    }
  }

  lemma FinishedEntry(before: Bytes, l: Layout, data: Bytes, i: nat)
    requires Shaped(l) && i < |l.es| && Written(before, l, i) && before <= data && |before| < LIMIT32
    ensures Decodes(data, |before|, l, i)
  {
    var e := EntryBytes(l.shared[i], Delta(l, i), l.es[i].value);
    var p := l.offs[i];
    assert e == before[p..p + |e|] == before[p..][..|e|];
    assert data[p..|before|] == before[p..];
    EntryDecodes(data, p, |before|, l.shared[i], Delta(l, i), l.es[i].value);
  }

  lemma FinishedCount(data: Bytes, n: Uint32)
    requires |data| >= 4 && data[|data| - 4..] == EncodeFixed32(n)
    ensures Fixed32At(data, |data| - 4) == n
  {
    DecodeEncodeFixed32(n);
    assert data[|data| - 4..|data| - 4 + 4] == data[|data| - 4..];
  }

  lemma FinishedBlock(before: Bytes, restarts: seq<Uint32>, l: Layout, data: Bytes)
    requires Shaped(l) && l.offs[|l.es|] == |before| && forall i | 0 <= i < |l.es| :: Written(before, l, i)
    requires |restarts| == |l.starts| && (forall j | 0 <= j < |restarts| :: restarts[j] == l.offs[l.starts[j]])
    requires |restarts| < LIMIT32 && |data| < LIMIT32 && |data| == |before| + 4 * |restarts| + 4
    requires before <= data && before + FixedAll(restarts) <= data && data[|data| - 4..] == EncodeFixed32(|restarts|)
    ensures BlockOf(data, |before|, l)
  {
    forall i | 0 <= i < |l.es| ensures Decodes(data, |before|, l, i) {
      FinishedEntry(before, l, data, i);
    }
    forall j | 0 <= j < |l.starts| ensures RestartIs(data, |before|, l, j) {
      FixedAt(restarts, j);
      Fixed32In(before, FixedAll(restarts), data, j, restarts[j], EncodeFixed32(restarts[j]));
    }
    FinishedCount(data, |restarts|);
  }

  // ---- reading ----

  // A key comparator: is the first key before the second?
  type Order = (Bytes, Bytes) -> bool

  ghost predicate Transitive(less: Order) {
    forall a, b, c :: less(a, b) && less(b, c) ==> less(a, c)
  }

  ghost predicate Ascending(l: Layout, less: Order) {
    forall i, j | 0 <= i < j < |l.es| :: less(l.es[i].key, l.es[j].key)
  }

  /** What Block's constructor and NewIterator make of the bytes. */
  datatype Opening = BadBlock | NoEntries | Restarts(offset: nat, count: nat)

  function Open(data: Bytes): Opening {
    if |data| < 4 then BadBlock
    else
      var n := Fixed32At(data, |data| - 4);
      if n > (|data| - 4) / 4 then BadBlock else if n == 0 then NoEntries else Restarts(|data| - (1 + n) * 4, n)
  }

  lemma OpenFinished(data: Bytes, limit: nat, l: Layout)
    requires BlockOf(data, limit, l)
    ensures Open(data) == Restarts(limit, |l.starts|)
  {}

  /** The block's iterator. `l` says where the entries lie; the code never looks
      at it. */
  class Iter {
    const data: Bytes
    const restarts: nat
    const numRestarts: nat
    const less: Order
    ghost const l: Layout
    var current: nat
    var restartIndex: nat
    var key: Bytes
    var valueAt: nat
    var valueLength: nat

    ghost predicate Ok()
    {
      BlockOf(data, restarts, l) && numRestarts == |l.starts|
    }

    predicate Valid()
      reads this
    {
      current < restarts
    }

    function Value(): Bytes
      requires valueAt + valueLength <= |data|
      reads this
    {
      data[valueAt..valueAt + valueLength]
    }

    // The iterator shows entry i.
    ghost predicate At(i: nat)
      requires Ok()
      reads this
    {
      && i < |l.es| && current == l.offs[i] && key == l.es[i].key
      && valueAt + valueLength == l.offs[i + 1] <= |data| && data[valueAt..valueAt + valueLength] == l.es[i].value
      && restartIndex < numRestarts && l.starts[restartIndex] <= i
        && (restartIndex + 1 < numRestarts ==> i <= l.starts[restartIndex + 1])
    }

    ghost predicate AtEnd()
      reads this
    {
      current == restarts && restartIndex == numRestarts
    }

    // ParseNextKey will find entry i next.
    ghost predicate Before(i: nat)
      requires Ok()
      reads this
    {
      && i <= |l.es| && valueAt + valueLength == l.offs[i]
      && (i < |l.es| && l.shared[i] > 0 ==> i > 0 && key == l.es[i - 1].key)
      && restartIndex < numRestarts && l.starts[restartIndex] <= i
    }

    constructor (data: Bytes, less: Order, ghost limit: nat, ghost l: Layout)
      requires BlockOf(data, limit, l)
      ensures Ok() && AtEnd() && this.data == data && this.restarts == limit && this.less == less && this.l == l
    {
      OpenFinished(data, limit, l);
      var o := Open(data);
      this.data, this.less, this.l := data, less, l;
      restarts, numRestarts := o.offset, o.count;
      current, restartIndex, key, valueAt, valueLength := o.offset, o.count, [], 0, 0;
    }

    function RestartPoint(index: nat): (p: nat)
      requires Ok() && index < numRestarts
      ensures p == l.offs[l.starts[index]]
    {
      assert RestartIs(data, restarts, l, index);
      Fixed32At(data, restarts + 4 * index)
    }

    method SeekToRestartPoint(index: nat)
      requires Ok() && index < numRestarts
      modifies this
      ensures Before(l.starts[index]) && restartIndex == index
    {
      key := [];
      restartIndex := index;
      valueAt, valueLength := RestartPoint(index), 0;
    }

    /** Decodes the next entry; false at the end of the block. */
    method ParseNextKey(ghost i: nat) returns (more: bool)
      requires Ok() && Before(i)
      modifies this
      ensures more <==> i < |l.es|
      ensures if more then At(i) else AtEnd()
    {
      current := valueAt + valueLength;
      OffsetsOrder(l, i, |l.es|);
      if current >= restarts {
        current := restarts;
        restartIndex := numRestarts;
        return false;
      }
      TakeEntry(i);
      PassRestarts(i);
      return true;
    }

    // In a block that was built the entry decodes, and the key before it is
    // long enough: CorruptionError is not reached.
    method TakeEntry(ghost i: nat)
      requires Ok() && i < |l.es| && current == l.offs[i] && (l.shared[i] > 0 ==> i > 0 && key == l.es[i - 1].key)
      modifies this`key, this`valueAt, this`valueLength
      ensures key == l.es[i].key && valueAt + valueLength == l.offs[i + 1] <= |data|
        && data[valueAt..valueAt + valueLength] == l.es[i].value
    {
      EntryHere(data, restarts, l, i, key);
      var e := DecodeEntry(data, current, restarts).value;
      key := key[..e.shared] + data[e.at..e.at + e.nonShared];
      valueAt, valueLength := e.at + e.nonShared, e.valueLength;
    }

    /** The last restart point before the current entry. */
    method PassRestarts(ghost i: nat)
      requires Ok() && i < |l.es| && current == l.offs[i] && restartIndex < numRestarts && l.starts[restartIndex] <= i
      modifies this`restartIndex
      ensures restartIndex < numRestarts && l.starts[restartIndex] <= i
        && (restartIndex + 1 < numRestarts ==> i <= l.starts[restartIndex + 1])
    {
      while restartIndex + 1 < numRestarts && RestartPoint(restartIndex + 1) < current
        invariant restartIndex < numRestarts && l.starts[restartIndex] <= i
        decreases numRestarts - restartIndex
      {
        OffsetsOrder(l, l.starts[restartIndex + 1], i);
        restartIndex := restartIndex + 1;
      }
      if restartIndex + 1 < numRestarts {
        OffsetsOrder(l, l.starts[restartIndex + 1], i);
      }
    }

    method Next(ghost i: nat)
      requires Ok() && At(i)
      modifies this
      ensures if i + 1 < |l.es| then At(i + 1) else AtEnd()
    {
      var _ := ParseNextKey(i + 1);
    }

    method SeekToFirst()
      requires Ok()
      modifies this
      ensures if l.es != [] then At(0) else AtEnd()
    {
      SeekToRestartPoint(0);
      var _ := ParseNextKey(0);
    }

    method SeekToLast()
      requires Ok()
      modifies this
      ensures if l.es != [] then At(|l.es| - 1) else AtEnd()
    {
      SeekToRestartPoint(numRestarts - 1);
      ghost var i := l.starts[numRestarts - 1];
      var more := ParseNextKey(i);
      while more && valueAt + valueLength < restarts
        invariant if more then At(i) else AtEnd() && l.es == []
        decreases |l.es| - i
      {
        OffsetsOrder(l, i + 1, |l.es|);
        i := i + 1;
        more := ParseNextKey(i);
      }
      if more {
        OffsetsOrder(l, i + 1, |l.es|);
      }
    }

    // To the nearest restart point before the original entry, if there is one.
    method BackUp(original: nat, ghost i: nat) returns (any: bool)
      requires Ok() && i < |l.es| && original == l.offs[i] && restartIndex < numRestarts
      modifies this`restartIndex
      ensures restartIndex < numRestarts && if any then l.starts[restartIndex] < i else i == 0
    {
      while RestartPoint(restartIndex) >= original
        invariant restartIndex < numRestarts
        decreases restartIndex
      {
        OffsetsOrder(l, l.starts[restartIndex], i);
        if restartIndex == 0 {
          return false;
        }
        restartIndex := restartIndex - 1;
      }
      OffsetsOrder(l, l.starts[restartIndex], i);
      return true;
    }

    /** Backs up to a restart point before the current entry and scans to the
        entry just before it. */
    method Prev(ghost i: nat)
      requires Ok() && At(i)
      modifies this
      ensures if i > 0 then At(i - 1) else AtEnd()
    {
      var original := current;
      var any := BackUp(original, i);
      if !any {
        current := restarts;
        restartIndex := numRestarts;
        return;
      }
      ghost var j := l.starts[restartIndex];
      SeekToRestartPoint(restartIndex);
      var more := ParseNextKey(j);
      while more && valueAt + valueLength < original
        invariant j < i && At(j) && more
        decreases i - j
      {
        OffsetsOrder(l, j + 1, i);
        j := j + 1;
        more := ParseNextKey(j);
      }
      OffsetsOrder(l, j + 1, i);
    }

    /** Binary search over the restart keys, then a scan: the first key at or
        after the target. */
    method Seek(target: Bytes) returns (ghost i: nat)
      requires Ok() && Transitive(less) && Ascending(l, less)
      modifies this
      ensures i <= |l.es| && (forall j | 0 <= j < i :: less(l.es[j].key, target))
      ensures if i < |l.es| then At(i) && !less(l.es[i].key, target) else AtEnd()
      ensures Valid() <==> i < |l.es|
    {
      var left := SearchRestarts(target);
      SeekToRestartPoint(left);
      i := l.starts[left];
      while true
        invariant Before(i) && i <= |l.es| && forall j | 0 <= j < i :: less(l.es[j].key, target)
        decreases |l.es| - i
      {
        var more := ParseNextKey(i);
        if !more || !less(key, target) {
          OffsetsOrder(l, i, |l.es|);
          return;
        }
        i := i + 1;
      }
    }

    // The last restart point whose key is before the target, or the first one.
    method SearchRestarts(target: Bytes) returns (left: nat)
      requires Ok() && Transitive(less) && Ascending(l, less)
      ensures left < numRestarts && forall j | 0 <= j < l.starts[left] && j < |l.es| :: less(l.es[j].key, target)
    {
      left := 0;
      var right := numRestarts - 1;
      while left < right
        invariant left <= right < numRestarts
        invariant left > 0 ==> less(l.es[l.starts[left]].key, target)
        decreases right - left
      {
        var mid := (left + right + 1) / 2;
        var midKey := RestartKey(mid);
        if less(midKey, target) {
          left := mid;
        } else {
          right := mid - 1;
        }
      }
    }

    // A restart entry shares nothing, so its delta is its key.
    function RestartKey(mid: nat): (k: Bytes)
      requires Ok() && 1 <= mid < numRestarts
      ensures k == l.es[l.starts[mid]].key
    {
      assert Decodes(data, restarts, l, l.starts[mid]);
      var p := RestartPoint(mid);
      var h := DecodeEntry(data, p, restarts).value;
      assert l.es[l.starts[mid]].key[0..] == l.es[l.starts[mid]].key;
      data[h.at..h.at + h.nonShared]
    }
  }

  lemma OffsetsOrder(l: Layout, i: nat, j: nat)
    requires Shaped(l) && i <= |l.es| && j <= |l.es|
    ensures l.offs[i] < l.offs[j] <==> i < j
  {
    if i < j {
      assert Rises(l.offs, i, j);
    } else if j < i {
      assert Rises(l.offs, j, i);
    }
  }

  /** What the bytes at entry i's offset decode to. */
  lemma EntryHere(data: Bytes, limit: nat, l: Layout, i: nat, key: Bytes)
    requires BlockOf(data, limit, l) && i < |l.es| && (l.shared[i] > 0 ==> i > 0 && key == l.es[i - 1].key)
    ensures l.offs[i] <= limit <= |data| && DecodeEntry(data, l.offs[i], limit).Some?
    ensures EntryGives(data, limit, DecodeEntry(data, l.offs[i], limit).value, key, l.es[i], l.offs[i + 1])
  {
    assert Decodes(data, limit, l, i);
    NextKey(l, i, key);
  }

  ghost predicate EntryGives(data: Bytes, limit: nat, h: Header, key: Bytes, e: KeyValue, next: nat) {
    && h.shared <= |key| && h.at + h.nonShared + h.valueLength == next <= limit <= |data|
    && key[..h.shared] + data[h.at..h.at + h.nonShared] == e.key
    && data[h.at + h.nonShared..next] == e.value
  }

  /** Keeping the shared bytes and appending the delta gives the next key. */
  lemma NextKey(l: Layout, i: nat, key: Bytes)
    requires |l.shared| == |l.es| && i < |l.es| && Shares(l, i) && (l.shared[i] > 0 ==> i > 0 && key == l.es[i - 1].key)
    ensures l.shared[i] <= |key| && key[..l.shared[i]] + Delta(l, i) == l.es[i].key
  {
    assert l.es[i].key == l.es[i].key[..l.shared[i]] + l.es[i].key[l.shared[i]..];
  }
}

