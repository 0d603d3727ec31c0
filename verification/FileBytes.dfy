/** The bytes of LevelDB's files, spelled out (the formats that db/log_format.h,
    db/dbformat.h, table/format.h and the encoders fix). */
module FileBytes {
  import opened Options
  import opened Coding
  import opened WireLaws
  import Keys
  import LogFormat
  import WriteBatches
  import VersionEdits
  import ByteKeys
  import BlockFormat
  import TableFormat
  import Bits
  import Bloom

  // ---- numbers ----

  /** 300 in base 128, and 0x01020304 in four bytes, both from the least significant on. */
  lemma Numbers()
    ensures EncodeVarint(300) == [0xac, 0x02] && EncodeFixed32(0x01020304) == [4, 3, 2, 1]
  {
    assert EncodeVarint(2) == [2];
  }

  // ---- the log ----

  /** A masked checksum is the checksum rotated right by 15 bits plus a constant. */
  lemma Masks()
    ensures Mask(0) == 0xa282ead8 && Mask(1) == 0xa284ead8 && Mask(0x8000) == 0xa282ead9
  {}

  /** The log of one record that fits in a block: the masked checksum of type and data,
      the length, type 1 and the data. */
  lemma ShortRecord(crc: Crc, data: Bytes)
    requires |data| <= 32761
    ensures LogFormat.Log(crc, [data])
      == EncodeFixed32(Mask(crc([1] + data))) + [|data| % 256, |data| / 256, 1] + data
  {
    PlacedIs(crc, data);
    FitsInBlock(LogFormat.Framed(crc), 0, data, true);
    FramedIs(crc, 0, data, true);
    assert data[..|data|] == data;
    NoneBefore(LogFormat.Encoded(crc, 1, data));
  }

  lemma OneRecord(put: LogFormat.Placing, data: Bytes)
    ensures LogFormat.LogFrom(put, 0, [data]) == put(0, data)
  {
    assert [data][1..] == [];
    NoneAfter(put(0, data));
  }

  // Data that fits in what is left of a block takes one fragment.
  lemma FitsInBlock(first: LogFormat.Framing, off: LogFormat.Offset, data: Bytes, begin: bool)
    requires LogFormat.FragmentLength(off, |data|) == |data|
    ensures LogFormat.Written(first, off, data, begin) == first(off, data, begin)
  {
    NoneAfter(first(off, data, begin));
  }

  lemma FillsBlock(crc: Crc, data: Bytes, begin: bool)
    requires |data| > 32761
    ensures LogFormat.Frame(crc, 0, data, begin)
      == LogFormat.Encoded(crc, if begin then 2 else 3, data[..32761])
    ensures LogFormat.Frame(crc, 32768, data, begin)
      == LogFormat.Encoded(crc, if begin then 2 else 3, data[..32761])
  {
    NoneBefore(LogFormat.Encoded(crc, if begin then 2 else 3, data[..32761]));
  }

  lemma LastInBlock(crc: Crc, data: Bytes)
    requires |data| <= 32761
    ensures LogFormat.Frame(crc, 32768, data, false) == LogFormat.Encoded(crc, 4, data)
  {
    assert data[..|data|] == data;
    NoneBefore(LogFormat.Encoded(crc, 4, data));
  }

  lemma FramedIs(crc: Crc, off: LogFormat.Offset, data: Bytes, begin: bool)
    ensures LogFormat.Framed(crc)(off, data, begin) == LogFormat.Frame(crc, off, data, begin)
  {}

  lemma PlacedIs(crc: Crc, data: Bytes)
    ensures LogFormat.Log(crc, [data]) == LogFormat.Written(LogFormat.Framed(crc), 0, data, true)
  {
    var put := LogFormat.Placed(crc);
    OneRecord(put, data);
    assert put(0, data) == LogFormat.Written(LogFormat.Framed(crc), 0, data, true);
  }

  lemma WrittenTwice(first: LogFormat.Framing, data: Bytes)
    requires |data| > 32761
    ensures LogFormat.Written(first, 0, data, true)
      == first(0, data, true) + LogFormat.Written(first, 32768, data[32761..], false)
  {}

  /** A longer one is cut at the ends of blocks: a first fragment, of type 2, fills the
      block of 32768 bytes; a last one, of type 4, holds the rest, if that fits. Between
      them, in longer ones still, are fragments of type 3 (FillsBlock). */
  lemma TwoBlocks(crc: Crc, data: Bytes)
    requires 32761 < |data| <= 65522
    ensures LogFormat.Log(crc, [data])
      == LogFormat.Encoded(crc, 2, data[..32761]) + LogFormat.Encoded(crc, 4, data[32761..])
  {
    var rest := data[32761..];
    PlacedIs(crc, data);
    WrittenTwice(LogFormat.Framed(crc), data);
    FitsInBlock(LogFormat.Framed(crc), 32768, rest, false);
    FramedIs(crc, 0, data, true);
    FramedIs(crc, 32768, rest, false);
    FillsBlock(crc, data, true);
    LastInBlock(crc, rest);
  }

  // ---- internal keys and batches ----

  /** An internal key: the user key and eight bytes, the first a 1 for a value and a 0
      for a deletion, the others the sequence number. */
  lemma KeyBytes(user: Bytes, k: Keys.IKey)
    ensures ByteKeys.Tagged(user, k) == user + [if k.kind.Put? then 1 else 0] + LittleEndian(k.sn, 7)
  {
    var tag := Keys.Tag(k);
    assert tag % 256 == (if k.kind.Put? then 1 else 0) && tag / 256 == k.sn;
    assert LittleEndian(tag, 8) == [tag % 256] + LittleEndian(tag / 256, 7);
  }

  /** A batch: the sequence number in eight bytes, the count in four, and the operations,
      each a 1 with its key and value or a 0 with its key. */
  lemma BatchBytes(rep: Bytes, sn: nat, op: WriteBatches.Op)
    requires WriteBatches.Holds(rep, sn, [op])
    ensures rep == LittleEndian(sn, 8) + [1, 0, 0, 0] + match op {
      case Put(key, value) => [1] + Prefixed(key) + Prefixed(value)
      case Delete(key) => [0] + Prefixed(key)
    }
  {
    assert rep == rep[..8] + rep[8..12] + rep[12..];
    assert WriteBatches.EncodeFrom([op], 1) == [];
    NoneAfter(WriteBatches.EncodeOp(op));
  }

  // ---- version edits ----

  /** The entries of a version edit carry these numbers in front. */
  lemma EditBytes(name: Bytes, n: nat, level: nat, key: Bytes, f: VersionEdits.FileMeta)
    ensures VersionEdits.EncodeItem(VersionEdits.Comparator(name)) == [1] + Prefixed(name)
    ensures VersionEdits.EncodeItem(VersionEdits.LogNumber(n)) == [2] + EncodeVarint(n)
    ensures VersionEdits.EncodeItem(VersionEdits.NextFileNumber(n)) == [3] + EncodeVarint(n)
    ensures VersionEdits.EncodeItem(VersionEdits.LastSequence(n)) == [4] + EncodeVarint(n)
    ensures VersionEdits.EncodeItem(VersionEdits.CompactPointer(level, key))
      == [5] + (EncodeVarint(level) + Prefixed(key))
    ensures VersionEdits.EncodeItem(VersionEdits.DeletedFile(level, n)) == [6] + (EncodeVarint(level) + EncodeVarint(n))
    ensures VersionEdits.EncodeItem(VersionEdits.NewFile(level, f)) == [7] + (EncodeVarint(level)
      + (EncodeVarint(f.number) + EncodeVarint(f.size) + Prefixed(f.smallest) + Prefixed(f.largest)))
    ensures VersionEdits.EncodeItem(VersionEdits.PrevLogNumber(n)) == [9] + EncodeVarint(n)
  {}

  // ---- tables ----

  /** A block entry: the lengths shared, not shared and of the value, and the bytes. */
  lemma EntryBytes(shared: nat, delta: Bytes, value: Bytes)
    requires shared < 128 && |delta| < 128 && |value| < 128
    ensures BlockFormat.EntryBytes(shared, delta, value) == [shared, |delta|, |value|] + delta + value
  {}

  /** A stored block ends in its type and the masked checksum of both. */
  lemma StoredBytes(c: TableFormat.Codec, contents: Bytes)
    ensures TableFormat.StoredForm(c, contents, TableFormat.NO_COMPRESSION)
      == contents + [0] + EncodeFixed32(Mask(c.crc(contents + [0])))
  {}

  /** The footer: two handles, padding up to 40 bytes, and the magic number. */
  lemma FooterBytes(meta: TableFormat.Handle, index: TableFormat.Handle)
    requires TableFormat.Fits(meta) && TableFormat.Fits(index)
    ensures var handles := EncodeVarint(meta.offset) + EncodeVarint(meta.size)
      + (EncodeVarint(index.offset) + EncodeVarint(index.size));
      |handles| <= 40 && TableFormat.EncodeFooter(meta, index)
        == handles + Zeros(40 - |handles|) + [0x57, 0xfb, 0x80, 0x8b, 0x24, 0x75, 0x47, 0xdb]
  {
    TableFormat.HandleRoundTrip(meta, []);
    TableFormat.HandleRoundTrip(index, []);
    assert TableFormat.Magic() == [0x57, 0xfb, 0x80, 0x8b, 0x24, 0x75, 0x47, 0xdb];
  }

  // ---- filters ----

  lemma AddModulo(a: nat, b: nat, m: nat)
    requires m > 0
    ensures (a % m + b) % m == (a + b) % m
  {
    assert a == m * (a / m) + a % m;
    MoreTurns(a % m + b, m, a / m);
  }

  lemma {:induction false} MoreTurns(a: nat, m: nat, k: nat)
    requires m > 0
    ensures (a + m * k) % m == a % m
  {
    var q, r := a / m, a % m;
    assert a + m * k == m * (q + k) + r;
    Quotient(a + m * k, m, q + k, r);
  }

  lemma Once(j: nat, r: nat)
    requires j > 0
    ensures (j - 1) * r + r == j * r
  {}

  lemma NextProbe(h: nat, r: nat, j: nat, x: nat, m: nat)
    requires j > 0 && m > 0 && x == (h + (j - 1) * r) % m
    ensures (x + r) % m == (h + j * r) % m
  {
    var before: nat := h + (j - 1) * r;
    Once(j, r);
    AddModulo(before, r, m);
  }

  /** Probe j of a key is at its hash plus j times the hash rotated right by 17 bits. */
  lemma {:induction false} ProbeAt(h: Uint32, j: nat)
    ensures Bloom.HashAt(h, j) == (h + j * Bloom.Rotated(h)) % 0x1_0000_0000
  {
    if j > 0 {
      ProbeAt(h, j - 1);
      NextProbe(h, Bloom.Rotated(h), j, Bloom.HashAt(h, j - 1), 0x1_0000_0000);
    }
  }

  lemma Rotates()
    ensures Bloom.Rotated(0x2_0000) == 1 && Bloom.Rotated(1) == 0x8000 && Bloom.Rotated(0x1_0000) == 0x8000_0000
  {}

  /** Bit k counts from the least significant. */
  lemma {:induction false} BitIs(b: nat, k: nat)
    ensures Bits.Pow2(k) > 0 && (Bits.Bit(b, k) <==> b / Bits.Pow2(k) % 2 == 1)
  {
    if k > 0 {
      BitIs(b / 2, k - 1);
      DivideTwice(b, 2, Bits.Pow2(k - 1));
    }
  }

  /** Bit p of a filter is bit p % 8 of byte p / 8. */
  lemma FilterBit(a: Bytes, p: nat)
    requires p < |a| * 8
    ensures Bits.Pow2(p % 8) > 0 && (Bloom.BitAt(a, p) <==> a[p / 8] / Bits.Pow2(p % 8) % 2 == 1)
  {
    BitIs(a[p / 8], p % 8);
  }
}
