/** What a log reader returns from any bytes at all: only fragments whose checksums
    match, put together in order. */
module LogDamage {
  import opened Options
  import opened Coding
  import opened LogFormat

  lemma MaskUnmask(masked: Uint32)
    ensures 0 <= Unmask(masked) < 0x1_0000_0000 && Mask(Unmask(masked)) == masked
  {
    var rot := (masked - MASK_DELTA) % 0x1_0000_0000;
    var high, low := rot / 0x2_0000, rot % 0x2_0000;
    var crc := Unmask(masked);
    assert crc == high + low * 0x8000 && high < 0x8000;
    assert crc / 0x8000 == low && crc % 0x8000 == high;
    assert low + high * 0x2_0000 == rot;
  }

  lemma Fixed32Bytes(b: Bytes)
    requires |b| == 4
    ensures EncodeFixed32(DecodeFixed32(b)) == b
  {
    var x := DecodeFixed32(b);
    var y := b[1] + (b[2] as int) * 0x100 + (b[3] as int) * 0x1_0000;
    var z := b[2] + (b[3] as int) * 0x100;
    assert x == b[0] + 0x100 * y && y == b[1] + 0x100 * z;
    assert x / 0x100 == y && x / 0x1_0000 == y / 0x100 == z;
    assert x / 0x100_0000 == z / 0x100 == b[3];
  }

  /** A fragment the parser accepts is, byte for byte, what the writer puts down for its
      type and payload: header, length and matching checksum. */
  lemma AcceptedIsWritten(crc: Crc, b: Bytes, eof: bool)
    requires |b| >= HEADER_SIZE && ParseBlock(crc, b, eof).code in {FULL_TYPE, FIRST_TYPE, MIDDLE_TYPE, LAST_TYPE}
    ensures var r := ParseBlock(crc, b, eof);
      |r.payload| <= 0xffff && r.used == HEADER_SIZE + |r.payload| && b[..r.used] == Encoded(crc, r.code, r.payload)
  {
    var r := ParseBlock(crc, b, eof);
    var length := b[4] + (b[5] as int) * 256;
    var sum := DecodeFixed32(b);
    assert b[6..HEADER_SIZE + length] == [b[6]] + r.payload;
    MaskUnmask(sum);
    Fixed32Bytes(b[..4]);
    assert Header(crc, r.code, r.payload) == b[..4] + [b[4], b[5], b[6]];
    assert b[..r.used] == b[..4] + [b[4], b[5], b[6]] + r.payload;
  }

  /** What the writer puts down for a fragment is accepted, whatever follows it. */
  lemma WrittenIsAccepted(crc: Crc, kind: Byte, payload: Bytes, tail: Bytes, eof: bool)
    requires |payload| <= 0xffff && (kind != ZERO_TYPE || payload != [])
    ensures ParseBlock(crc, Encoded(crc, kind, payload) + tail, eof)
      == Parsed(kind, payload, HEADER_SIZE + |payload|, [])
  {
    var b, sum := Encoded(crc, kind, payload) + tail, Mask(crc([kind] + payload));
    var n := HEADER_SIZE + |payload|;
    assert b[..4] == EncodeFixed32(sum) && b[4] == |payload| % 256 && b[5] == |payload| / 256 && b[6] == kind;
    DecodeEncodeFixed32(sum);
    assert DecodeFixed32(b) == DecodeFixed32(b[..4]);
    UnmaskMask(crc([kind] + payload));
    assert b[HEADER_SIZE..n] == payload;
    assert b[6..n] == [kind] + payload;
  }

  // ---- whole records ----

  // A fragment, and where its header stands.
  datatype Part = Part(at: nat, kind: Byte, payload: Bytes)

  ghost predicate Intact(crc: Crc, file: Bytes, part: Part) {
    && |part.payload| <= 0xffff && part.at + HEADER_SIZE + |part.payload| <= |file|
    && file[part.at..part.at + HEADER_SIZE + |part.payload|] == Encoded(crc, part.kind, part.payload)
  }

  // All of it stands in the file from p on, one fragment after the other.
  ghost predicate Standing(crc: Crc, file: Bytes, p: nat, parts: seq<Part>) {
    && (forall i | 0 <= i < |parts| :: p <= parts[i].at && Intact(crc, file, parts[i]))
    && forall i, j | 0 <= i < j < |parts| :: parts[i].at + HEADER_SIZE + |parts[i].payload| <= parts[j].at
  }

  ghost function Payloads(parts: seq<Part>): Bytes {
    if parts == [] then [] else Payloads(parts[..|parts| - 1]) + parts[|parts| - 1].payload
  }

  // A first fragment and middle ones.
  ghost predicate Begun(parts: seq<Part>) {
    parts != [] && parts[0].kind == FIRST_TYPE && forall i | 1 <= i < |parts| :: parts[i].kind == MIDDLE_TYPE
  }

  // One full fragment, or a first one, middle ones and a last one.
  ghost predicate Whole(parts: seq<Part>) {
    || (|parts| == 1 && parts[0].kind == FULL_TYPE)
    || (|parts| > 1 && Begun(parts[..|parts| - 1]) && parts[|parts| - 1].kind == LAST_TYPE)
  }

  lemma PhysicalIsIntact(crc: Crc, file: Bytes, p: nat)
    requires p <= |file| && PhysicalAt(crc, file, p).code in {FULL_TYPE, FIRST_TYPE, MIDDLE_TYPE, LAST_TYPE}
    ensures var r := PhysicalAt(crc, file, p);
      p <= r.at && Intact(crc, file, Part(r.at, r.code, r.payload)) && r.next == r.at + HEADER_SIZE + |r.payload|
  {
    var q := Align(p);
    var b := RestOfBlock(file, q);
    var r := ParseBlock(crc, b, |file| < BlockEnd(q));
    AcceptedIsWritten(crc, b, |file| < BlockEnd(q));
    RestBegins(file, q, Min(BlockEnd(q), |file|), r.used);
  }

  lemma RestBegins(file: Bytes, q: nat, end: nat, n: nat)
    requires q + n <= end <= |file|
    ensures file[q..end][..n] == file[q..q + n]
  {}

  // What has been gathered is what the fragments in hand hold.
  ghost predicate InHand(crc: Crc, file: Bytes, p: nat, now: nat, g: Gathered, parts: seq<Part>) {
    g.inside ==>
      && Begun(parts) && Standing(crc, file, p, parts) && g.scratch == Payloads(parts) && g.offset == parts[0].at
      && forall i | 0 <= i < |parts| :: parts[i].at + HEADER_SIZE + |parts[i].payload| <= now
  }

  lemma OneMore(crc: Crc, file: Bytes, p: nat, now: nat, g: Gathered, parts: seq<Part>, part: Part)
    requires g.inside && InHand(crc, file, p, now, g, parts) && Intact(crc, file, part) && now <= part.at
      && p <= part.at
    ensures Standing(crc, file, p, parts + [part]) && Payloads(parts + [part]) == g.scratch + part.payload
    ensures part.kind == MIDDLE_TYPE ==> Begun(parts + [part])
    ensures part.kind == LAST_TYPE ==> Whole(parts + [part])
  {
    assert (parts + [part])[..|parts|] == parts;
  }

  lemma Alone(part: Part)
    ensures Payloads([part]) == part.payload
  {
    assert Payloads([part][..0]) == [];
  }

  ghost predicate IsRecord(crc: Crc, file: Bytes, p: nat, parts: seq<Part>, record: Bytes, offset: nat) {
    Whole(parts) && Standing(crc, file, p, parts) && record == Payloads(parts) && offset == parts[0].at
  }

  // One fragment more.
  lemma Takes(crc: Crc, file: Bytes, p: nat, now: nat, g: Gathered, parts: seq<Part>) returns (parts': seq<Part>)
    requires p <= now <= |file| && InHand(crc, file, p, now, g, parts)
    ensures var ph := PhysicalAt(crc, file, now);
      match Took(ph.code, ph.payload, ph.at, g)
      case Done(record, offset, _) => record.Some? ==> IsRecord(crc, file, p, parts', record.value, offset)
      case More(g', _) => InHand(crc, file, p, ph.next, g', parts')
  {
    var ph := PhysicalAt(crc, file, now);
    var part := Part(ph.at, ph.code, ph.payload);
    parts' := parts;
    if ph.code in {FULL_TYPE, FIRST_TYPE, MIDDLE_TYPE, LAST_TYPE} {
      PhysicalIsIntact(crc, file, now);
      Alone(part);
      if ph.code == FULL_TYPE || ph.code == FIRST_TYPE {
        parts' := [part];
      } else if g.inside {
        OneMore(crc, file, p, now, g, parts, part);
        parts' := parts + [part];
      }
    }
  }

  /** Whatever the bytes are, a record that is read is made of intact fragments that
      follow one another in the file, from where its offset says. */
  lemma {:induction false} RecordIsIntact(crc: Crc, file: Bytes, p: nat, now: nat, g: Gathered, parts: seq<Part>)
    returns (all: seq<Part>)
    requires p <= now <= |file| && InHand(crc, file, p, now, g, parts)
    ensures var r := RecordFrom(ReadingOf(crc, file), |file|, now, g);
      r.record.Some? ==> IsRecord(crc, file, p, all, r.record.value, r.offset)
    decreases |file| - now
  {
    var ph := ReadingOf(crc, file)(now);
    assert ph == PhysicalAt(crc, file, now);
    all := Takes(crc, file, p, now, g, parts);
    match Took(ph.code, ph.payload, ph.at, g)
    case Done(_, _, _) =>
    case More(g', _) => all := RecordIsIntact(crc, file, p, ph.next, g', all);
  }

  /** ReadRecord, on any file. */
  lemma ReadIsIntact(crc: Crc, file: Bytes, p: nat) returns (parts: seq<Part>)
    requires p <= |file|
    ensures var r := RecordFrom(ReadingOf(crc, file), |file|, p, NOTHING);
      r.record.Some? ==> IsRecord(crc, file, p, parts, r.record.value, r.offset)
  {
    parts := RecordIsIntact(crc, file, p, p, NOTHING, []);
  }
}
