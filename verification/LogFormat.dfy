/** The record log (db/log_format.h, db/log_writer.cc, db/log_reader.cc). */
module LogFormat {
  import opened Options
  import opened Coding

  const BLOCK_SIZE: nat := 32768
  const HEADER_SIZE: nat := 7

  const ZERO_TYPE: Byte := 0
  const FULL_TYPE: Byte := 1
  const FIRST_TYPE: Byte := 2
  const MIDDLE_TYPE: Byte := 3
  const LAST_TYPE: Byte := 4
  // Reader's special codes share the number space of the record types.
  const END_OF_FILE: Byte := 5
  const BAD_RECORD: Byte := 6

  // ---- physical records ----

  function Header(crc: Crc, kind: Byte, payload: Bytes): (r: Bytes)
    requires |payload| <= 0xffff
    ensures |r| == HEADER_SIZE
  {
    EncodeFixed32(Mask(crc([kind] + payload))) + [|payload| % 256, |payload| / 256, kind]
  }

  function Encoded(crc: Crc, kind: Byte, payload: Bytes): (r: Bytes)
    requires |payload| <= 0xffff
    ensures |r| == HEADER_SIZE + |payload|
  {
    Header(crc, kind, payload) + payload
  }

  // ---- what the writer puts down ----

  // An offset inside a block; BLOCK_SIZE when the block is full.
  type Offset = o: nat | o <= BLOCK_SIZE

  // The trailer left when not even a header fits.
  function Pad(off: Offset): nat {
    if BLOCK_SIZE - off < HEADER_SIZE then BLOCK_SIZE - off else 0
  }

  function Start(off: Offset): (r: Offset)
    ensures r + HEADER_SIZE <= BLOCK_SIZE
  {
    if BLOCK_SIZE - off < HEADER_SIZE then 0 else off
  }

  function FragmentLength(off: Offset, left: nat): nat {
    var avail := BLOCK_SIZE - Start(off) - HEADER_SIZE;
    if left < avail then left else avail
  }

  function FragmentKind(begin: bool, end: bool): Byte {
    if begin && end then FULL_TYPE else if begin then FIRST_TYPE else if end then LAST_TYPE else MIDDLE_TYPE
  }

  function Payload(off: Offset, data: Bytes): Bytes {
    data[..FragmentLength(off, |data|)]
  }

  function KindOf(off: Offset, data: Bytes, begin: bool): Byte {
    FragmentKind(begin, FragmentLength(off, |data|) == |data|)
  }

  /** The padding, the header and the payload of the first fragment. */
  function Frame(crc: Crc, off: Offset, data: Bytes, begin: bool): (r: Bytes)
    ensures |r| == Pad(off) + HEADER_SIZE + FragmentLength(off, |data|)
  {
    Zeros(Pad(off)) + Encoded(crc, KindOf(off, data, begin), Payload(off, data))
  }

  // A way of laying out the first fragment of some data at a block offset.
  type Framing = (Offset, Bytes, bool) -> Bytes

  function Framed(crc: Crc): Framing {
    (off: Offset, data: Bytes, begin: bool) => Frame(crc, off, data, begin)
  }

  /** The bytes that hold `data` when it is added at block offset `off`. A
      fragment is empty only when the data is, or when exactly a header fits in
      the block; the next one then has a whole block. */
  function Written(first: Framing, off: Offset, data: Bytes, begin: bool): Bytes
    decreases |data|, off != BLOCK_SIZE
  {
    var n := FragmentLength(off, |data|);
    first(off, data, begin) +
    if n == |data| then [] else Written(first, Start(off) + HEADER_SIZE + n, data[n..], false)
  }

  // A way of laying out a record at a file offset.
  type Placing = (nat, Bytes) -> Bytes

  function Placed(crc: Crc): Placing {
    (p: nat, data: Bytes) => Written(Framed(crc), p % BLOCK_SIZE, data, true)
  }

  /** The bytes the given records take when added from file offset p on. */
  ghost function LogFrom(put: Placing, p: nat, records: seq<Bytes>): Bytes
    decreases |records|
  {
    if records == [] then [] else put(p, records[0]) + LogFrom(put, p + |put(p, records[0])|, records[1..])
  }

  ghost function Log(crc: Crc, records: seq<Bytes>): Bytes {
    LogFrom(Placed(crc), 0, records)
  }

  // ---- what the reader makes of a position ----

  /** Where the next header at or after p can start: never in the last six bytes
      of a block. */
  function Align(p: nat): nat {
    p + Pad(p % BLOCK_SIZE)
  }

  function BlockEnd(q: nat): nat {
    q - q % BLOCK_SIZE + BLOCK_SIZE
  }

  function Min(a: nat, b: nat): nat {
    if a < b then a else b
  }

  datatype Parsed = Parsed(code: Byte, payload: Bytes, used: nat, reports: seq<nat>)

  /** The physical record at the head of what is left of a block. */
  function ParseBlock(crc: Crc, b: Bytes, eof: bool): (r: Parsed)
    requires |b| >= HEADER_SIZE
    ensures 0 < r.used <= |b|
  {
    var length := b[4] + (b[5] as int) * 256;
    if HEADER_SIZE + length > |b| then
      if eof then Parsed(END_OF_FILE, [], |b|, []) else Parsed(BAD_RECORD, [], |b|, [|b|])
    else if b[6] == ZERO_TYPE && length == 0 then Parsed(BAD_RECORD, [], |b|, [])
    else if crc(b[6..HEADER_SIZE + length]) != Unmask(DecodeFixed32(b)) then Parsed(BAD_RECORD, [], |b|, [|b|])
    else Parsed(b[6], b[HEADER_SIZE..HEADER_SIZE + length], HEADER_SIZE + length, [])
  }

  datatype Physical = Physical(code: Byte, payload: Bytes, at: nat, next: nat, reports: seq<nat>)

  // The rest of the block from q on, as far as the file goes.
  function RestOfBlock(file: Bytes, q: nat): Bytes
    requires q <= |file|
  {
    file[q..Min(BlockEnd(q), |file|)]
  }

  /** ReadPhysicalRecord from position p, as a function of the whole file. */
  function PhysicalAt(crc: Crc, file: Bytes, p: nat): (r: Physical)
    requires p <= |file|
    ensures p <= r.next <= |file| && (r.code != END_OF_FILE ==> p < r.next)
  {
    var q := Align(p);
    if q + HEADER_SIZE > |file| then Physical(END_OF_FILE, [], q, |file|, [])
    else
      var r := ParseBlock(crc, RestOfBlock(file, q), |file| < BlockEnd(q));
      Physical(r.code, r.payload, q, q + r.used, r.reports)
  }

  datatype Result = Result(record: Option<Bytes>, next: nat, offset: nat, reports: seq<nat>)

  // What ReadRecord has in hand between two fragments.
  datatype Gathered = Gathered(inside: bool, scratch: Bytes, offset: nat)

  datatype Progress = Done(record: Option<Bytes>, offset: nat, reports: seq<nat>) | More(g: Gathered, reports: seq<nat>)

  /** The effect of one physical record on the logical record being gathered. */
  function Took(code: Byte, payload: Bytes, at: nat, g: Gathered): Progress {
    if code == FULL_TYPE then Done(Some(payload), at, Partial(g))
    else if code == FIRST_TYPE then More(Gathered(true, payload, at), Partial(g))
    else if code == MIDDLE_TYPE then
      if g.inside then More(g.(scratch := g.scratch + payload), []) else More(g, [|payload|])
    else if code == LAST_TYPE then
      if g.inside then Done(Some(g.scratch + payload), g.offset, []) else More(g, [|payload|])
    else if code == END_OF_FILE then Done(None, g.offset, [])
    else if code == BAD_RECORD then
      if g.inside then More(Gathered(false, [], g.offset), [|g.scratch|]) else More(g, [])
    else More(Gathered(false, [], g.offset), [|payload| + if g.inside then |g.scratch| else 0])
  }

  // What a physical read at each position of a file gives.
  type Reading = nat -> Physical

  ghost predicate Advances(phys: Reading, size: nat) {
    forall p: nat | p <= size :: p <= phys(p).next <= size && (phys(p).code != END_OF_FILE ==> p < phys(p).next)
  }

  ghost function ReadingOf(crc: Crc, file: Bytes): (phys: Reading)
    ensures Advances(phys, |file|)
  {
    (p: nat) => if p <= |file| then PhysicalAt(crc, file, p) else Physical(END_OF_FILE, [], p, p, [])
  }

  /** ReadRecord from position p. */
  ghost function RecordFrom(phys: Reading, size: nat, p: nat, g: Gathered): (r: Result)
    requires Advances(phys, size) && p <= size
    ensures p <= r.next <= size && (r.record.Some? ==> p < r.next)
    decreases size - p
  {
    match Took(phys(p).code, phys(p).payload, phys(p).at, g)
    case Done(record, offset, reports) => Result(record, phys(p).next, offset, phys(p).reports + reports)
    case More(g', reports) => Reporting(phys(p).reports + reports, RecordFrom(phys, size, phys(p).next, g'))
  }

  const NOTHING := Gathered(false, [], 0)

  function Partial(g: Gathered): seq<nat> {
    if g.inside && g.scratch != [] then [|g.scratch|] else []
  }

  function Reporting(reports: seq<nat>, r: Result): Result {
    r.(reports := reports + r.reports)
  }

  lemma ReportingTwice(a: seq<nat>, b: seq<nat>, r: Result)
    ensures Reporting(a, Reporting(b, r)) == Reporting(a + b, r)
  {
    assert a + (b + r.reports) == (a + b) + r.reports;
  }

  lemma RecordStart(crc: Crc, file: Bytes, p: nat)
    requires p <= |file|
    ensures var r := ReadingOf(crc, file)(p);
      r.code == FULL_TYPE || r.code == FIRST_TYPE ==>
        r.at + HEADER_SIZE <= r.next && r.next == r.at + HEADER_SIZE + |r.payload|
  {
    assert ReadingOf(crc, file)(p) == PhysicalAt(crc, file, p);
  }
}
