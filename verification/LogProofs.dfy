/** Reading a log back: every complete record, in order, and no complaint about
    a torn tail (db/log_reader.cc, db/log_writer.cc). */
module LogProofs {
  import opened Options
  import opened Coding
  import opened LogFormat

  // ---- one physical record ----

  lemma LengthBytes(n: nat)
    requires n <= 0xffff
    ensures n % 256 + (n / 256) * 256 == n
  {}

  lemma ParseWhole(crc: Crc, b: Bytes, kind: Byte, payload: Bytes, eof: bool)
    requires |payload| <= 0xffff && kind != ZERO_TYPE && Encoded(crc, kind, payload) <= b
    ensures ParseBlock(crc, b, eof) == Parsed(kind, payload, HEADER_SIZE + |payload|, [])
  {
    var e := Encoded(crc, kind, payload);
    var sum := Mask(crc([kind] + payload));
    assert forall i | 0 <= i < |e| :: b[i] == e[i];
    assert forall i | 0 <= i < 4 :: b[i] == EncodeFixed32(sum)[i];
    assert b[4] == |payload| % 256 && b[5] == |payload| / 256 && b[6] == kind;
    LengthBytes(|payload|);
    assert b[6..HEADER_SIZE + |payload|] == [kind] + payload;
    assert b[HEADER_SIZE..HEADER_SIZE + |payload|] == payload;
    DecodeEncodeFixed32(sum);
    UnmaskMask(crc([kind] + payload));
  }

  lemma ParseTorn(crc: Crc, b: Bytes, kind: Byte, payload: Bytes)
    requires |payload| <= 0xffff && HEADER_SIZE <= |b| < HEADER_SIZE + |payload| && b <= Encoded(crc, kind, payload)
    ensures ParseBlock(crc, b, true) == Parsed(END_OF_FILE, [], |b|, [])
  {
    var e := Encoded(crc, kind, payload);
    assert b[4] == e[4] == |payload| % 256 && b[5] == e[5] == |payload| / 256;
    LengthBytes(|payload|);
  }

  /** The header of the fragment that the writer puts at p. */
  lemma FragmentPlace(p: nat, off: Offset, left: nat)
    requires (p - off) % BLOCK_SIZE == 0
    ensures Align(p) == p + Pad(off)
    ensures Align(p) + HEADER_SIZE + FragmentLength(off, left) <= BlockEnd(Align(p))
    ensures (p + Pad(off) - Start(off)) % BLOCK_SIZE == 0
  {
    var k := (p - off) / BLOCK_SIZE;
    assert p == k * BLOCK_SIZE + off;
    assert p % BLOCK_SIZE == off % BLOCK_SIZE;
  }

  // The physical record that reads back the first fragment of `data`.
  function FirstPhysical(p: nat, off: Offset, data: Bytes, begin: bool): Physical {
    Physical(KindOf(off, data, begin), Payload(off, data), p + Pad(off),
      p + Pad(off) + HEADER_SIZE + FragmentLength(off, |data|), [])
  }

  lemma FragmentInBlock(crc: Crc, file: Bytes, p: nat, off: Offset, data: Bytes, begin: bool)
    requires (p - off) % BLOCK_SIZE == 0 && p <= |file|
    requires Frame(crc, off, data, begin) <= file[p..]
    ensures Align(p) == p + Pad(off) && Align(p) + HEADER_SIZE <= |file|
    ensures Encoded(crc, KindOf(off, data, begin), Payload(off, data)) <= RestOfBlock(file, Align(p))
  {
    var q := p + Pad(off);
    var f := Encoded(crc, KindOf(off, data, begin), Payload(off, data));
    FragmentPlace(p, off, |data|);
    assert file[p..][..Pad(off) + |f|] == Zeros(Pad(off)) + f;
    assert file[q..q + |f|] == file[p..][..Pad(off) + |f|][Pad(off)..];
    assert RestOfBlock(file, q)[..|f|] == file[q..q + |f|];
  }

  lemma FragmentReads(crc: Crc, file: Bytes, p: nat, off: Offset, data: Bytes, begin: bool)
    requires (p - off) % BLOCK_SIZE == 0 && p <= |file|
    requires Frame(crc, off, data, begin) <= file[p..]
    ensures ReadingOf(crc, file)(p) == FirstPhysical(p, off, data, begin)
  {
    FragmentInBlock(crc, file, p, off, data, begin);
    ParseWhole(crc, RestOfBlock(file, Align(p)), KindOf(off, data, begin), Payload(off, data),
      |file| < BlockEnd(Align(p)));
    assert ReadingOf(crc, file)(p) == PhysicalAt(crc, file, p);
  }

  lemma FragmentTorn(crc: Crc, file: Bytes, p: nat, off: Offset, data: Bytes, begin: bool)
    requires (p - off) % BLOCK_SIZE == 0 && p <= |file|
    requires file[p..] < Frame(crc, off, data, begin)
    ensures var r := ReadingOf(crc, file)(p); r.code == END_OF_FILE && r.reports == []
  {
    var q := p + Pad(off);
    var f := Encoded(crc, KindOf(off, data, begin), Payload(off, data));
    FragmentPlace(p, off, |data|);
    if q + HEADER_SIZE <= |file| {
      var b := RestOfBlock(file, q);
      assert |file| < BlockEnd(q) && b == file[q..];
      assert b == file[p..][Pad(off)..] == (Zeros(Pad(off)) + f)[..|file| - p][Pad(off)..] == f[..|b|];
      ParseTorn(crc, b, KindOf(off, data, begin), Payload(off, data));
    }
    assert ReadingOf(crc, file)(p) == PhysicalAt(crc, file, p);
  }

  /** At p a reading finds a fragment that is there, and the end of the file in
      one that is not all there. */
  ghost predicate DecodesAt(phys: Reading, file: Bytes, first: Framing, p: nat, off: Offset, data: Bytes, begin: bool) {
    p <= |file| && (p - off) % BLOCK_SIZE == 0 ==>
      && (first(off, data, begin) <= file[p..] ==> phys(p) == FirstPhysical(p, off, data, begin))
      && (file[p..] < first(off, data, begin) ==> phys(p).code == END_OF_FILE && phys(p).reports == [])
  }

  ghost predicate Decodes(phys: Reading, file: Bytes, first: Framing) {
    forall p: nat, off: Offset, data, begin :: DecodesAt(phys, file, first, p, off, data, begin)
  }

  lemma ReaderDecodes(crc: Crc, file: Bytes)
    ensures Decodes(ReadingOf(crc, file), file, Framed(crc))
  {
    forall p: nat, off: Offset, data, begin
      ensures DecodesAt(ReadingOf(crc, file), file, Framed(crc), p, off, data, begin) {
      assert Framed(crc)(off, data, begin) == Frame(crc, off, data, begin);
      if p <= |file| && (p - off) % BLOCK_SIZE == 0 {
        if Framed(crc)(off, data, begin) <= file[p..] {
          FragmentReads(crc, file, p, off, data, begin);
        }
        if file[p..] < Framed(crc)(off, data, begin) {
          FragmentTorn(crc, file, p, off, data, begin);
        }
      }
    }
  }

  // Fragments have the length the offsets are computed from.
  ghost predicate Sized(first: Framing) {
    forall off: Offset, data, begin :: |first(off, data, begin)| == Pad(off) + HEADER_SIZE + FragmentLength(off, |data|)
  }

  lemma FramedSized(crc: Crc)
    ensures Sized(Framed(crc))
  {
    forall off: Offset, data, begin
      ensures |Framed(crc)(off, data, begin)| == Pad(off) + HEADER_SIZE + FragmentLength(off, |data|)
    {
      assert Framed(crc)(off, data, begin) == Frame(crc, off, data, begin);
    }
  }

  // ---- one logical record ----

  /** Reading from p finds every fragment of `data` ... */
  ghost predicate Holds(phys: Reading, p: nat, off: Offset, data: Bytes, begin: bool)
    decreases |data|, off != BLOCK_SIZE
  {
    var n := FragmentLength(off, |data|);
    && phys(p) == FirstPhysical(p, off, data, begin)
    && (n < |data| ==> Holds(phys, phys(p).next, Start(off) + HEADER_SIZE + n, data[n..], false))
  }

  /** ... or a first few of them and then the end of the file. */
  ghost predicate BreaksOff(phys: Reading, p: nat, off: Offset, data: Bytes, begin: bool)
    decreases |data|, off != BLOCK_SIZE
  {
    var n := FragmentLength(off, |data|);
    || (phys(p).code == END_OF_FILE && phys(p).reports == [])
    || (n < |data| && phys(p) == FirstPhysical(p, off, data, begin)
        && BreaksOff(phys, phys(p).next, Start(off) + HEADER_SIZE + n, data[n..], false))
  }

  function WrittenLength(off: Offset, left: nat): nat
    decreases left, off != BLOCK_SIZE
  {
    var n := FragmentLength(off, left);
    Pad(off) + HEADER_SIZE + n + if n == left then 0 else WrittenLength(Start(off) + HEADER_SIZE + n, left - n)
  }

  lemma {:induction false} LengthOfWritten(first: Framing, off: Offset, data: Bytes, begin: bool)
    requires Sized(first)
    ensures |Written(first, off, data, begin)| == WrittenLength(off, |data|)
    decreases |data|, off != BLOCK_SIZE
  {
    var n := FragmentLength(off, |data|);
    if n < |data| {
      LengthOfWritten(first, Start(off) + HEADER_SIZE + n, data[n..], false);
    }
  }

  predicate Ready(begin: bool, g: Gathered) {
    if begin then g == NOTHING else g.inside
  }

  function GatheredAfter(p: nat, off: Offset, data: Bytes, begin: bool, g: Gathered): Gathered {
    Gathered(true, g.scratch + Payload(off, data), if begin then p + Pad(off) else g.offset)
  }

  lemma GoOn(phys: Reading, size: nat, p: nat, off: Offset, data: Bytes, begin: bool, g: Gathered)
    requires Advances(phys, size) && p <= size && Ready(begin, g)
    requires phys(p) == FirstPhysical(p, off, data, begin) && FragmentLength(off, |data|) < |data|
    ensures phys(p).next == p + Pad(off) + HEADER_SIZE + FragmentLength(off, |data|)
    ensures RecordFrom(phys, size, p, g) == RecordFrom(phys, size, phys(p).next, GatheredAfter(p, off, data, begin, g))
  {
    var g' := GatheredAfter(p, off, data, begin, g);
    assert begin ==> g.scratch + Payload(off, data) == Payload(off, data);
    assert Took(phys(p).code, phys(p).payload, phys(p).at, g) == More(g', []);
    var r := RecordFrom(phys, size, phys(p).next, g');
    assert RecordFrom(phys, size, p, g) == Reporting([] + [], r);
    assert [] + r.reports == r.reports;
  }

  /** A record that is all there is returned whole. */
  lemma {:induction false} HeldRecord(phys: Reading, size: nat, p: nat, off: Offset, data: Bytes, begin: bool,
    g: Gathered)
    requires Advances(phys, size) && p <= size && Holds(phys, p, off, data, begin) && Ready(begin, g)
    ensures RecordFrom(phys, size, p, g) ==
      Result(Some(g.scratch + data), p + WrittenLength(off, |data|), if begin then p + Pad(off) else g.offset, [])
    decreases |data|, off != BLOCK_SIZE
  {
    var n := FragmentLength(off, |data|);
    if n == |data| {
      Finish(phys, size, p, off, data, begin, g);
    } else {
      var p', off' := p + Pad(off) + HEADER_SIZE + n, Start(off) + HEADER_SIZE + n;
      HeldRecord(phys, size, p', off', data[n..], false, GatheredAfter(p, off, data, begin, g));
      Joined(off, data, g.scratch);
      GoOn(phys, size, p, off, data, begin, g);
    }
  }

  lemma Joined(off: Offset, data: Bytes, scratch: Bytes)
    requires FragmentLength(off, |data|) < |data|
    ensures var n := FragmentLength(off, |data|);
      && (scratch + Payload(off, data)) + data[n..] == scratch + data
      && WrittenLength(off, |data|)
        == Pad(off) + HEADER_SIZE + n + WrittenLength(Start(off) + HEADER_SIZE + n, |data[n..]|)
  {}

  lemma Finish(phys: Reading, size: nat, p: nat, off: Offset, data: Bytes, begin: bool, g: Gathered)
    requires Advances(phys, size) && p <= size && Ready(begin, g)
    requires phys(p) == FirstPhysical(p, off, data, begin) && FragmentLength(off, |data|) == |data|
    ensures RecordFrom(phys, size, p, g) ==
      Result(Some(g.scratch + data), p + WrittenLength(off, |data|), if begin then p + Pad(off) else g.offset, [])
  {
    assert Payload(off, data) == data && (begin ==> g.scratch + data == data);
    assert begin ==> Partial(g) == [];
  }

  /** A record that is cut off is passed over in silence. */
  lemma {:induction false} BrokenRecord(phys: Reading, size: nat, p: nat, off: Offset, data: Bytes, begin: bool,
    g: Gathered)
    requires Advances(phys, size) && p <= size && BreaksOff(phys, p, off, data, begin) && Ready(begin, g)
    ensures RecordFrom(phys, size, p, g).record == None && RecordFrom(phys, size, p, g).reports == []
    decreases |data|, off != BLOCK_SIZE
  {
    var n := FragmentLength(off, |data|);
    if phys(p).code != END_OF_FILE {
      GoOn(phys, size, p, off, data, begin, g);
      BrokenRecord(phys, size, phys(p).next, Start(off) + HEADER_SIZE + n, data[n..], false,
        GatheredAfter(p, off, data, begin, g));
    }
  }

  // ---- the bytes of one logical record ----

  lemma NextPlace(p: nat, off: Offset, p': nat, off': Offset)
    requires (p - off) % BLOCK_SIZE == 0 && p' - off' == p + Pad(off) - Start(off)
    ensures (p' - off') % BLOCK_SIZE == 0
  {
    FragmentPlace(p, off, 0);
  }

  // Taking the first piece w off what is left of the file.
  lemma Peel(file: Bytes, p: nat, w: Bytes, rest: Bytes)
    requires p <= |file| && file[p..] <= w + rest
    ensures if p + |w| <= |file| then w <= file[p..] && file[p + |w|..] <= rest else file[p..] < w
  {
    if p + |w| <= |file| {
      assert w == (w + rest)[..|w|] == file[p..][..|w|];
      assert file[p + |w|..] == file[p..][|w|..] == (w + rest)[..|file| - p][|w|..] == rest[..|file| - p - |w|];
    } else {
      assert file[p..] == (w + rest)[..|file| - p] == w[..|file| - p];
    }
  }

  lemma PeelWhole(file: Bytes, p: nat, w: Bytes, rest: Bytes)
    requires p <= |file| && w + rest <= file[p..]
    ensures w <= file[p..] && p + |w| <= |file| && rest <= file[p + |w|..]
  {
    assert w == (w + rest)[..|w|] == file[p..][..|w|];
    assert rest == (w + rest)[|w|..] == file[p..][..|w + rest|][|w|..];
    assert file[p..][..|w + rest|][|w|..] == file[p + |w|..][..|rest|];
  }

  lemma {:induction false} WholeRecord(phys: Reading, file: Bytes, first: Framing, p: nat, off: Offset, data: Bytes,
    begin: bool)
    requires Decodes(phys, file, first) && Sized(first)
    requires (p - off) % BLOCK_SIZE == 0 && p <= |file| && Written(first, off, data, begin) <= file[p..]
    ensures Holds(phys, p, off, data, begin)
    decreases |data|, off != BLOCK_SIZE
  {
    var n := FragmentLength(off, |data|);
    var p', off' := p + Pad(off) + HEADER_SIZE + n, Start(off) + HEADER_SIZE + n;
    var rest := if n == |data| then [] else Written(first, off', data[n..], false);
    assert Written(first, off, data, begin) == first(off, data, begin) + rest;
    PeelWhole(file, p, first(off, data, begin), rest);
    assert DecodesAt(phys, file, first, p, off, data, begin);
    assert phys(p) == FirstPhysical(p, off, data, begin);
    if n < |data| {
      NextPlace(p, off, p', off');
      WholeRecord(phys, file, first, p', off', data[n..], false);
    }
  }

  lemma {:induction false} TornRecord(phys: Reading, file: Bytes, first: Framing, p: nat, off: Offset, data: Bytes,
    begin: bool)
    requires Decodes(phys, file, first) && Sized(first)
    requires (p - off) % BLOCK_SIZE == 0 && p <= |file| && file[p..] < Written(first, off, data, begin)
    ensures BreaksOff(phys, p, off, data, begin)
    decreases |data|, off != BLOCK_SIZE
  {
    var n := FragmentLength(off, |data|);
    var p', off' := p + Pad(off) + HEADER_SIZE + n, Start(off) + HEADER_SIZE + n;
    var rest := if n == |data| then [] else Written(first, off', data[n..], false);
    var w := first(off, data, begin);
    assert Written(first, off, data, begin) == w + rest;
    Peel(file, p, w, rest);
    assert DecodesAt(phys, file, first, p, off, data, begin);
    if p + |w| <= |file| {
      assert phys(p) == FirstPhysical(p, off, data, begin);
      NextPlace(p, off, p', off');
      TornRecord(phys, file, first, p', off', data[n..], false);
    } else {
      assert phys(p).code == END_OF_FILE;
    }
  }

  // ---- a whole log ----

  /** All the records from p on, and all the complaints. */
  ghost function AllFrom(phys: Reading, size: nat, p: nat): (r: (seq<Bytes>, seq<nat>))
    requires Advances(phys, size) && p <= size
    decreases size - p
  {
    var r := RecordFrom(phys, size, p, NOTHING);
    match r.record
    case None => ([], r.reports)
    case Some(data) =>
      var rest := AllFrom(phys, size, r.next);
      ([data] + rest.0, r.reports + rest.1)
  }

  function EndOf(p: nat, data: Bytes): (e: nat)
    ensures p < e
  {
    p + WrittenLength(p % BLOCK_SIZE, |data|)
  }

  /** How many of the records added from p on are complete in a file of the given
      size. */
  function CompleteIn(p: nat, records: seq<Bytes>, size: nat): (k: nat)
    ensures k <= |records|
    decreases |records|
  {
    if records == [] || EndOf(p, records[0]) > size then 0
    else 1 + CompleteIn(EndOf(p, records[0]), records[1..], size)
  }

  /** ReadRecord at p gives exactly `data` and moves past it. */
  ghost predicate Recovered(phys: Reading, size: nat, p: nat, data: Bytes)
    requires Advances(phys, size)
  {
    p <= size && EndOf(p, data) <= size &&
    var r := RecordFrom(phys, size, p, NOTHING);
    r.record == Some(data) && r.next == EndOf(p, data) && r.reports == [] && r.offset == p + Pad(p % BLOCK_SIZE)
  }

  lemma HeldIsRecovered(phys: Reading, size: nat, p: nat, data: Bytes)
    requires Advances(phys, size) && p <= size && Holds(phys, p, p % BLOCK_SIZE, data, true)
    ensures Recovered(phys, size, p, data)
  {
    HeldRecord(phys, size, p, p % BLOCK_SIZE, data, true, NOTHING);
    assert [] + data == data;
  }

  lemma NoMore(phys: Reading, size: nat, p: nat, data: Bytes)
    requires Advances(phys, size) && p <= size && BreaksOff(phys, p, p % BLOCK_SIZE, data, true)
    ensures AllFrom(phys, size, p) == ([], [])
  {
    BrokenRecord(phys, size, p, p % BLOCK_SIZE, data, true, NOTHING);
  }

  lemma OneMore(phys: Reading, size: nat, p: nat, data: Bytes, rest: seq<Bytes>)
    requires Advances(phys, size) && Recovered(phys, size, p, data) && AllFrom(phys, size, EndOf(p, data)) == (rest, [])
    ensures AllFrom(phys, size, p) == ([data] + rest, [])
  {}

  lemma NothingLeft(crc: Crc, file: Bytes)
    ensures AllFrom(ReadingOf(crc, file), |file|, |file|) == ([], [])
  {
    assert ReadingOf(crc, file)(|file|) == PhysicalAt(crc, file, |file|);
  }

  lemma InBlock(p: nat)
    ensures (p - p % BLOCK_SIZE) % BLOCK_SIZE == 0
  {}

  /** Reading from p gives back a record that is all there, and nothing for one
      that is not. */
  ghost predicate RecoversAt(phys: Reading, file: Bytes, put: Placing, p: nat, data: Bytes)
    requires Advances(phys, |file|)
  {
    p <= |file| ==>
      && p + |put(p, data)| == EndOf(p, data)
      && (put(p, data) <= file[p..] ==> Recovered(phys, |file|, p, data))
      && (file[p..] < put(p, data) ==> AllFrom(phys, |file|, p) == ([], []))
  }

  ghost predicate Recovers(phys: Reading, file: Bytes, put: Placing)
    requires Advances(phys, |file|)
  {
    forall p: nat, data :: RecoversAt(phys, file, put, p, data)
  }

  lemma ReaderRecovers(crc: Crc, file: Bytes)
    ensures Recovers(ReadingOf(crc, file), file, Placed(crc))
  {
    ReaderDecodes(crc, file);
    FramedSized(crc);
    forall p: nat, data ensures RecoversAt(ReadingOf(crc, file), file, Placed(crc), p, data) {
      if p <= |file| {
        OneRecord(ReadingOf(crc, file), file, Framed(crc), p, data);
      }
    }
  }

  lemma OneRecord(phys: Reading, file: Bytes, first: Framing, p: nat, data: Bytes)
    requires Advances(phys, |file|) && Decodes(phys, file, first) && Sized(first) && p <= |file|
    ensures var w := Written(first, p % BLOCK_SIZE, data, true);
      && p + |w| == EndOf(p, data)
      && (w <= file[p..] ==> Recovered(phys, |file|, p, data))
      && (file[p..] < w ==> AllFrom(phys, |file|, p) == ([], []))
  {
    var off: Offset := p % BLOCK_SIZE;
    InBlock(p);
    LengthOfWritten(first, off, data, true);
    if Written(first, off, data, true) <= file[p..] {
      WholeRecord(phys, file, first, p, off, data, true);
      HeldIsRecovered(phys, |file|, p, data);
    }
    if file[p..] < Written(first, off, data, true) {
      TornRecord(phys, file, first, p, off, data, true);
      NoMore(phys, |file|, p, data);
    }
  }

  lemma {:induction false} ReadsFrom(phys: Reading, file: Bytes, put: Placing, p: nat, records: seq<Bytes>)
    requires Advances(phys, |file|) && Recovers(phys, file, put) && AllFrom(phys, |file|, |file|) == ([], [])
    requires p <= |file| && file[p..] <= LogFrom(put, p, records)
    ensures AllFrom(phys, |file|, p) == (records[..CompleteIn(p, records, |file|)], [])
    decreases |records|
  {
    if records == [] {
      assert p == |file|;
    } else {
      var data, rest := records[0], records[1..];
      var e := EndOf(p, data);
      assert RecoversAt(phys, file, put, p, data);
      Peel(file, p, put(p, data), LogFrom(put, e, rest));
      if e <= |file| {
        var k := CompleteIn(e, rest, |file|);
        assert [data] + rest[..k] == records[..k + 1];
        ReadsFrom(phys, file, put, e, rest);
        OneMore(phys, |file|, p, data, rest[..k]);
      } else {
        assert AllFrom(phys, |file|, p) == ([], []);
      }
    }
  }

  /** Any byte prefix of a log reads back as exactly its complete records, with
      nothing reported. */
  lemma LogReadsBack(crc: Crc, records: seq<Bytes>, file: Bytes)
    requires file <= Log(crc, records)
    ensures AllFrom(ReadingOf(crc, file), |file|, 0) == (records[..CompleteIn(0, records, |file|)], [])
  {
    assert file[0..] == file;
    ReaderRecovers(crc, file);
    NothingLeft(crc, file);
    ReadsFrom(ReadingOf(crc, file), file, Placed(crc), 0, records);
  }

  // The lengths records take.
  ghost predicate Lengths(put: Placing) {
    forall p: nat, data {:trigger put(p, data)} :: |put(p, data)| == WrittenLength(p % BLOCK_SIZE, |data|)
  }

  lemma PlacedLengths(crc: Crc)
    ensures Lengths(Placed(crc))
  {
    forall p: nat, data ensures |Placed(crc)(p, data)| == WrittenLength(p % BLOCK_SIZE, |data|) {
      FramedSized(crc);
      LengthOfWritten(Framed(crc), p % BLOCK_SIZE, data, true);
    }
  }

  /** A record counts as complete exactly when all its bytes are there. */
  lemma {:induction false} CompleteMeans(put: Placing, p: nat, records: seq<Bytes>, size: nat, k: nat)
    requires Lengths(put) && p <= size && k <= |records|
    ensures k <= CompleteIn(p, records, size) <==> p + |LogFrom(put, p, records[..k])| <= size
    decreases |records|
  {
    if k > 0 {
      var e := EndOf(p, records[0]);
      assert e == p + |put(p, records[0])|;
      assert records[..k][0] == records[0] && records[..k][1..] == records[1..][..k - 1];
      if e <= size {
        CompleteMeans(put, e, records[1..], size, k - 1);
      }
    }
  }

  /** In the whole file all of them are. */
  lemma AllComplete(crc: Crc, records: seq<Bytes>)
    ensures CompleteIn(0, records, |Log(crc, records)|) == |records|
  {
    PlacedLengths(crc);
    CompleteMeans(Placed(crc), 0, records, |Log(crc, records)|, |records|);
    assert records[..|records|] == records;
  }

  lemma {:induction false} LogOneMore(put: Placing, p: nat, records: seq<Bytes>, data: Bytes)
    ensures var before :=
      LogFrom(put, p, records); LogFrom(put, p, records + [data]) == before + put(p + |before|, data)
    decreases |records|
  {
    if records == [] {
      assert records + [data] == [data] && [data][1..] == [];
    } else {
      var w := put(p, records[0]);
      LogOneMore(put, p + |w|, records[1..], data);
      assert (records + [data])[1..] == records[1..] + [data];
    }
  }

  /** A full block and a block not yet begun are the same place. */
  lemma FullIsEmpty(crc: Crc, data: Bytes, begin: bool)
    ensures Written(Framed(crc), BLOCK_SIZE, data, begin) == Written(Framed(crc), 0, data, begin)
  {
    assert Framed(crc)(BLOCK_SIZE, data, begin) == Frame(crc, BLOCK_SIZE, data, begin);
    assert Framed(crc)(0, data, begin) == Frame(crc, 0, data, begin);
    assert Zeros(Pad(BLOCK_SIZE)) == Zeros(Pad(0)) == [];
  }

  lemma SameOffset(p: nat, off: Offset)
    requires (p - off) % BLOCK_SIZE == 0
    ensures p % BLOCK_SIZE == if off == BLOCK_SIZE then 0 else off
  {
    var k := (p - off) / BLOCK_SIZE;
    assert p == k * BLOCK_SIZE + off;
  }

  lemma PlaceOf(crc: Crc, p: nat, off: Offset, data: Bytes)
    requires (p - off) % BLOCK_SIZE == 0
    ensures Placed(crc)(p, data) == Written(Framed(crc), off, data, true)
  {
    SameOffset(p, off);
    FullIsEmpty(crc, data, true);
  }

  lemma PlacedNext(put: Placing, records: seq<Bytes>, data: Bytes, w: Bytes)
    requires put(|LogFrom(put, 0, records)|, data) == w
    ensures LogFrom(put, 0, records + [data]) == LogFrom(put, 0, records) + w
  {
    LogOneMore(put, 0, records, data);
  }

  /** Adding a record to the file of a log makes the longer log. */
  lemma LogExtends(crc: Crc, records: seq<Bytes>, log: Bytes, off: Offset, data: Bytes)
    requires log == Log(crc, records) && (|log| - off) % BLOCK_SIZE == 0
    ensures Log(crc, records + [data]) == log + Written(Framed(crc), off, data, true)
  {
    PlaceOf(crc, |log|, off, data);
    PlacedNext(Placed(crc), records, data, Written(Framed(crc), off, data, true));
  }

  lemma EveryLogExtends(crc: Crc, log: Bytes, off: Offset, data: Bytes)
    requires (|log| - off) % BLOCK_SIZE == 0
    ensures forall records ::
      log == Log(crc, records) ==> Log(crc, records + [data]) == log + Written(Framed(crc), off, data, true)
  {
    forall records | log == Log(crc, records)
      ensures Log(crc, records + [data]) == log + Written(Framed(crc), off, data, true) {
      LogExtends(crc, records, log, off, data);
    }
  }
}
