/** log::Writer and log::Reader (db/log_writer.cc, db/log_reader.cc), and what a
    reader gets back from a log, whole or cut short. */
module Logs {
  import opened Options
  import opened Coding
  import opened LogFormat
  import opened LogProofs

  class Writer {
    const crc: Crc
    var dest: Bytes
    var blockOffset: Offset

    predicate Valid()
      reads this
    {
      (|dest| - blockOffset) % BLOCK_SIZE == 0
    }

    // Appends to a file that may already hold a log.
    constructor (crc: Crc, dest: Bytes)
      ensures Valid() && this.crc == crc && this.dest == dest
    {
      this.crc, this.dest, blockOffset := crc, dest, |dest| % BLOCK_SIZE;
    }

    method EmitPhysicalRecord(kind: Byte, payload: Bytes)
      requires Valid() && blockOffset + HEADER_SIZE + |payload| <= BLOCK_SIZE
      modifies this
      ensures Valid() && dest == old(dest) + Encoded(crc, kind, payload)
      ensures blockOffset == old(blockOffset) + HEADER_SIZE + |payload|
    {
      var sum := Mask(crc([kind] + payload));
      dest := dest + (EncodeFixed32(sum) + [|payload| % 256, |payload| / 256, kind]);
      dest := dest + payload;
      blockOffset := blockOffset + HEADER_SIZE + |payload|;
    }

    /** Moves to a new block when not even a header fits. */
    method SwitchBlock()
      requires Valid()
      modifies this
      ensures Valid() && dest == old(dest) + Zeros(Pad(old(blockOffset))) && blockOffset == Start(old(blockOffset))
    {
      var leftover := BLOCK_SIZE - blockOffset;
      if leftover < HEADER_SIZE {
        if leftover > 0 {
          dest := dest + Zeros(leftover);
        }
        blockOffset := 0;
      }
    }

    method AddFragment(left: Bytes, begin: bool) returns (n: nat)
      requires Valid()
      modifies this
      ensures Valid() && n == FragmentLength(old(blockOffset), |left|)
      ensures blockOffset == Start(old(blockOffset)) + HEADER_SIZE + n
      ensures dest == old(dest) + Frame(crc, old(blockOffset), left, begin)
    {
      SwitchBlock();
      var avail := BLOCK_SIZE - blockOffset - HEADER_SIZE;
      n := if |left| < avail then |left| else avail;
      var end := |left| == n;
      EmitPhysicalRecord(FragmentKind(begin, end), left[..n]);
    }

    method AddRecord(data: Bytes)
      requires Valid()
      modifies this
      ensures Valid() && dest == old(dest) + Written(Framed(crc), old(blockOffset), data, true)
      ensures forall records :: old(dest) == Log(crc, records) ==> dest == Log(crc, records + [data])
    {
      var left, begin := data, true;
      var going := true;
      ghost var first := Framed(crc);
      ghost var out, rest: Bytes := [], Written(first, blockOffset, data, true);
      ghost var all := rest;
      while going
        invariant Valid() && dest == old(dest) + out && all == out + rest
        invariant rest == if going then Written(first, blockOffset, left, begin) else []
        decreases |rest|
      {
        ghost var part := Frame(crc, blockOffset, left, begin);
        assert first(blockOffset, left, begin) == part;
        var n := AddFragment(left, begin);
        left := left[n..];
        ghost var after := if left == [] then [] else Written(first, blockOffset, left, false);
        assert rest == part + after && |part| > 0;
        Gather(out, part, after);
        Gather(old(dest), out, part);
        out, rest := out + part, after;
        begin := false;
        going := left != [];
      }
      EveryLogExtends(crc, old(dest), old(blockOffset), data);
    }
  }

  lemma Gather<T>(a: seq<T>, b: seq<T>, c: seq<T>)
    ensures a + (b + c) == (a + b) + c
  {}

  class Reader {
    const crc: Crc
    const file: Bytes
    // Everything before filePos has been read; buffer is its unparsed end.
    var filePos: nat
    var buffer: Bytes
    var eof: bool
    var lastRecordOffset: nat
    // What the reporter was told.
    var reports: seq<nat>

    ghost predicate Valid()
      reads `filePos, `buffer, `eof
    {
      && |buffer| <= filePos <= |file| && buffer == file[filePos - |buffer|..filePos]
      && if eof then filePos == |file| && |buffer| <= filePos % BLOCK_SIZE
         else filePos % BLOCK_SIZE == 0 && |buffer| <= BLOCK_SIZE
    }

    ghost function Pos(): nat
      requires Valid()
      reads `filePos, `buffer, `eof
    {
      filePos - |buffer|
    }

    constructor (crc: Crc, file: Bytes)
      ensures Valid() && Pos() == 0 && reports == [] && this.crc == crc && this.file == file
    {
      this.crc, this.file, filePos, buffer, eof, lastRecordOffset, reports := crc, file, 0, [], false, 0, [];
    }

    // Reads the next block, or what is left of the file.
    method Fill()
      requires Valid() && !eof && |buffer| < HEADER_SIZE
      modifies this
      ensures Valid() && filePos >= old(filePos) && Pos() == old(filePos)
      ensures eof || |buffer| == BLOCK_SIZE
      ensures reports == old(reports) && lastRecordOffset == old(lastRecordOffset)
    {
      var n := Min(BLOCK_SIZE, |file| - filePos);
      buffer := file[filePos..filePos + n];
      filePos := filePos + n;
      if |buffer| < BLOCK_SIZE {
        eof := true;
      }
    }

    /** Takes one physical record off the buffer. */
    method ParseBuffer() returns (code: Byte, fragment: Bytes)
      requires Valid() && |buffer| >= HEADER_SIZE
      modifies this`buffer, this`reports
      ensures var r := ParseBlock(crc, old(buffer), eof);
        code == r.code && fragment == r.payload && Valid() && Pos() == old(Pos()) + r.used
          && reports == old(reports) + r.reports
    {
      var length := buffer[4] + (buffer[5] as int) * 256;
      var kind := buffer[6];
      if HEADER_SIZE + length > |buffer| {
        var dropSize := |buffer|;
        buffer := [];
        if !eof {
          reports := reports + [dropSize];
          return BAD_RECORD, [];
        }
        return END_OF_FILE, [];
      }
      if kind == ZERO_TYPE && length == 0 {
        buffer := [];
        return BAD_RECORD, [];
      }
      var expected := Unmask(DecodeFixed32(buffer));
      var actual := crc(buffer[6..HEADER_SIZE + length]);
      if actual != expected {
        var dropSize := |buffer|;
        buffer := [];
        reports := reports + [dropSize];
        return BAD_RECORD, [];
      }
      fragment := buffer[HEADER_SIZE..HEADER_SIZE + length];
      buffer := buffer[HEADER_SIZE + length..];
      return kind, fragment;
    }

    lemma TrailerEndsBlock()
      requires Valid() && !eof && |buffer| < HEADER_SIZE
      ensures Align(Pos()) == filePos == Align(filePos)
    {}

    lemma BlockInBuffer(p: nat)
      requires Valid() && |buffer| >= HEADER_SIZE && p <= |file| && Align(p) == Align(Pos())
      ensures var r := ParseBlock(crc, buffer, eof);
        ReadingOf(crc, file)(p) == Physical(r.code, r.payload, Pos(), Pos() + r.used, r.reports)
    {
      assert Align(Pos()) == Pos();
      assert filePos == Min(BlockEnd(Pos()), |file|);
      assert buffer == RestOfBlock(file, Pos()) && (eof <==> |file| < BlockEnd(Pos()));
      assert ReadingOf(crc, file)(p) == PhysicalAt(crc, file, p);
    }

    lemma NoHeaderLeft(p: nat)
      requires Valid() && eof && |buffer| < HEADER_SIZE && p <= |file| && Align(p) == Align(Pos())
      ensures ReadingOf(crc, file)(p) == Physical(END_OF_FILE, [], Align(p), |file|, [])
    {
      assert ReadingOf(crc, file)(p) == PhysicalAt(crc, file, p);
    }

    method ReadPhysicalRecord() returns (code: Byte, fragment: Bytes)
      requires Valid()
      modifies this
      ensures Valid() && lastRecordOffset == old(lastRecordOffset)
      ensures var r := ReadingOf(crc, file)(old(Pos()));
        code == r.code && fragment == r.payload && Pos() == r.next && reports == old(reports) + r.reports
    {
      ghost var p := Pos();
      while |buffer| < HEADER_SIZE
        invariant Valid() && lastRecordOffset == old(lastRecordOffset) && reports == old(reports)
        invariant Align(Pos()) == Align(p)
        decreases !eof, |file| - filePos
      {
        if !eof {
          TrailerEndsBlock();
          Fill();
        } else {
          NoHeaderLeft(p);
          buffer := [];
          return END_OF_FILE, [];
        }
      }
      BlockInBuffer(p);
      code, fragment := ParseBuffer();
    }

    /** The switch in ReadRecord; `finished` means it returns. */
    method Take(code: Byte, fragment: Bytes, inside: bool, scratch: Bytes, offset: nat, ghost at: nat)
      returns (finished: bool, record: Option<Bytes>, inside': bool, scratch': Bytes, offset': nat)
      requires Valid()
      requires code == FULL_TYPE || code == FIRST_TYPE ==> at == Pos() - HEADER_SIZE - |fragment|
      modifies this`reports, this`lastRecordOffset
      ensures var r := Took(code, fragment, at, Gathered(inside, scratch, offset));
        && finished == r.Done? && reports == old(reports) + r.reports
        && (finished ==> record == r.record && lastRecordOffset == if r.record.Some? then r.offset
          else old(lastRecordOffset))
        && (!finished ==> Gathered(inside', scratch', offset') == r.g && lastRecordOffset == old(lastRecordOffset))
    {
      finished, record, inside', scratch', offset' := false, None, inside, scratch, offset;
      if code == FULL_TYPE {
        if inside && scratch != [] {
          reports := reports + [|scratch|];
        }
        lastRecordOffset := filePos - |buffer| - HEADER_SIZE - |fragment|;
        finished, record := true, Some(fragment);
      } else if code == FIRST_TYPE {
        if inside && scratch != [] {
          reports := reports + [|scratch|];
        }
        offset' := filePos - |buffer| - HEADER_SIZE - |fragment|;
        inside', scratch' := true, fragment;
      } else if code == MIDDLE_TYPE {
        if !inside {
          reports := reports + [|fragment|];
        } else {
          scratch' := scratch + fragment;
        }
      } else if code == LAST_TYPE {
        if !inside {
          reports := reports + [|fragment|];
        } else {
          lastRecordOffset := offset;
          finished, record := true, Some(scratch + fragment);
        }
      } else if code == END_OF_FILE {
        finished := true;
      } else if code == BAD_RECORD {
        if inside {
          reports := reports + [|scratch|];
          inside', scratch' := false, [];
        }
      } else {
        reports := reports + [|fragment| + if inside then |scratch| else 0];
        inside', scratch' := false, [];
      }
    }

    method ReadRecord() returns (record: Option<Bytes>)
      requires Valid()
      modifies this
      ensures Valid()
      ensures var r := RecordFrom(ReadingOf(crc, file), |file|, old(Pos()), NOTHING);
        && record == r.record && Pos() == r.next && reports == old(reports) + r.reports
        && lastRecordOffset == if r.record.Some? then r.offset else old(lastRecordOffset)
    {
      var inside, scratch: Bytes, offset: nat := false, [], 0;
      ghost var phys, size := ReadingOf(crc, file), |file|;
      ghost var r := RecordFrom(phys, size, Pos(), NOTHING);
      ghost var told: seq<nat> := [];
      while true
        invariant Valid() && reports == old(reports) + told && lastRecordOffset == old(lastRecordOffset)
        invariant r == Reporting(told, RecordFrom(phys, size, Pos(), Gathered(inside, scratch, offset)))
        decreases size - Pos()
      {
        ghost var p, g := Pos(), Gathered(inside, scratch, offset);
        RecordStart(crc, file, p);
        ghost var ph := phys(p);
        ghost var took := Took(ph.code, ph.payload, ph.at, g);
        var code, fragment := ReadPhysicalRecord();
        var finished;
        finished, record, inside, scratch, offset := Take(code, fragment, inside, scratch, offset, ph.at);
        assert reports == old(reports) + (told + (ph.reports + took.reports)) by {
          Gather(old(reports), told, ph.reports);
          Gather(old(reports) + told, ph.reports, took.reports);
          Gather(old(reports), told, ph.reports + took.reports);
        }
        if finished {
          return;
        }
        told := MoreToTell(phys, size, p, g, told);
      }
    }

    /** The next of the records that are still to come. */
    method ReadNext(ghost rest: seq<Bytes>) returns (record: Option<Bytes>)
      requires Valid() && AllFrom(ReadingOf(crc, file), |file|, Pos()).0 == rest
      modifies this
      ensures Valid()
      ensures record == if rest == [] then None else Some(rest[0])
      ensures rest != [] ==> AllFrom(ReadingOf(crc, file), |file|, Pos()).0 == rest[1..]
    {
      ghost var all := AllFrom(ReadingOf(crc, file), |file|, Pos());
      record := ReadRecord();
      assert record.Some? ==> all.0 == [record.value] + AllFrom(ReadingOf(crc, file), |file|, Pos()).0;
    }

    /** Every record up to the end of the file, as recovery reads a log or a
        manifest. */
    method ReadAll(ghost written: seq<Bytes>) returns (records: seq<Bytes>)
      requires Valid() && Pos() == 0 && file <= Log(crc, written)
      modifies this
      ensures records == written[..CompleteIn(0, written, |file|)]
      ensures reports == old(reports)
    {
      ghost var phys, size := ReadingOf(crc, file), |file|;
      ghost var all := AllFrom(phys, size, 0);
      LogReadsBack(crc, written, file);
      records := [];
      var more := true;
      while more
        invariant Valid()
        invariant if more then all.0 == records + AllFrom(phys, size, Pos()).0 else all.0 == records
        invariant if more then old(reports) + all.1 == reports + AllFrom(phys, size, Pos()).1
          else old(reports) + all.1 == reports
        decreases more, size - Pos()
      {
        ghost var before, told, p := records, reports, Pos();
        var record := ReadRecord();
        match record
        case None =>
          assert records + [] == records;
          more := false;
        case Some(data) =>
          records := records + [data];
          Gather(before, [data], AllFrom(phys, size, Pos()).0);
          Gather(told, RecordFrom(phys, size, p, NOTHING).reports, AllFrom(phys, size, Pos()).1);
      }
    }

    static lemma MoreToTell(phys: Reading, size: nat, p: nat, g: Gathered, told: seq<nat>) returns (told': seq<nat>)
      requires Advances(phys, size) && p <= size
      requires Took(phys(p).code, phys(p).payload, phys(p).at, g).More?
      ensures var took := Took(phys(p).code, phys(p).payload, phys(p).at, g);
        && told' == told + (phys(p).reports + took.reports)
        && Reporting(told, RecordFrom(phys, size, p, g))
          == Reporting(told', RecordFrom(phys, size, phys(p).next, took.g))
    {
      var took := Took(phys(p).code, phys(p).payload, phys(p).at, g);
      ReportingTwice(told, phys(p).reports + took.reports, RecordFrom(phys, size, phys(p).next, took.g));
      told' := told + (phys(p).reports + took.reports);
    }
  }
}
