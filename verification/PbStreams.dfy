/** The decoder's input stream: bytes, varints, tags and substreams (nanopb's
    pb_decode.c). Each method does exactly what PbParse says of its input. */
module PbStreams {
  import opened Options
  import opened Coding
  import opened PbFormat
  import opened PbParse

  class IStream {
    const source: Bytes
    var state: nat
    var bytesLeft: nat

    ghost predicate Valid()
      reads this
    {
      state + bytesLeft <= |source|
    }

    /** What is left to read. */
    ghost function Rest(): (r: Bytes)
      requires Valid()
      reads this
    {
      Window(source, state, bytesLeft)
    }

    constructor (source: Bytes, state: nat, bytesLeft: nat)
      requires state + bytesLeft <= |source|
      ensures Valid() && this.source == source && this.state == state && this.bytesLeft == bytesLeft
    {
      this.source, this.state, this.bytesLeft := source, state, bytesLeft;
    }

    /** k bytes were read. */
    twostate predicate Consumed(k: nat)
      reads this
    {
      Valid() && bytesLeft + k == old(bytesLeft) && state == old(state) + k
    }

    /** Something was read, or nothing. */
    twostate predicate Moved()
      reads this
    {
      Valid() && bytesLeft <= old(bytesLeft) && state + bytesLeft == old(state) + old(bytesLeft)
    }

    /** Less is left, and nothing past what there was. */
    twostate predicate Shrunk()
      reads this
    {
      Valid() && bytesLeft <= old(bytesLeft) && state + bytesLeft <= old(state) + old(bytesLeft)
    }

    /** Reading has come to `rest`. */
    twostate predicate Left(rest: Bytes)
      reads this
    {
      Moved() && Rest() == rest
    }

    method Read(count: nat) returns (ok: bool, buf: Bytes)
      requires Valid()
      modifies this
      ensures ok <==> count <= |old(Rest())|
      ensures if ok then Left(old(Rest())[count..]) && buf == old(Rest())[..count] else Moved()
    {
      if bytesLeft < count {
        return false, [];
      }
      buf := source[state..state + count];
      WindowAfter(source, state, bytesLeft, count);
      state, bytesLeft := state + count, bytesLeft - count;
      ok := true;
    }

    method ReadByte() returns (ok: bool, byte: Byte)
      requires Valid()
      modifies this
      ensures ok <==> old(Rest()) != []
      ensures if ok then Consumed(1) && byte == old(Rest())[0] else Consumed(0)
      ensures ok ==> Left(old(Rest())[1..])
    {
      if bytesLeft == 0 {
        return false, 0;
      }
      byte := source[state];
      state, bytesLeft := state + 1, bytesLeft - 1;
      ok := true;
    }

    /** A varint of up to ten bytes, cut to 64 bits. */
    method ReadVarint() returns (ok: bool, value: nat)
      requires Valid()
      modifies this
      ensures Moved() && (ok <==> GetVarint64(old(Rest())).Some?)
      ensures ok ==> value == GetVarint64(old(Rest())).value.value && Left(GetVarint64(old(Rest())).value.rest)
    {
      ghost var state0, left0 := state, bytesLeft;
      var n := 0;
      value := 0;
      ghost var acc: nat, all := 0, DecodeVarint(Rest(), MAX_VARINT64);
      while true
        invariant n <= MAX_VARINT64 && Consumed(n) && value == acc % LIMIT64
        invariant Continues(all, Rest(), MAX_VARINT64 - n, n, acc)
        decreases MAX_VARINT64 - n
      {
        if n == MAX_VARINT64 {
          return false, 0;
        }
        var byte;
        ghost var acc';
        ok, byte, acc' := NextByte(MAX_VARINT64 - n, n, all, acc);
        if !ok {
          return false, 0;
        }
        value := OrIn64(value, byte % 128, n, acc);
        acc, n := acc', n + 1;
        if byte < 128 {
          WindowAfter(source, state0, left0, n);
          return true, value;
        }
      }
    }

    /** A varint for a 32-bit number; `eof` when the input was at its end. */
    method ReadVarint32() returns (ok: bool, value: nat, eof: bool)
      requires Valid()
      modifies this
      ensures Moved() && (eof <==> old(Rest()) == [])
      ensures ok <==> Varint32(old(Rest())).Some?
      ensures ok ==> value == Varint32(old(Rest())).value.value && Left(Varint32(old(Rest())).value.rest)
    {
      var byte;
      ok, byte := ReadByte();
      if !ok {
        return false, 0, true;
      }
      if byte < 128 {
        return true, byte, false;
      }
      value := byte % 128;
      eof := false;
      var bitpos: nat := 7;
      while true
        invariant Moved() && value < LIMIT32 && Varint32(old(Rest())) == Longer32(Rest(), bitpos, value)
        decreases bytesLeft
      {
        ok, byte := ReadByte();
        if !ok {
          return;
        }
        if bitpos >= 32 {
          var signExtension := if bitpos < 63 then 0xFF else 0x01;
          if byte % 128 != 0 && (value / TWO31 == 0 || byte != signExtension) {
            return false, value, false;
          }
        } else {
          value := Or(value, ShiftLeft(byte % 128, bitpos)) % LIMIT32;
        }
        bitpos := (bitpos + 7) % 256;
        if byte < 128 {
          return !(bitpos == 35 && byte / 16 % 8 != 0), value, false;
        }
      }
    }

    /** A field's number and wire type; a zero ends the message. */
    method DecodeTag() returns (ok: bool, wireType: nat, tag: nat, eof: bool)
      requires Valid()
      modifies this
      ensures Moved() && (ok <==> ReadTag(old(Rest())).Tag?) && (eof <==> ReadTag(old(Rest())).Ended?)
      ensures ok ==> ReadTag(old(Rest())) == Tag(tag, wireType, Rest())
      ensures eof ==> Left(ReadTag(old(Rest())).rest)
    {
      var temp;
      ok, temp, eof := ReadVarint32();
      if !ok {
        return false, 0, 0, eof;
      }
      if temp == 0 {
        return false, 0, 0, true;
      }
      return true, temp % 8, temp / 8, false;
    }

    method SkipVarint() returns (ok: bool)
      requires Valid()
      modifies this
      ensures Moved() && (ok <==> PbParse.SkipVarint(old(Rest())).Some?)
      ensures ok ==> Left(PbParse.SkipVarint(old(Rest())).value)
    {
      while true
        invariant Moved() && PbParse.SkipVarint(old(Rest())) == PbParse.SkipVarint(Rest())
        decreases bytesLeft
      {
        var byte;
        ok, byte := ReadByte();
        if !ok || byte < 128 {
          return;
        }
      }
    }

    /** Skips a field nobody knows. */
    method SkipField(wireType: nat) returns (ok: bool)
      requires Valid()
      modifies this
      ensures Moved() && (ok <==> Skip(wireType, old(Rest())).Some?)
      ensures ok ==> Left(Skip(wireType, old(Rest())).value)
    {
      var buf;
      match wireType
      case 0 => ok := SkipVarint();
      case 1 => ok, buf := Read(8);
      case 2 =>
        var length, eof;
        ok, length, eof := ReadVarint32();
        if ok {
          ok, buf := Read(length);
        }
      case 5 => ok, buf := Read(4);
      case _ => ok := false;
    }

    /** A stream over the length-prefixed bytes that come next; this stream's
        position catches up when the other is closed. */
    method MakeStringSubstream() returns (ok: bool, sub: IStream)
      requires Valid()
      modifies this
      ensures Shrunk() && (!ok ==> Moved()) && fresh(sub) && sub.Valid() && sub.source == source
      ensures ok <==> Delimited(old(Rest())).Some?
      ensures ok ==> sub.state + sub.bytesLeft + bytesLeft == old(state) + old(bytesLeft)
      ensures ok ==> sub.Rest() == Delimited(old(Rest())).value.value
      ensures ok ==> Window(source, sub.state + sub.bytesLeft, bytesLeft) == Delimited(old(Rest())).value.rest
    {
      var size, eof;
      sub := new IStream(source, 0, 0);
      ok, size, eof := ReadVarint32();
      if !ok {
        return;
      }
      if bytesLeft < size {
        return false, sub;
      }
      WindowAfter(source, state, bytesLeft, size);
      WindowBefore(source, state, bytesLeft, size);
      sub := new IStream(source, state, size);
      bytesLeft := bytesLeft - size;
    }

    method CloseStringSubstream(sub: IStream) returns (ok: bool)
      requires sub != this && sub.Valid() && sub.source == source && sub.state + sub.bytesLeft + bytesLeft <= |source|
      modifies this, sub
      ensures Valid() && ok && bytesLeft == old(bytesLeft) && state == old(sub.state + sub.bytesLeft)
    {
      var buf;
      ok := true;
      if sub.bytesLeft > 0 {
        ok, buf := sub.Read(sub.bytesLeft);
      }
      state := sub.state;
    }

    // One more byte of the varint `all`.
    method NextByte(ghost left: nat, ghost n: nat, ghost all: Option<Coding.Varint>, ghost acc: nat)
      returns (ok: bool, byte: Byte, ghost acc': nat)
      requires Valid() && left > 0 && Continues(all, Rest(), left, n, acc)
      modifies this
      ensures Valid() && (ok <==> old(bytesLeft) > 0) && (if ok then Consumed(1) else Consumed(0) && all == None)
      ensures ok ==> acc' == acc + Shifted(byte % 128, n)
      ensures ok && byte >= 128 ==> Continues(all, Rest(), left - 1, n + 1, acc')
      ensures ok && byte < 128 ==> all == Some(Coding.Varint(acc', n + 1))
    {
      ghost var here := Rest();
      ok, byte := ReadByte();
      acc' := acc + Shifted(byte % 128, n);
      if ok {
        ContinuesByte(all, here, left, n, acc);
      }
    }
  }

  // Or-ing in bits above those set so far, in 64 bits.
  method OrIn64(value: nat, bits: nat, n: nat, ghost acc: nat) returns (r: nat)
    requires value == acc % LIMIT64
    ensures r == (acc + Shifted(bits, n)) % LIMIT64
  {
    AddInside(acc, Shifted(bits, n));
    r := (value + Shifted(bits, n)) % LIMIT64;
  }

  function Window(source: Bytes, state: nat, count: nat): (r: Bytes)
    requires state + count <= |source|
    ensures |r| == count
  {
    seq(count, k requires 0 <= k < count => source[state + k])
  }

  lemma WindowAfter(source: Bytes, state: nat, count: nat, k: nat)
    requires state + count <= |source| && k <= count
    ensures Window(source, state + k, count - k) == Window(source, state, count)[k..]
    ensures source[state..state + k] == Window(source, state, count)[..k]
  {}

  lemma WindowBefore(source: Bytes, state: nat, count: nat, k: nat)
    requires state + count <= |source| && k <= count
    ensures Window(source, state, k) == Window(source, state, count)[..k]
  {}

  // x << 7n
  function Shifted(x: nat, n: nat): nat {
    if n == 0 then x else 128 * Shifted(x, n - 1)
  }

  /** Having read n continuing bytes worth acc, decoding goes on with the rest. */
  ghost predicate Continues(all: Option<Coding.Varint>, rest: Bytes, left: nat, n: nat, acc: nat) {
    all == Plus(acc, n, DecodeVarint(rest, left))
  }

  function Plus(acc: nat, n: nat, v: Option<Coding.Varint>): Option<Coding.Varint> {
    match v
    case None => None
    case Some(x) => Some(Coding.Varint(acc + Shifted(x.value, n), n + x.used))
  }

  lemma {:induction false} ContinuesByte(all: Option<Coding.Varint>, rest: Bytes, left: nat, n: nat, acc: nat)
    requires Continues(all, rest, left, n, acc) && left > 0 && rest != []
    ensures rest[0] >= 128 ==> Continues(all, rest[1..], left - 1, n + 1, acc + Shifted(rest[0] % 128, n))
    ensures rest[0] < 128 ==> all == Some(Coding.Varint(acc + Shifted(rest[0] % 128, n), n + 1))
  {
    if rest[0] >= 128 {
      OneMoreByte(acc, n, rest[0], DecodeVarint(rest[1..], left - 1));
    } else {
      assert DecodeVarint(rest, left) == Some(Coding.Varint(rest[0], 1));
    }
  }

  lemma {:induction false} OneMoreByte(acc: nat, n: nat, b: Byte, w: Option<Coding.Varint>)
    requires b >= 128
    ensures w.Some? ==>
      Plus(acc, n, Some(Coding.Varint(b - 128 + 128 * w.value.value, w.value.used + 1)))
      == Plus(acc + Shifted(b % 128, n), n + 1, w)
  {
    if w.Some? {
      ShiftSum(b - 128, w.value.value, n);
    }
  }

  lemma {:induction false} ShiftSum(b: nat, v: nat, n: nat)
    ensures Shifted(b + 128 * v, n) == Shifted(b, n) + Shifted(v, n + 1)
  {
    if n > 0 {
      ShiftSum(b, v, n - 1);
    }
  }

  lemma AddInside(a: nat, b: nat)
    ensures (a % 0x1_0000_0000_0000_0000 + b) % 0x1_0000_0000_0000_0000 == (a + b) % 0x1_0000_0000_0000_0000
  {}
}
