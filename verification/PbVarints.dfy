/** Numbers, tags and lengths are read back (nanopb's pb_decode.c). */
module PbVarints {
  import opened Options
  import opened Coding
  import opened PbFormat
  import opened PbParse

  // ---- shifting and or-ing ----

  lemma {:induction false} ShiftSum(a: nat, b: nat, k: nat)
    ensures ShiftLeft(a + b, k) == ShiftLeft(a, k) + ShiftLeft(b, k)
  {
    if k > 0 {
      ShiftSum(a, b, k - 1);
    }
  }

  lemma {:induction false} ShiftTwice(a: nat, j: nat, k: nat)
    ensures ShiftLeft(ShiftLeft(a, j), k) == ShiftLeft(a, j + k)
  {
    if k > 0 {
      ShiftTwice(a, j, k - 1);
    }
  }

  lemma {:induction false} ShiftOrder(a: nat, b: nat, k: nat)
    ensures a <= b <==> ShiftLeft(a, k) <= ShiftLeft(b, k)
  {
    if k > 0 {
      ShiftOrder(a, b, k - 1);
    }
  }

  lemma Shift7(x: nat)
    ensures ShiftLeft(x, 7) == 128 * x
  {
    assert ShiftLeft(x, 2) == 2 * (2 * ShiftLeft(x, 0));
    assert ShiftLeft(x, 4) == 2 * (2 * ShiftLeft(x, 2));
    assert ShiftLeft(x, 6) == 2 * (2 * ShiftLeft(x, 4));
  }

  /** Bits above those of x do not meet them. */
  lemma {:induction false} OrApart(x: nat, y: nat, k: nat)
    requires x < ShiftLeft(1, k)
    ensures Or(x, ShiftLeft(y, k)) == x + ShiftLeft(y, k)
  {
    if k > 0 && x > 0 && ShiftLeft(y, k) > 0 {
      OrApart(x / 2, y, k - 1);
    }
  }

  // One more group of seven bits.
  lemma SevenMore(acc: nat, lo: nat, more: nat, k: nat)
    requires acc < ShiftLeft(1, k) && lo < 128
    ensures Or(acc, ShiftLeft(lo, k)) == acc + ShiftLeft(lo, k) < ShiftLeft(1, k + 7)
    ensures ShiftLeft(lo + 128 * more, k) == ShiftLeft(lo, k) + ShiftLeft(more, k + 7)
  {
    OrApart(acc, lo, k);
    ShiftOrder(lo + 1, 128, k);
    ShiftSum(lo, 1, k);
    Shift7(1);
    Shift7(more);
    ShiftTwice(1, 7, k);
    ShiftTwice(more, 7, k);
    ShiftSum(lo, 128 * more, k);
  }

  lemma {:induction false} Shift28(x: nat, k: nat)
    requires k == 28
    ensures ShiftLeft(x, k) == 0x1000_0000 * x
  {
    Shift7(x);
    ShiftTwice(x, 7, k - 21);
    Shift7(128 * x);
    ShiftTwice(x, 14, k - 21);
    Shift7(0x4000 * x);
    ShiftTwice(x, 21, k - 21);
    Shift7(0x20_0000 * x);
  }

  // ---- varints ----

  lemma {:induction false} ShiftGrows(x: nat, k: nat)
    ensures x <= ShiftLeft(x, k)
  {
    if k > 0 {
      ShiftGrows(x, k - 1);
    }
  }

  // Up to four groups leave room below 2^28.
  lemma FourGroups(n: nat)
    requires n <= 4
    ensures ShiftLeft(1, 7 * n) <= 0x1000_0000
  {
    var more := 28 - 7 * n;
    ShiftTwice(1, 7 * n, more);
    ShiftGrows(ShiftLeft(1, 7 * n), more);
    Shift28(1, 7 * n + more);
  }

  // ---- varints ----

  // One byte inside the first 32 bits.
  lemma {:induction false} OneByte(b: Bytes, bitpos: nat, result: nat, x: nat, next: nat)
    requires b != [] && bitpos < 32 && result < LIMIT32 && next == bitpos + 7
    requires x == Or(result, ShiftLeft(b[0] % 128, bitpos)) % LIMIT32
    ensures b[0] >= 128 ==> Longer32(b, bitpos, result) == Longer32(b[1..], next, x)
    ensures b[0] < 128 && !(next == 35 && b[0] / 16 % 8 != 0) ==> Longer32(b, bitpos, result) == Some(Rest(x, b[1..]))
    ensures b[0] < 128 && next == 35 && b[0] / 16 % 8 != 0 ==> Longer32(b, bitpos, result) == None
  {}

  lemma HighBits(byte: Byte)
    requires byte < 128
    ensures byte / 16 % 8 != 0 <==> byte >= 16
  {}

  lemma Below32(x: nat)
    requires x < 0x1_0000_0000
    ensures x % 0x1_0000_0000 == x
  {}

  lemma {:induction false} EarlyByte(b: Bytes, n: nat, acc: nat, x: nat)
    requires 1 <= n < 4 && acc < ShiftLeft(1, 7 * n) && acc < LIMIT32 && b != [] && b[0] < 128
    requires x == acc + ShiftLeft(b[0], 7 * n)
    ensures x < LIMIT32 && Longer32(b, 7 * n, acc) == Some(Rest(x, b[1..]))
  {
    SevenMore(acc, b[0], 0, 7 * n);
    FourGroups(n + 1);
    Below32(x);
    OneByte(b, 7 * n, acc, x, 7 * n + 7);
  }

  lemma {:induction false} FifthByte(b: Bytes, k: nat, acc: nat, x: nat)
    requires k == 28 && acc < ShiftLeft(1, k) && acc < LIMIT32 && b != [] && b[0] < 128
    requires x == acc + ShiftLeft(b[0], k)
    ensures Longer32(b, k, acc) == if x < LIMIT32 then Some(Rest(x, b[1..])) else None
  {
    SevenMore(acc, b[0], 0, k);
    HighBits(b[0]);
    Shift28(1, k);
    Shift28(b[0], k);
    if b[0] < 16 {
      Below32(x);
    }
    OneByte(b, k, acc, x % LIMIT32, k + 7);
  }

  lemma {:induction false} LastByte(b: Bytes, n: nat, acc: nat)
    requires 1 <= n <= 4 && acc < ShiftLeft(1, 7 * n) && acc < LIMIT32 && b != [] && b[0] < 128
    ensures var x := acc + ShiftLeft(b[0], 7 * n);
      Longer32(b, 7 * n, acc) == if x < LIMIT32 then Some(Rest(x, b[1..])) else None
  {
    var x := acc + ShiftLeft(b[0], 7 * n);
    if n < 4 {
      EarlyByte(b, n, acc, x);
    } else {
      FifthByte(b, 7 * n, acc, x);
    }
  }

  lemma {:induction false} MoreBytes(b: Bytes, n: nat, acc: nat)
    requires 1 <= n < 4 && acc < ShiftLeft(1, 7 * n) && acc < LIMIT32 && b != [] && b[0] >= 128
    ensures var x := acc + ShiftLeft(b[0] - 128, 7 * n);
      x < ShiftLeft(1, 7 * (n + 1)) && x < LIMIT32 && Longer32(b, 7 * n, acc) == Longer32(b[1..], 7 * (n + 1), x)
  {
    var x := acc + ShiftLeft(b[0] - 128, 7 * n);
    SevenMore(acc, b[0] - 128, 0, 7 * n);
    FourGroups(n + 1);
    Below32(x);
    assert b[0] % 128 == b[0] - 128;
    OneByte(b, 7 * n, acc, x, 7 * n + 7);
  }

  lemma {:induction false} Regroup(acc: nat, low: nat, high: nat, n: nat)
    requires acc < ShiftLeft(1, 7 * n) && low < 128
    ensures acc + ShiftLeft(low, 7 * n) + ShiftLeft(high, 7 * (n + 1)) == acc + ShiftLeft(low + 128 * high, 7 * n)
  {
    SevenMore(acc, low, high, 7 * n);
  }

  lemma {:induction false} Longer32Exact(b: Bytes, n: nat, acc: nat, v: Coding.Varint)
    requires 1 <= n <= 4 && acc < ShiftLeft(1, 7 * n) && acc < LIMIT32
    requires DecodeVarint(b, MAX_VARINT32 - n) == Some(v)
    ensures var x := acc + ShiftLeft(v.value, 7 * n);
      Longer32(b, 7 * n, acc) == if x < LIMIT32 then Some(Rest(x, b[v.used..])) else None
    decreases 4 - n
  {
    if b[0] < 128 {
      LastByte(b, n, acc);
    } else {
      var w := DecodeVarint(b[1..], MAX_VARINT32 - n - 1).value;
      MoreBytes(b, n, acc);
      var x := acc + ShiftLeft(b[0] - 128, 7 * n);
      Longer32Exact(b[1..], n + 1, x, w);
      Regroup(acc, b[0] - 128, w.value, n);
      assert b[1..][w.used..] == b[v.used..];
    }
  }

  /** Up to five bytes a varint is read exactly, or refused when it does not fit in
      32 bits. */
  lemma Varint32Exact(b: Bytes, v: Coding.Varint)
    requires DecodeVarint(b, MAX_VARINT32) == Some(v)
    ensures Varint32(b) == if v.value < LIMIT32 then Some(Rest(v.value, b[v.used..])) else None
  {
    if b[0] >= 128 {
      var w := DecodeVarint(b[1..], MAX_VARINT32 - 1).value;
      Shift7(1);
      Shift7(w.value);
      Longer32Exact(b[1..], 1, b[0] - 128, w);
      assert b[1..][w.used..] == b[v.used..];
    }
  }

  lemma Varint32Back(x: nat, tail: Bytes)
    requires x < LIMIT32
    ensures Varint32(EncodeVarint(x) + tail) == Some(Rest(x, tail))
  {
    Power128At5();
    VarintRoundTrip(x, tail, MAX_VARINT32);
    Varint32Exact(EncodeVarint(x) + tail, Coding.Varint(x, |EncodeVarint(x)|));
    After(EncodeVarint(x), tail);
  }

  lemma After(a: Bytes, b: Bytes)
    ensures (a + b)[|a|..] == b && (a + b)[..|a|] == a
  {}

  // ---- tags, lengths and skipping ----

  lemma TagBack(tag: nat, wireType: nat, tail: Bytes)
    requires wireType < 8 && 0 < Key(tag, wireType) < LIMIT32
    ensures ReadTag(EncodeVarint(Key(tag, wireType)) + tail) == Tag(tag, wireType, tail)
  {
    Varint32Back(Key(tag, wireType), tail);
  }

  lemma DelimitedBack(c: Bytes, tail: Bytes)
    requires |c| < LIMIT32
    ensures Delimited(Prefixed(c) + tail) == Some(Rest(c, tail))
  {
    Varint32Back(|c|, c + tail);
    Reassociate(EncodeVarint(|c|), c, tail);
    After(c, tail);
  }

  /** What is read does not depend on what follows. */
  lemma {:induction false} Longer32Extends(b: Bytes, bitpos: nat, result: nat, tail: Bytes)
    requires result < LIMIT32 && Longer32(b, bitpos, result).Some?
    ensures var r := Longer32(b, bitpos, result).value;
      Longer32(b + tail, bitpos, result) == Some(Rest(r.value, r.rest + tail))
    decreases |b|
  {
    FirstAndRest(b, tail);
    if b[0] >= 128 {
      var x := if bitpos >= 32 then result else Or(result, ShiftLeft(b[0] % 128, bitpos)) % LIMIT32;
      Longer32Extends(b[1..], (bitpos + 7) % 256, x, tail);
    }
  }

  lemma FirstAndRest(b: Bytes, tail: Bytes)
    requires b != []
    ensures (b + tail)[0] == b[0] && (b + tail)[1..] == b[1..] + tail
  {}

  lemma Varint32Extends(b: Bytes, tail: Bytes)
    requires Varint32(b).Some?
    ensures Varint32(b + tail) == Some(Rest(Varint32(b).value.value, Varint32(b).value.rest + tail))
  {
    FirstAndRest(b, tail);
    if b[0] >= 128 {
      Longer32Extends(b[1..], 7, b[0] - 128, tail);
    }
  }

  lemma DelimitedExtends(b: Bytes, tail: Bytes)
    requires Delimited(b).Some?
    ensures Delimited(b + tail) == Some(Rest(Delimited(b).value.value, Delimited(b).value.rest + tail))
  {
    Varint32Extends(b, tail);
    var n := Varint32(b).value;
    assert (n.rest + tail)[..n.value] == n.rest[..n.value] && (n.rest + tail)[n.value..] == n.rest[n.value..] + tail;
  }

  lemma {:induction false} SkipVarintExtends(b: Bytes, tail: Bytes)
    requires SkipVarint(b).Some?
    ensures SkipVarint(b + tail) == Some(SkipVarint(b).value + tail)
  {
    FirstAndRest(b, tail);
    if b[0] >= 128 {
      SkipVarintExtends(b[1..], tail);
    }
  }

  lemma SkipExtends(wireType: nat, b: Bytes, tail: Bytes)
    requires Skip(wireType, b).Some?
    ensures Skip(wireType, b + tail) == Some(Skip(wireType, b).value + tail)
  {
    match wireType
    case 0 => SkipVarintExtends(b, tail);
    case 1 => assert (b + tail)[8..] == b[8..] + tail;
    case 2 => DelimitedExtends(b, tail);
    case 5 => assert (b + tail)[4..] == b[4..] + tail;
    case _ =>
  }
}
