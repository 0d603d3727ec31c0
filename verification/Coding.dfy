/** Bytes and integer encodings (util/coding.h, util/coding.cc). */
module Coding {
  import opened Options

  type Byte = b: int | 0 <= b < 256
  type Bytes = seq<Byte>
  type Uint32 = x: int | 0 <= x < 0x1_0000_0000
  // ---- fixed width ----

  function EncodeFixed32(x: Uint32): (r: Bytes)
    ensures |r| == 4
  {
    [x % 256, x / 0x100 % 256, x / 0x1_0000 % 256, x / 0x100_0000]
  }

  function DecodeFixed32(b: Bytes): Uint32
    requires |b| >= 4
  {
    b[0] + (b[1] as int) * 0x100 + (b[2] as int) * 0x1_0000 + (b[3] as int) * 0x100_0000
  }

  lemma DecodeEncodeFixed32(x: Uint32)
    ensures DecodeFixed32(EncodeFixed32(x)) == x
  {
    var y := x / 0x100;
    var z := y / 0x100;
    assert z == x / 0x1_0000 && z / 0x100 == x / 0x100_0000;
    assert x == x % 256 + 256 * y && y == y % 256 + 256 * z && z == z % 256 + 256 * (z / 0x100);
  }

  // Least significant byte first.
  function LittleEndian(x: nat, n: nat): (r: Bytes)
    ensures |r| == n
  {
    if n == 0 then [] else [x % 256] + LittleEndian(x / 256, n - 1)
  }

  function FromLittleEndian(b: Bytes): nat {
    if b == [] then 0 else b[0] + 256 * FromLittleEndian(b[1..])
  }

  function Power256(n: nat): nat {
    if n == 0 then 1 else 256 * Power256(n - 1)
  }

  lemma {:induction false} LittleEndianRoundTrip(x: nat, n: nat)
    requires x < Power256(n)
    ensures FromLittleEndian(LittleEndian(x, n)) == x
  {
    if n > 0 {
      LittleEndianRoundTrip(x / 256, n - 1);
      assert LittleEndian(x, n)[1..] == LittleEndian(x / 256, n - 1);
    }
  }

  function EncodeFixed64(x: nat): (r: Bytes)
    requires x < 0x1_0000_0000_0000_0000
    ensures |r| == 8
  {
    LittleEndian(x, 8)
  }

  function DecodeFixed64(b: Bytes): nat
    requires |b| == 8
  {
    FromLittleEndian(b)
  }

  lemma DecodeEncodeFixed64(x: nat)
    requires x < 0x1_0000_0000_0000_0000
    ensures DecodeFixed64(EncodeFixed64(x)) == x
  {
    assert Power256(2) == 256 * (256 * Power256(0)) && Power256(4) == 256 * (256 * Power256(2));
    assert Power256(6) == 256 * (256 * Power256(4)) && Power256(8) == 256 * (256 * Power256(6));
    LittleEndianRoundTrip(x, 8);
  }

  // ---- joining ----

  lemma Reassociate(a: Bytes, b: Bytes, c: Bytes)
    ensures a + (b + c) == a + b + c && |b + c| == |b| + |c|
  {}

  lemma NoneAfter(b: Bytes)
    ensures b + [] == b
  {}

  lemma NoneBefore(b: Bytes)
    ensures [] + b == b
  {}

  // ---- checksums (util/crc32c.h) ----

  // Nothing but its being a function of the bytes is used.
  type Crc = Bytes -> Uint32

  const MASK_DELTA: Uint32 := 0xa282ead8

  function Mask(crc: Uint32): Uint32 {
    (crc / 0x8000 + (crc % 0x8000) * 0x2_0000 + MASK_DELTA) % 0x1_0000_0000
  }

  function Unmask(masked: Uint32): Uint32 {
    var rot := (masked - MASK_DELTA) % 0x1_0000_0000;
    rot / 0x2_0000 + (rot % 0x2_0000) * 0x8000
  }

  lemma UnmaskMask(crc: Uint32)
    ensures Unmask(Mask(crc)) == crc
  {
    var high, low := crc / 0x8000, crc % 0x8000;
    var rot := high + low * 0x2_0000;
    assert (Mask(crc) - MASK_DELTA) % 0x1_0000_0000 == rot;
    assert rot / 0x2_0000 == low && rot % 0x2_0000 == high;
  }

  // ---- arrays of fixed-width numbers ----

  function FixedAll(xs: seq<Uint32>): (r: Bytes)
    ensures |r| == 4 * |xs|
  {
    if xs == [] then [] else FixedAll(xs[..|xs| - 1]) + EncodeFixed32(xs[|xs| - 1])
  }

  lemma {:induction false} FixedAt(xs: seq<Uint32>, j: nat)
    requires j < |xs|
    ensures FixedAll(xs)[4 * j..4 * j + 4] == EncodeFixed32(xs[j])
  {
    var n := |xs| - 1;
    if j < n {
      FixedAt(xs[..n], j);
      assert FixedAll(xs)[4 * j..4 * j + 4] == FixedAll(xs[..n])[4 * j..4 * j + 4];
    }
  }

  function Fixed32At(data: Bytes, p: nat): nat
    requires p + 4 <= |data|
  {
    DecodeFixed32(data[p..p + 4])
  }

  lemma Fixed32Reads(data: Bytes, p: nat, x: Uint32, e: Bytes)
    requires p + 4 <= |data| && e == EncodeFixed32(x) && data[p..p + 4] == e
    ensures Fixed32At(data, p) == x
  {
    DecodeEncodeFixed32(x);
  }

  lemma Slice(before: Bytes, mid: Bytes, data: Bytes, a: nat, b: nat)
    requires before + mid <= data && a <= b <= |mid|
    ensures |before| + b <= |data| && data[|before| + a..|before| + b] == mid[a..b]
  {
    assert data[|before| + a..|before| + b] == (before + mid)[|before| + a..|before| + b];
  }

  lemma Fixed32In(before: Bytes, all: Bytes, data: Bytes, j: nat, x: Uint32, e: Bytes)
    requires 4 * j + 4 <= |all| && all[4 * j..4 * j + 4] == e && before + all <= data && e == EncodeFixed32(x)
    ensures |before| + 4 * j + 4 <= |data| && Fixed32At(data, |before| + 4 * j) == x
  {
    Slice(before, all, data, 4 * j, 4 * j + 4);
    Fixed32Reads(data, |before| + 4 * j, x, e);
  }

  // ---- varints ----

  function EncodeVarint(x: nat): (r: Bytes)
    ensures 1 <= |r|
    decreases x
  {
    if x < 128 then [x] else [x % 128 + 128] + EncodeVarint(x / 128)
  }

  /** The value and the number of bytes read, at most `limit` of them. */
  datatype Varint = Varint(value: nat, used: nat)

  /** GetVarint32Ptr and GetVarint64Ptr, before the value is cut to its width. */
  function DecodeVarint(b: Bytes, limit: nat): (r: Option<Varint>)
    ensures r.Some? ==> 1 <= r.value.used <= |b| && r.value.used <= limit
    decreases |b|
  {
    if b == [] || limit == 0 then None
    else if b[0] < 128 then Some(Varint(b[0], 1))
    else match DecodeVarint(b[1..], limit - 1)
      case None => None
      case Some(v) => Some(Varint((b[0] - 128) + 128 * v.value, v.used + 1))
  }

  function Power128(n: nat): nat {
    if n == 0 then 1 else 128 * Power128(n - 1)
  }

  /** Whatever follows it, an encoded number decodes to itself, given enough
      bytes for its size. */
  lemma {:induction false} VarintRoundTrip(x: nat, tail: Bytes, limit: nat)
    requires 1 <= limit && x < Power128(limit)
    ensures |EncodeVarint(x)| <= limit
    ensures DecodeVarint(EncodeVarint(x) + tail, limit) == Some(Varint(x, |EncodeVarint(x)|))
    decreases limit
  {
    var e := EncodeVarint(x);
    if x >= 128 {
      VarintRoundTrip(x / 128, tail, limit - 1);
      assert (e + tail)[1..] == EncodeVarint(x / 128) + tail;
    }
  }

  /** Taking the first part off what stands at p. */
  lemma Peel(data: Bytes, p: nat, limit: nat, a: Bytes, b: Bytes)
    requires p <= limit <= |data| && a + b <= data[p..limit]
    ensures a <= data[p..limit] && p + |a| <= limit && b <= data[p + |a|..limit]
  {
    var d := data[p..limit];
    assert a == (a + b)[..|a|] == d[..|a|];
    assert b == (a + b)[|a|..] == d[|a|..|a| + |b|] == data[p + |a|..limit][..|b|];
  }

  // ---- parsing ----

  const LIMIT32: nat := 0x1_0000_0000
  const LIMIT64: nat := 0x1_0000_0000_0000_0000

  // The longest encodings of 32-bit and 64-bit numbers.
  const MAX_VARINT32: nat := 5
  const MAX_VARINT64: nat := 10

  lemma Power128At5()
    ensures Power128(5) >= LIMIT32
  {
    assert Power128(1) == 128 && Power128(2) == 128 * 128 && Power128(3) == 128 * 128 * 128;
    assert Power128(4) == 128 * Power128(3) && Power128(5) == 128 * Power128(4);
  }

  lemma Power128At10()
    ensures Power128(10) >= LIMIT64
  {
    assert Power128(2) == 128 * Power128(1) && Power128(4) == 128 * (128 * Power128(2));
    assert Power128(6) == 128 * (128 * Power128(4));
    assert Power128(8) == 128 * (128 * Power128(6));
    assert Power128(10) == 128 * (128 * Power128(8));
  }

  lemma Varint32Size(x: nat)
    requires x < LIMIT32
    ensures |EncodeVarint(x)| <= 5
  {
    Power128At5();
    VarintRoundTrip(x, [], MAX_VARINT32);
  }

  // What a parser found, and the input after it.
  datatype Rest<+T> = Rest(value: T, rest: Bytes)

  // GetVarint64
  function GetVarint64(b: Bytes): (r: Option<Rest<nat>>)
    ensures r.Some? ==> |r.value.rest| < |b|
  {
    match DecodeVarint(b, MAX_VARINT64)
    case None => None
    case Some(v) =>
      var x: nat := v.value % LIMIT64;
      Some(Rest(x, b[v.used..]))
  }

  function GetVarint32(b: Bytes): (r: Option<Rest<nat>>)
    ensures r.Some? ==> |r.value.rest| < |b|
  {
    match DecodeVarint(b, MAX_VARINT32)
    case None => None
    case Some(v) =>
      var x: nat := v.value % LIMIT32;
      Some(Rest(x, b[v.used..]))
  }

  // PutLengthPrefixedSlice
  function Prefixed(b: Bytes): Bytes {
    EncodeVarint(|b|) + b
  }

  function GetLengthPrefixedSlice(b: Bytes): (r: Option<Rest<Bytes>>)
    ensures r.Some? ==> |r.value.rest| < |b|
  {
    SliceWith(GetVarint32, b)
  }

  function SliceWith(read: Bytes -> Option<Rest<nat>>, b: Bytes): (r: Option<Rest<Bytes>>)
    ensures r.Some? ==> read(b).Some? && |r.value.rest| <= |read(b).value.rest|
  {
    match read(b)
    case None => None
    case Some(n) => if |n.rest| < n.value then None else Some(Rest(n.rest[..n.value], n.rest[n.value..]))
  }

  lemma Varint64RoundTrip(x: nat, tail: Bytes)
    requires x < LIMIT64
    ensures |EncodeVarint(x)| <= 10 && GetVarint64(EncodeVarint(x) + tail) == Some(Rest(x, tail))
  {
    Power128At10();
    VarintRoundTrip(x, tail, MAX_VARINT64);
    assert (EncodeVarint(x) + tail)[|EncodeVarint(x)|..] == tail;
  }

  lemma Varint32RoundTrip(x: nat, tail: Bytes)
    requires x < LIMIT32
    ensures GetVarint32(EncodeVarint(x) + tail) == Some(Rest(x, tail))
  {
    Power128At5();
    VarintRoundTrip(x, tail, MAX_VARINT32);
    assert (EncodeVarint(x) + tail)[|EncodeVarint(x)|..] == tail;
  }

  /** A length-prefixed string is read back, whatever follows it. */
  lemma SliceRoundTrip(s: Bytes, tail: Bytes)
    requires |s| < LIMIT32
    ensures GetLengthPrefixedSlice(Prefixed(s) + tail) == Some(Rest(s, tail))
  {
    Varint32RoundTrip(|s|, s + tail);
    SliceReads(GetVarint32, EncodeVarint(|s|), s, tail);
  }

  lemma SliceReads(read: Bytes -> Option<Rest<nat>>, n: Bytes, s: Bytes, tail: Bytes)
    requires read(n + (s + tail)) == Some(Rest(|s|, s + tail))
    ensures SliceWith(read, n + s + tail) == Some(Rest(s, tail))
  {
    assert n + s + tail == n + (s + tail);
    assert (s + tail)[..|s|] == s && (s + tail)[|s|..] == tail;
  }

  // ---- prefixes ----

  /** a and b agree in n bytes, and in no more. */
  predicate AgreeIn(a: Bytes, b: Bytes, n: nat) {
    n <= |a| && n <= |b| && a[..n] == b[..n] && (n < |a| && n < |b| ==> a[n] != b[n])
  }

  // In how many bytes they agree.
  function Agreement(a: Bytes, b: Bytes): (n: nat)
    ensures n <= |a| && n <= |b|
  {
    if a != [] && b != [] && a[0] == b[0] then 1 + Agreement(a[1..], b[1..]) else 0
  }

  lemma {:induction false} AgreementIs(a: Bytes, b: Bytes)
    ensures AgreeIn(a, b, Agreement(a, b))
  {
    if a != [] && b != [] && a[0] == b[0] {
      AgreementIs(a[1..], b[1..]);
      var m := Agreement(a[1..], b[1..]);
      assert a[..m + 1] == [a[0]] + a[1..][..m] && b[..m + 1] == [b[0]] + b[1..][..m];
    }
  }

  lemma AgreeAt(a: Bytes, b: Bytes, n: nat, i: nat)
    requires i < n <= |a| && n <= |b| && a[..n] == b[..n]
    ensures a[i] == b[i]
  {
    assert a[..n][i] == b[..n][i];
  }

  lemma AgreeOnce(a: Bytes, b: Bytes, m: nat, n: nat)
    requires AgreeIn(a, b, m) && AgreeIn(a, b, n)
    ensures m == n
  {
    if m < n {
      AgreeAt(a, b, n, m);
    } else if n < m {
      AgreeAt(a, b, m, n);
    }
  }

  /** How many leading bytes two strings share. */
  method Common(a: Bytes, b: Bytes) returns (n: nat)
    ensures AgreeIn(a, b, n)
  {
    n := 0;
    while n < |a| && n < |b| && a[n] == b[n]
      invariant n <= |a| && n <= |b| && a[..n] == b[..n]
    {
      n := n + 1;
    }
  }

  function Zeros(n: nat): (r: Bytes)
    ensures |r| == n
  {
    seq(n, _ => 0)
  }
}
