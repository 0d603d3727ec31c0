/** The bloom filter (util/bloom.cc). */
module Bloom {
  import opened Coding
  import opened Bits

  // ---- bits ----

  predicate BitAt(a: Bytes, pos: nat)
    requires pos < |a| * 8
  {
    Bit(a[pos / 8], pos % 8)
  }

  function SetByteBit(b: Byte, k: nat): (r: Byte)
    requires k < 8
    ensures forall j :: Bit(r, j) <==> (j == k || Bit(b, j))
  {
    assert Pow2(8) == 2 * (2 * (2 * (2 * (2 * (2 * (2 * 2))))));
    SetBit(b, k, 8)
  }

  function WithBit(a: Bytes, pos: nat): (r: Bytes)
    requires pos < |a| * 8
    ensures |r| == |a| && forall q: nat | q < |a| * 8 :: BitAt(r, q) <==> (q == pos || BitAt(a, q))
  {
    a[pos / 8 := SetByteBit(a[pos / 8], pos % 8)]
  }

  // ---- probing ----

  /** The policy: the hash of a key, the bits spent on each key, and the number
      of probes, which the constructor keeps between 1 and 30. */
  datatype Policy = Policy(hash: Bytes -> Uint32, bitsPerKey: nat, probes: nat)

  predicate Fit(p: Policy) {
    1 <= p.probes <= 30
  }

  // The hash rotated right by 17 bits.
  function Rotated(h: Uint32): Uint32 {
    h / 0x2_0000 + h % 0x2_0000 * 0x8000
  }

  // The hash value at probe j, by double hashing.
  function HashAt(h: Uint32, j: nat): Uint32 {
    if j == 0 then h else (HashAt(h, j - 1) + Rotated(h)) % 0x1_0000_0000
  }

  function Position(h: Uint32, j: nat, bits: nat): (pos: nat)
    requires bits > 0
    ensures pos < bits
  {
    HashAt(h, j) % bits
  }

  ghost predicate Probes(h: Uint32, k: nat, bits: nat, pos: nat)
    requires bits > 0
  {
    exists j: nat :: j < k && Position(h, j, bits) == pos
  }

  // How many bits a filter has.
  function FilterBits(f: Bytes): nat
    requires |f| >= 2
  {
    (|f| - 1) * 8
  }

  /** What a filter of these keys is: exactly the probed bits are set, and the
      last byte is the number of probes. */
  ghost predicate IsFilter(p: Policy, keys: seq<Bytes>, f: Bytes) {
    && |f| >= 9 && f[|f| - 1] == p.probes
    && forall pos: nat | pos < FilterBits(f) :: BitAt(f, pos) <==> ProbedBy(p, keys, FilterBits(f), pos)
  }

  ghost predicate ProbedBy(p: Policy, keys: seq<Bytes>, bits: nat, pos: nat)
    requires bits > 0
  {
    exists key :: key in keys && Probes(p.hash(key), p.probes, bits, pos)
  }

  // Some added key probes where probe j goes.
  ghost predicate Covered(p: Policy, keys: seq<Bytes>, bits: nat, h: Uint32, j: nat)
    requires bits > 0
  {
    ProbedBy(p, keys, bits, Position(h, j, bits))
  }

  /** What KeyMayMatch answers. */
  ghost predicate MayMatch(p: Policy, key: Bytes, f: Bytes) {
    |f| >= 2 && (f[|f| - 1] > 30 || forall j: nat | j < f[|f| - 1] :: Finds(p.hash(key), j, f))
  }

  ghost predicate Finds(h: Uint32, j: nat, f: Bytes)
    requires |f| >= 2
  {
    BitAt(f, Position(h, j, FilterBits(f)))
  }

  /** A key matches exactly when each of its probes is a probe of some key that
      was added. */
  lemma MatchesWhenProbed(p: Policy, keys: seq<Bytes>, f: Bytes, key: Bytes)
    requires Fit(p) && IsFilter(p, keys, f)
    ensures MayMatch(p, key, f) <==> forall j: nat | j < p.probes :: Covered(p, keys, FilterBits(f), p.hash(key), j)
  {
    var bits := FilterBits(f);
    forall j: nat | j < p.probes
      ensures Finds(p.hash(key), j, f) <==> Covered(p, keys, bits, p.hash(key), j)
    {}
  }

  /** No false negatives. */
  lemma NoFalseNegative(p: Policy, keys: seq<Bytes>, f: Bytes, key: Bytes)
    requires Fit(p) && IsFilter(p, keys, f) && key in keys
    ensures MayMatch(p, key, f)
  {
    MatchesWhenProbed(p, keys, f, key);
    forall j: nat | j < p.probes ensures Covered(p, keys, FilterBits(f), p.hash(key), j) {
      assert Probes(p.hash(key), p.probes, FilterBits(f), Position(p.hash(key), j, FilterBits(f)));
    }
  }

  /** b is a with the first j probes of h set. */
  ghost predicate Marked(a: Bytes, b: Bytes, h: Uint32, j: nat) {
    |a| == |b| > 0 && forall pos: nat | pos < |a| * 8 ::
      BitAt(b, pos) <==> (BitAt(a, pos) || Probes(h, j, |a| * 8, pos))
  }

  lemma MarkOne(a: Bytes, b: Bytes, h: Uint32, j: nat)
    requires Marked(a, b, h, j)
    ensures Marked(a, WithBit(b, Position(h, j, |b| * 8)), h, j + 1)
  {
    var pos := Position(h, j, |b| * 8);
    forall q: nat | q < |b| * 8 ensures Probes(h, j + 1, |b| * 8, q) <==> (Probes(h, j, |b| * 8, q) || q == pos) {}
  }

  method SetBitAt(a: array<Byte>, bitpos: nat)
    requires bitpos < a.Length * 8
    modifies a
    ensures a[..] == WithBit(old(a[..]), bitpos)
  {
    a[bitpos / 8] := SetByteBit(a[bitpos / 8], bitpos % 8);
  }

  method SetProbes(a: array<Byte>, h: Uint32, k: nat)
    requires a.Length > 0
    modifies a
    ensures Marked(old(a[..]), a[..], h, k)
  {
    var bits := a.Length * 8;
    var x := h;
    var delta := Rotated(h);
    for j := 0 to k
      invariant x == HashAt(h, j) && Marked(old(a[..]), a[..], h, j)
    {
      var bitpos := x % bits;
      ghost var before := a[..];
      SetBitAt(a, bitpos);
      MarkOne(old(a[..]), before, h, j);
      x := (x + delta) % 0x1_0000_0000;
    }
  }

  /** Appends a filter of the keys to dst. */
  method CreateFilter(p: Policy, keys: seq<Bytes>, dst: Bytes) returns (r: Bytes)
    requires Fit(p)
    ensures dst <= r && IsFilter(p, keys, r[|dst|..])
    ensures |r| - |dst| == (if |keys| * p.bitsPerKey < 64 then 9 else (|keys| * p.bitsPerKey + 7) / 8 + 1)
  {
    var bits := |keys| * p.bitsPerKey;
    if bits < 64 {
      bits := 64;
    }
    var bytes := (bits + 7) / 8;
    var a := new Byte[bytes](_ => 0);
    ZeroBits();
    for i := 0 to |keys|
      invariant forall pos: nat | pos < bytes * 8 :: BitAt(a[..], pos) <==> ProbedBy(p, keys[..i], bytes * 8, pos)
    {
      SetProbes(a, p.hash(keys[i]), p.probes);
      assert keys[..i + 1] == keys[..i] + [keys[i]];
    }
    assert keys[..|keys|] == keys;
    r := dst + a[..] + [p.probes];
    SameBits(a[..], r[|dst|..]);
  }

  lemma SameBits(a: Bytes, f: Bytes)
    requires a <= f
    ensures forall pos: nat | pos < |a| * 8 :: BitAt(f, pos) == BitAt(a, pos)
  {}

  method KeyMayMatch(p: Policy, key: Bytes, f: Bytes) returns (r: bool)
    ensures r <==> MayMatch(p, key, f)
  {
    if |f| < 2 {
      return false;
    }
    var bits := (|f| - 1) * 8;
    var k := f[|f| - 1];
    if k > 30 {
      return true;
    }
    var h := p.hash(key);
    var delta := Rotated(h);
    for j := 0 to k
      invariant h == HashAt(p.hash(key), j) && forall i: nat | i < j :: Finds(p.hash(key), i, f)
    {
      var bitpos := h % bits;
      assert bitpos == Position(p.hash(key), j, bits);
      if !BitAt(f, bitpos) {
        assert !Finds(p.hash(key), j, f);
        return false;
      }
      h := (h + delta) % 0x1_0000_0000;
    }
    return true;
  }
}
