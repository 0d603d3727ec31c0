/** What number formats look like, digit by digit. */
module WireLaws {
  import opened Coding

  lemma Multiple(d: nat, e: nat)
    requires e >= 1
    ensures d * e >= d
  {}

  lemma Quotient(x: nat, d: nat, q: nat, r: nat)
    requires d > 0 && x == d * q + r && r < d
    ensures x / d == q
  {
    var p: nat := x / d;
    assert x == d * p + x % d;
    if p > q {
      Multiple(d, p - q);
    } else if p < q {
      Multiple(d, q - p);
    }
  }

  lemma Nested(a: nat, b: nat, p: nat, s: nat)
    requires s < b
    ensures a * (b * p + s) == (a * b) * p + a * s && a * s + a <= a * b
  {
    Shrinks(a, s, b);
    assert a * (b * p) == (a * b) * p;
  }

  lemma Shrinks(a: nat, s: nat, b: nat)
    requires s < b
    ensures a * s + a <= a * b
  {
    assert a * b == a * s + a * (b - s);
    Multiple(a, b - s);
  }

  /** The quotient of a quotient. */
  lemma DivideTwice(x: nat, a: nat, b: nat)
    requires a > 0 && b > 0
    ensures a * b > 0 && x / (a * b) == x / a / b
  {
    var q, r := x / a, x % a;
    var p, s := q / b, q % b;
    Nested(a, b, p, s);
    Multiple(a, b);
    assert x == a * q + r && q == b * p + s;
    Quotient(x, a * b, p, a * s + r);
  }

  // ---- base 128 ----

  /** Every byte but the last has its high bit set. */
  predicate IsVarint(b: Bytes) {
    b != [] && b[|b| - 1] < 128 && forall j | 0 <= j < |b| - 1 :: b[j] >= 128
  }

  lemma {:induction false} Power128Positive(n: nat)
    ensures Power128(n) >= 1
  {
    if n > 0 {
      Power128Positive(n - 1);
    }
  }

  /** The bytes are the number's digits to the base 128, least significant first, and
      no more of them than the number has. */
  lemma {:induction false} VarintDigits(x: nat, j: nat)
    ensures var b := EncodeVarint(x);
      && IsVarint(b) && x < Power128(|b|) && (|b| > 1 ==> x >= Power128(|b| - 1))
      && (j < |b| ==> Power128(j) > 0 && b[j] % 128 == x / Power128(j) % 128)
    decreases x
  {
    Power128Positive(j);
    if x >= 128 {
      var b, rest := EncodeVarint(x), EncodeVarint(x / 128);
      VarintDigits(x / 128, if j > 0 then j - 1 else 0);
      assert b == [x % 128 + 128] + rest;
      LongerVarint(b, rest);
      assert Power128(|b|) == 128 * Power128(|rest|) && Power128(|b| - 1) == Power128(|rest|);
      if |rest| > 1 {
        assert Power128(|rest|) == 128 * Power128(|rest| - 1);
      }
      if 0 < j < |b| {
        Power128Positive(j - 1);
        DivideTwice(x, 128, Power128(j - 1));
        assert b[j] == rest[j - 1];
      }
    }
  }

  lemma LongerVarint(b: Bytes, rest: Bytes)
    requires |b| == |rest| + 1 && b[0] >= 128 && b[1..] == rest && IsVarint(rest)
    ensures IsVarint(b)
  {
    forall j | 0 <= j < |b| - 1 ensures b[j] >= 128 {
      assert j > 0 ==> b[j] == rest[j - 1];
    }
    assert b[|b| - 1] == rest[|rest| - 1];
  }

  // ---- base 256 ----

  lemma {:induction false} Power256Positive(n: nat)
    ensures Power256(n) >= 1
  {
    if n > 0 {
      Power256Positive(n - 1);
    }
  }

  /** Fixed-width numbers have their digits to the base 256, least significant first. */
  lemma {:induction false} FixedDigits(x: nat, n: nat, j: nat)
    requires j < n
    ensures Power256(j) > 0 && LittleEndian(x, n)[j] == x / Power256(j) % 256
    decreases n
  {
    Power256Positive(j);
    if j > 0 {
      FixedDigits(x / 256, n - 1, j - 1);
      DivideTwice(x, 256, Power256(j - 1));
    }
  }

  lemma Fixed32Digits(x: Uint32)
    ensures EncodeFixed32(x) == LittleEndian(x, 4)
  {
    DivideTwice(x, 0x100, 0x100);
    DivideTwice(x, 0x1_0000, 0x100);
    var d3 := LittleEndian(x / 0x100_0000, 1);
    var d2 := LittleEndian(x / 0x1_0000, 2);
    var d1 := LittleEndian(x / 0x100, 3);
    assert d3 == [x / 0x100_0000 % 256] + LittleEndian(x / 0x100_0000 / 256, 0);
    assert d2 == [x / 0x1_0000 % 256] + d3 && d1 == [x / 0x100 % 256] + d2;
    assert LittleEndian(x, 4) == [x % 256] + d1;
  }
}
