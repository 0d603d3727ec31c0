/** Single bits of a number. */
module Bits {
  function Pow2(k: nat): nat {
    if k == 0 then 1 else 2 * Pow2(k - 1)
  }

  // (b & (1 << k)) != 0
  predicate Bit(b: nat, k: nat) {
    if k == 0 then b % 2 == 1 else Bit(b / 2, k - 1)
  }

  // b | (1 << k), for a number of `width` bits
  function SetBit(b: nat, k: nat, width: nat): (r: nat)
    requires k < width && b < Pow2(width)
    ensures r < Pow2(width) && forall j :: Bit(r, j) <==> (j == k || Bit(b, j))
    decreases k
  {
    if k == 0 then (if b % 2 == 1 then b else b + 1) else
      var r := 2 * SetBit(b / 2, k - 1, width - 1) + b % 2;
      assert r / 2 == SetBit(b / 2, k - 1, width - 1);
      r
  }

  lemma ZeroBits()
    ensures forall k :: !Bit(0, k)
  {
    forall k ensures !Bit(0, k) {
      NoBit(k);
    }
  }

  lemma NoBit(k: nat)
    ensures !Bit(0, k)
  {}

  lemma {:induction false} NoBits(b: nat)
    requires forall k :: !Bit(b, k)
    ensures b == 0
  {
    if b > 0 {
      assert !Bit(b, 0);
      forall k: nat ensures !Bit(b / 2, k) {
        assert !Bit(b, k + 1);
      }
      NoBits(b / 2);
    }
  }

  ghost predicate OnesTo(b: nat, n: nat) {
    forall k: nat | k < n :: Bit(b, k)
  }

  ghost predicate NoneFrom(b: nat, n: nat) {
    forall k: nat | k >= n :: !Bit(b, k)
  }

  lemma HalfBits(b: nat, n: nat)
    requires n > 0
    ensures OnesTo(b, n) <==> b % 2 == 1 && OnesTo(b / 2, n - 1)
    ensures NoneFrom(b, n) ==> NoneFrom(b / 2, n - 1)
  {
    forall k: nat ensures Bit(b / 2, k) == Bit(b, k + 1) {}
    assert Bit(b, 0) <==> b % 2 == 1;
    forall k: nat | 0 < k < n ensures Bit(b, k) == Bit(b / 2, k - 1) {}
  }

  /** A number with no bits from n up is all ones exactly when each bit below n
      is set. */
  lemma {:induction false} AllOnes(b: nat, n: nat)
    requires NoneFrom(b, n)
    ensures b == Pow2(n) - 1 <==> OnesTo(b, n)
    decreases n
  {
    if n == 0 {
      NoBits(b);
    } else {
      HalfBits(b, n);
      AllOnes(b / 2, n - 1);
      assert Pow2(n) - 1 == 2 * (Pow2(n - 1) - 1) + 1;
    }
  }
}
