/** Ranks and values can be spelled in bytes, so that what is proved for every
    spelling is not proved for none. */
module Spellings {
  import opened Keys
  import Coding

  // A key spelled by its length.
  function Unary(u: UserKey): Coding.Bytes {
    seq(if u >= 0 then 2 * u else -2 * u - 1, _ => 0)
  }

  function FromUnary(b: Coding.Bytes): UserKey {
    if |b| % 2 == 0 then |b| / 2 else -((|b| + 1) / 2)
  }

  lemma UnaryBack(u: UserKey)
    ensures FromUnary(Unary(u)) == u
  {}

  // A value spelled in three bytes for each character.
  function Show(v: Keys.Bytes): Coding.Bytes {
    if v == [] then []
    else
      var c := v[0] as int;
      [c % 256, c / 256 % 256, c / 0x1_0000] + Show(v[1..])
  }

  function Read(b: Coding.Bytes): Keys.Bytes {
    if |b| < 3 then [] else [Character(Joined(b[0], b[1], b[2]))] + Read(b[3..])
  }

  function Joined(low: int, middle: int, high: int): int {
    low + 256 * middle + 0x1_0000 * high
  }

  lemma Digits(c: nat)
    ensures Joined(c % 256, c / 256 % 256, c / 0x1_0000) == c
  {}

  // Not every number is a character.
  function Character(c: int): char {
    if 0 <= c < 0xD800 || 0xE000 <= c < 0x11_0000 then c as char else 'a'
  }

  lemma {:induction false} ShowBack(v: Keys.Bytes)
    ensures Read(Show(v)) == v
  {
    if v != [] {
      ShowBack(v[1..]);
      var c, rest := v[0] as int, Show(v[1..]);
      assert Show(v)[3..] == rest;
      Digits(c);
      assert v == [v[0]] + v[1..];
    }
  }
}
