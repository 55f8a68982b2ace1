// Division facts for the two block sizes that addresses and words are cut into.
module Remainders {
  lemma Rem256(x: int, q: int, r: int)
    requires x == 0x100 * q + r && 0 <= r < 0x100
    ensures x % 0x100 == r && x / 0x100 == q
  {
  }

  lemma Rem64K(x: int, q: int, r: int)
    requires x == 0x10000 * q + r && 0 <= r < 0x10000
    ensures x % 0x10000 == r && x / 0x10000 == q
  {
  }

  // Clearing bit 0 clears it in the remainder.
  lemma Even256(x: nat)
    ensures (x - x % 2) % 0x100 == x % 0x100 - x % 2
    ensures x % 0x100 - x % 2 + 1 < 0x100
  {
    var q, r := x / 0x100, x % 0x100;
    var k := r / 2;
    assert x == 2 * (0x80 * q + k) + r % 2;
    assert x % 2 == r % 2;
    Rem256(x - x % 2, q, r - r % 2);
  }

  lemma Even64K(x: nat)
    ensures (x - x % 2) % 0x10000 == x % 0x10000 - x % 2
    ensures x % 0x10000 - x % 2 + 1 < 0x10000
  {
    var q, r := x / 0x10000, x % 0x10000;
    var k := r / 2;
    assert x == 2 * (0x8000 * q + k) + r % 2;
    assert x % 2 == r % 2;
    Rem64K(x - x % 2, q, r - r % 2);
  }
}
