/** Bits of numbers, the lowest being bit 0. */
module Bits {

  function Power2(n: nat): (p: nat)
    ensures p > 0
  {
    if n == 0 then 1 else 2 * Power2(n - 1)
  }

  lemma SmallPowers()
    ensures Power2(1) == 2 && Power2(2) == 4 && Power2(4) == 16 && Power2(6) == 64 && Power2(8) == 256
  {
    assert Power2(3) == 8 && Power2(5) == 32 && Power2(7) == 128;
  }

  function Bit(n: nat, k: nat): (b: nat)
    ensures b < 2
  {
    if k == 0 then n % 2 else Bit(n / 2, k - 1)
  }

  /** Putting `y` of `m` bits below `x`. */
  lemma {:induction false} BitJoin(x: nat, y: nat, m: nat, k: nat)
    requires y < Power2(m)
    ensures Bit(x * Power2(m) + y, k) == if k < m then Bit(y, k) else Bit(x, k - m)
  {
    if m > 0 {
      var p := Power2(m - 1);
      HalfOf(x, p, y);
      if k > 0 { BitJoin(x, y / 2, m - 1, k - 1); }
    }
  }

  lemma HalfOf(x: nat, p: nat, y: nat)
    ensures x * (2 * p) + y == 2 * (x * p) + y
    ensures (x * (2 * p) + y) % 2 == y % 2 && (x * (2 * p) + y) / 2 == x * p + y / 2
  {
  }
}
