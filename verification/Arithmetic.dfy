/** Powers of two, and facts about integer division, that several components need. */
module Arithmetic {

  function Pow2(k: nat): (p: nat)
    ensures p > 0
  {
    if k == 0 then 1 else 2 * Pow2(k - 1)
  }

  lemma DivModUnique(x: int, d: nat, q: int, r: nat)
    requires r < d && x == d * q + r
    ensures x % d == r && x / d == q
  {
    var gap := q - x / d;
    assert d * gap == x % d - r;
    AtLeastOne(d, gap);
    AtLeastOne(d, -gap);
  }

  lemma AtLeastOne(d: nat, n: int)
    ensures n >= 1 ==> d * n >= d
  {
  }

  /** Adding a multiple of the divisor keeps the remainder. */
  lemma SameRemainder(x: int, y: int, q: int, d: nat)
    requires d > 0 && x == y + d * q
    ensures x % d == y % d
  {
    DivModUnique(x, d, y / d + q, y % d);
  }
}
