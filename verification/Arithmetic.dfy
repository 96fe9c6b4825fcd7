/** Facts about products and remainders. */
module Arithmetic {

  /** A quotient and a remainder below the divisor are the quotient and the remainder. */
  lemma UniqueRemainder(p: nat, w: nat, q: nat, r: nat)
    requires r < w && p == q * w + r
    ensures p % w == r
  {
    var m, s := p / w, p % w;
    assert (m - q) * w == r - s;
    if q < m {
      Times(1, m - q, w);
    } else if m < q {
      Times(1, q - m, w);
    }
  }

  lemma {:induction false} Times(a: nat, b: nat, w: nat)
    requires a <= b
    ensures a * w <= b * w
    decreases b - a
  {
    if a < b {
      Times(a, b - 1, w);
      assert b * w == (b - 1) * w + w;
    }
  }

  lemma MultipleHasNoRemainder(q: nat, w: nat)
    requires w > 0
    ensures (q * w) % w == 0
  {
    UniqueRemainder(q * w, w, q, 0);
  }
}
