/** How many multiples of a duration fit into a span. */
module Arithmetic {
  lemma ProductGrows(d: int, m: nat)
    requires d >= 1
    ensures d * m >= m
  {
  }

  lemma MultiplesFit(c: nat, cooldown: nat, length: nat)
    requires cooldown > 0 && c > 0
    ensures (c - 1) * cooldown <= length ==> c <= 1 + length / cooldown
  {
    var q := length / cooldown;
    assert length == q * cooldown + length % cooldown;
    assert (c - 1 - q) * cooldown == (c - 1) * cooldown - q * cooldown;
    if c - 1 > q {
      ProductGrows(c - 1 - q, cooldown);
    }
  }

  lemma ProductsOrdered(i: nat, j: nat, d: nat)
    requires i <= j
    ensures i * d <= j * d
  {
    assert j * d == i * d + (j - i) * d;
  }

  lemma ExactQuotient(m: nat, d: nat)
    requires d > 0
    ensures m * d / d == m
  {
    MultiplesFit(m + 1, d, m * d);
    var q := m * d / d;
    assert m * d == q * d + m * d % d;
    if q > m {
      ProductsOrdered(m + 1, q, d);
    }
  }

  lemma OneMore(c: nat, c': nat, cooldown: nat)
    requires 1 <= c' <= c + 1
    ensures (c' - 1) * cooldown <= (c - 1) * cooldown + cooldown
  {
    assert (c - 1) * cooldown + cooldown == c * cooldown;
  }
}
