/** Facts about division that the solver does not find by itself. */
module Arithmetic {

  lemma DivModIs(x: nat, d: nat, q: nat, r: nat)
    requires r < d && x == q * d + r
    ensures x / d == q && x % d == r
  {
    var k := x / d - q;
    assert x == (x / d) * d + x % d;
    assert k * d == (x / d) * d - q * d;
    if k >= 1 {
      AtLeastOnce(k, d);
    } else if k <= -1 {
      AtLeastOnce(-k, d);
    }
  }

  lemma TimesAssociates(a: nat, b: nat, c: nat)
    ensures (a * b) * c == a * (b * c)
  {
  }

  lemma TimesOneLess(a: nat, b: nat)
    ensures a * (b - 1) == a * b - a
  {
  }

  lemma AtLeastOnce(k: int, d: nat)
    requires k >= 1
    ensures k * d >= d && -(k * d) <= -(d as int)
  {
    assert (k - 1) * d >= 0;
  }
}
