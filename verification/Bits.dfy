/** Bitwise operations on unsigned numbers of any width. */
module Bits {
  import opened Arithmetic

  function Pow2(n: nat): (p: nat)
    ensures p > 0
  {
    if n == 0 then 1 else 2 * Pow2(n - 1)
  }

  /** Bitwise and. */
  function And(a: nat, b: nat): nat {
    if a == 0 || b == 0 then 0 else 2 * And(a / 2, b / 2) + (a % 2) * (b % 2)
  }

  /** Shift to the left in a word of `width` bits; bits pushed out are lost. */
  function ShiftLeft(width: nat, a: nat, n: nat): nat {
    (a * Pow2(n)) % Pow2(width)
  }

  /** Bit `i`, counted from the least significant. */
  function Bit(a: nat, i: nat): nat {
    (a / Pow2(i)) % 2
  }

  /** Bit `i` of a bitwise and is set exactly when it is set in both. */
  lemma {:induction false} AndBits(a: nat, b: nat, i: nat)
    ensures Bit(And(a, b), i) == 1 <==> Bit(a, i) == 1 && Bit(b, i) == 1
  {
    AndHalves(a, b);
    if i > 0 {
      AndBits(a / 2, b / 2, i - 1);
      HalveDiv(a, i - 1);
      HalveDiv(b, i - 1);
      HalveDiv(And(a, b), i - 1);
    }
  }

  lemma AndHalves(a: nat, b: nat)
    ensures And(a, b) / 2 == And(a / 2, b / 2)
    ensures And(a, b) % 2 == 1 <==> a % 2 == 1 && b % 2 == 1
  {
    if a > 0 && b > 0 {
      var product := (a % 2) * (b % 2);
      assert a % 2 == 0 ==> product == 0;
      assert a % 2 == 1 ==> product == b % 2;
    }
  }

  lemma {:induction false} Pow2Adds(m: nat, n: nat)
    ensures Pow2(m + n) == Pow2(m) * Pow2(n)
  {
    Pow2Next(m + n);
    Pow2Next(m);
    hide Pow2;
    if m > 0 {
      Pow2Adds(m - 1, n);
      TimesAssociates(2, Pow2(m - 1), Pow2(n));
    }
  }

  lemma Pow2Next(n: nat)
    ensures Pow2(n) == if n == 0 then 1 else 2 * Pow2(n - 1)
  {
  }

  /** `p` ones in front of `k` zeros. */
  function Ones(k: nat, p: nat): nat {
    Product(Pow2(k), Pow2(p) - 1)
  }

  function Product(a: nat, b: nat): nat {
    a * b
  }

  /** Halving first or last makes no difference. */
  lemma HalveDiv(x: nat, n: nat)
    ensures x / Pow2(n + 1) == (x / 2) / Pow2(n)
    ensures x % Pow2(n + 1) == 2 * ((x / 2) % Pow2(n)) + x % 2
  {
    var p := Pow2(n);
    var q, r := (x / 2) / p, (x / 2) % p;
    assert x / 2 == q * p + r;
    assert x == 2 * (x / 2) + x % 2;
    assert 2 * (q * p) == q * (2 * p);
    DivModIs(x, 2 * p, q, 2 * r + x % 2);
  }

  /** Dividing twice is dividing by the product. */
  lemma {:induction false} DivDiv(x: nat, m: nat, n: nat)
    ensures x / Pow2(m + n) == (x / Pow2(m)) / Pow2(n)
    decreases m
  {
    if m == 0 {
      assert x / 1 == x;
    } else {
      HalveDiv(x, m + n - 1);
      DivDiv(x / 2, m - 1, n);
      HalveDiv(x, m - 1);
    }
  }

  /** The all-ones word shifted left has its ones at the top. */
  lemma ShiftedOnes(width: nat, k: nat)
    requires k <= width
    ensures ShiftLeft(width, Pow2(width) - 1, k) == Ones(k, width - k)
  {
    hide Pow2;
    Pow2Adds(k, width - k);
    OnesTimes(Pow2(width), Pow2(k), Pow2(width - k));
  }

  lemma OnesTimes(w: nat, p: nat, q: nat)
    requires w == p * q && p > 0 && q > 0
    ensures ((w - 1) * p) % w == p * (q - 1)
  {
    var r := p * (q - 1);
    TimesOneLess(p, q);
    TimesOneLess(p, w);
    TimesOneLess(w, p);
    assert (w - 1) * p == (p - 1) * w + r;
    DivModIs((w - 1) * p, w, p - 1, r);
  }

  lemma {:induction false} AndOnes(x: nat, p: nat)
    requires x < Pow2(p)
    ensures And(x, Pow2(p) - 1) == x
  {
    if p > 0 && x > 0 {
      AndOnes(x / 2, p - 1);
      OnesHalve(p);
      AndHalves(x, Pow2(p) - 1);
    }
  }

  lemma OnesHalve(p: nat)
    requires p > 0
    ensures (Pow2(p) - 1) / 2 == Pow2(p - 1) - 1 && (Pow2(p) - 1) % 2 == 1
  {
  }

  /** Masking with ones at the top clears the low bits. */
  lemma {:induction false} AndMask(x: nat, k: nat, p: nat)
    requires x < Pow2(k + p)
    ensures And(x, Ones(k, p)) == x - x % Pow2(k)
    decreases k
  {
    hide And, Product, Ones;
    OnesDouble(k, p);
    Pow2Next(k);
    if k == 0 {
      AndOnes(x, p);
    } else {
      BelowHalf(x, k + p);
      hide Pow2;
      AndMask(x / 2, k - 1, p);
      HalveDiv(x, k - 1);
      AndDouble(x, Ones(k - 1, p));
    }
  }

  lemma OnesDouble(k: nat, p: nat)
    ensures Ones(k, p) == if k == 0 then Pow2(p) - 1 else 2 * Ones(k - 1, p)
  {
    Pow2Next(k);
    hide Pow2;
    if k > 0 {
      TimesAssociates(2, Pow2(k - 1), Pow2(p) - 1);
    }
  }

  lemma BelowHalf(x: nat, n: nat)
    requires n > 0 && x < Pow2(n)
    ensures x / 2 < Pow2(n - 1)
  {
  }

  lemma AndDouble(x: nat, half: nat)
    ensures And(x, 2 * half) == 2 * And(x / 2, half)
  {
    AndHalves(x, 2 * half);
  }

  /** Clearing the low bits and dropping them say the same. */
  lemma ClearedIsTop(x: nat, y: nat, d: nat)
    requires d > 0
    ensures x - x % d == y - y % d <==> x / d == y / d
  {
    var k := x / d - y / d;
    assert x - x % d == (x / d) * d && y - y % d == (y / d) * d;
    assert (x / d) * d - (y / d) * d == k * d;
    if k >= 1 {
      AtLeastOnce(k, d);
    } else if k <= -1 {
      AtLeastOnce(-k, d);
    }
  }

  /** Numbers below 2^width have the same top exactly when they agree on every bit of it. */
  lemma {:induction false} TopIsBits(width: nat, x: nat, y: nat, k: nat)
    requires x < Pow2(width) && y < Pow2(width) && k <= width
    ensures x / Pow2(k) == y / Pow2(k) <==> forall i :: k <= i < width ==> Bit(x, i) == Bit(y, i)
    decreases width - k
  {
    hide Bit, Pow2;
    if k == width {
      DivModIs(x, Pow2(width), 0, x);
      DivModIs(y, Pow2(width), 0, y);
    } else {
      TopIsBits(width, x, y, k + 1);
      var a, b := x / Pow2(k + 1), y / Pow2(k + 1);
      var c, d := x / Pow2(k), y / Pow2(k);
      assert c == 2 * a + Bit(x, k) && 0 <= Bit(x, k) < 2 by { TopSplits(x, k); }
      assert d == 2 * b + Bit(y, k) && 0 <= Bit(y, k) < 2 by { TopSplits(y, k); }
      assert c == d <==> a == b && Bit(x, k) == Bit(y, k);
    }
  }

  lemma TopSplits(x: nat, k: nat)
    ensures x / Pow2(k) == 2 * (x / Pow2(k + 1)) + Bit(x, k) && 0 <= Bit(x, k) < 2
  {
    DivDiv(x, k, 1);
    assert Pow2(1) == 2;
  }
}
