/** Bitwise arithmetic on unsigned words, defined bit by bit on natural numbers.

    The kernel works with `&` and `|` on `u64` and `u8`; the functions here are
    those operators, and the lemmas turn the masks that the kernel uses into
    division and remainder. */
module Bits {

  function Pow2(n: nat): (p: nat)
    ensures p >= 1
  {
    if n == 0 then 1 else 2 * Pow2(n - 1)
  }

  function And(a: nat, b: nat): (r: nat)
    ensures r <= a && r <= b
  {
    if a == 0 || b == 0 then 0
    else 2 * And(a / 2, b / 2) + (if a % 2 == 1 && b % 2 == 1 then 1 else 0)
  }

  function Or(a: nat, b: nat): (r: nat)
    ensures r >= a && r >= b
    decreases a + b
  {
    if a == 0 then b
    else if b == 0 then a
    else 2 * Or(a / 2, b / 2) + (if a % 2 == 1 || b % 2 == 1 then 1 else 0)
  }

  /** Masking with `width` ones keeps exactly the low `width` bits. */
  lemma {:induction false} AndLow(a: nat, width: nat)
    ensures And(a, Pow2(width) - 1) == a % Pow2(width)
    decreases width
  {
    hide And;
    if width > 0 {
      AndLow(a / 2, width - 1);
      AndLowStep(a, Pow2(width - 1));
    } else {
      AndZeroRight(a);
    }
  }

  lemma AndLowStep(a: nat, h: nat)
    requires h > 0 && And(a / 2, h - 1) == a / 2 % h
    ensures And(a, 2 * h - 1) == a % (2 * h)
  {
    hide And;
    AndOdd(a, h - 1);
    ModSplit(a, 2, h);
  }

  lemma AndOdd(a: nat, m: nat)
    ensures And(a, 2 * m + 1) == 2 * And(a / 2, m) + a % 2
  {
    hide And;
    AndHalves(a, 2 * m + 1);
  }

  lemma AndZeroRight(a: nat)
    ensures And(a, 0) == 0
  {
  }

  /** Masking with `width` ones above `lo` zeros keeps exactly that bit field. */
  lemma {:induction false} AndField(a: nat, lo: nat, width: nat)
    ensures And(a, (Pow2(width) - 1) * Pow2(lo)) == a / Pow2(lo) % Pow2(width) * Pow2(lo)
    decreases lo
  {
    if lo == 0 {
      AndLow(a, width);
    } else {
      AndField(a / 2, lo - 1, width);
      DivDiv(a, 2, Pow2(lo - 1));
      var mask := (Pow2(width) - 1) * Pow2(lo - 1);
      var field := a / Pow2(lo) % Pow2(width);
      AndDouble(a, mask);
      ScaleDouble(Pow2(width) - 1, Pow2(lo - 1));
      ScaleDouble(field, Pow2(lo - 1));
    }
  }

  lemma AndDouble(a: nat, b: nat)
    ensures And(a, 2 * b) == 2 * And(a / 2, b)
  {
    hide And;
    AndHalves(a, 2 * b);
    assert 2 * b / 2 == b && 2 * b % 2 == 0;
  }

  lemma ScaleDouble(x: int, p: int)
    ensures x * (2 * p) == 2 * (x * p)
  {
  }

  lemma AndHalves(a: nat, b: nat)
    ensures And(a, b) == 2 * And(a / 2, b / 2) + (if a % 2 == 1 && b % 2 == 1 then 1 else 0)
  {
  }

  lemma OrHalves(a: nat, b: nat)
    ensures Or(a, b) == 2 * Or(a / 2, b / 2) + (if a % 2 == 1 || b % 2 == 1 then 1 else 0)
  {
  }

  lemma DivUnique(a: nat, d: nat, q: nat, r: nat)
    requires d > 0 && a == q * d + r && r < d
    ensures a / d == q && a % d == r
  {
    var q', r' := a / d, a % d;
    var gap := q' - q;
    assert gap * d == r - r' by {
      assert q' * d - q * d == gap * d;
    }
    if gap >= 1 {
      MulAtLeast(gap, d);
    } else if gap <= -1 {
      MulAtLeast(-gap, d);
    }
  }

  lemma MulAtLeast(x: nat, d: nat)
    requires x >= 1
    ensures x * d >= d
  {
    assert x * d == (x - 1) * d + d;
  }

  lemma DivDiv(a: nat, x: nat, y: nat)
    requires x > 0 && y > 0
    ensures x * y > 0 && a / x / y == a / (x * y)
  {
    MulAtLeast(x, y);
    var q, r, s := a / x / y, a / x % y, a % x;
    calc {
      a;
      (a / x) * x + s;
      (q * y + r) * x + s;
      q * y * x + r * x + s;
      q * (x * y) + (r * x + s);
    }
    assert r * x + s < x * y by {
      assert y * x - r * x == (y - r) * x;
      MulAtLeast(y - r, x);
    }
    DivUnique(a, x * y, q, r * x + s);
  }

  lemma ModSplit(a: nat, c: nat, h: nat)
    requires c > 0 && h > 0
    ensures c * h > 0 && a % (c * h) == c * (a / c % h) + a % c
  {
    DivDiv(a, c, h);
    var q, r, s := a / c / h, a / c % h, a % c;
    assert a / c == q * h + r;
    MulSplit(c, q, h, r);
    MulGap(c, h, r);
    DivUnique(a, c * h, q, c * r + s);
  }

  lemma MulSplit(c: int, q: int, h: int, r: int)
    ensures c * (q * h + r) == q * (c * h) + c * r
  {
    assert c * (q * h + r) == c * (q * h) + c * r;
  }

  lemma MulGap(c: nat, h: nat, r: nat)
    requires r < h
    ensures c * r + c <= c * h
  {
    assert c * h - c * r == c * (h - r);
    MulAtLeast(h - r, c);
  }

  lemma {:induction false} AndOrDistributes(a: nat, b: nat, mask: nat)
    ensures And(Or(a, b), mask) == Or(And(a, mask), And(b, mask))
    decreases a + b
  {
    hide And, Or;
    if a == 0 || b == 0 {
      AndZero(mask);
      OrZero(a);
      OrZero(b);
      OrZero(And(a, mask));
      OrZero(And(b, mask));
    } else {
      AndOrDistributes(a / 2, b / 2, mask / 2);
      AndHalves(a, mask);
      AndHalves(b, mask);
      OrHalves(And(a, mask), And(b, mask));
      OrHalves(a, b);
      AndHalves(Or(a, b), mask);
    }
  }

  lemma AndZero(mask: nat)
    ensures And(0, mask) == 0
  {
  }

  lemma OrZero(a: nat)
    ensures Or(a, 0) == a && Or(0, a) == a
  {
  }

  /** Or of words with no common bit is their sum. */
  lemma {:induction false} OrDisjoint(high: nat, k: nat, low: nat)
    requires low < Pow2(k)
    ensures Or(high * Pow2(k), low) == high * Pow2(k) + low
    decreases k
  {
    hide Or;
    if high == 0 || low == 0 {
      OrZero(low);
      OrZero(high * Pow2(k));
    } else {
      var x := high * Pow2(k - 1);
      OrDisjoint(high, k - 1, low / 2);
      ScaleDouble(high, Pow2(k - 1));
      OrHalves(2 * x, low);
    }
  }

  lemma OrCommutes(a: nat, b: nat)
    ensures Or(a, b) == Or(b, a)
    decreases a + b
  {
    if a > 0 && b > 0 {
      OrCommutes(a / 2, b / 2);
    }
  }
}
