/** Remainders, powers of two and the bit mask that ring indices go through. */
module Arithmetic {

  /** A nonzero multiple of d is at least d away from zero. */
  lemma MultipleIsFar(d: nat, k: int)
    ensures k >= 1 ==> d * k >= d
    ensures k <= -1 ==> d * k + d <= 0
  {
    if k >= 1 {
      assert d * k == d + d * (k - 1);
      assert d * (k - 1) >= 0;
    } else if k <= -1 {
      assert d * k + d == d * (k + 1);
      assert d * (k + 1) <= 0;
    }
  }

  lemma DivModUnique(x: int, d: int, q: int, r: int)
    requires 0 <= r < d
    requires x == d * q + r
    ensures x / d == q && x % d == r
  {
    var q' := x / d;
    var k := q - q';
    assert d * k == d * q - d * q';
    assert x == d * q' + x % d;
    MultipleIsFar(d, k);
  }

  /** Two numbers closer than d with the same remainder are the same number. */
  lemma SameRemainder(a: nat, b: nat, d: nat)
    requires d > 0 && a <= b < a + d
    requires a % d == b % d
    ensures a == b
  {
    var q, q' := a / d, b / d;
    var k := q' - q;
    assert d * k == d * q' - d * q;
    assert a == d * q + a % d && b == d * q' + b % d;
    MultipleIsFar(d, k);
  }

  lemma RemainderOfSum(a: nat, b: nat, d: nat)
    requires d > 0
    ensures (a % d + b) % d == (a + b) % d
  {
    var q, r := (a % d + b) / d, (a % d + b) % d;
    assert a == d * (a / d) + a % d;
    assert a + b == d * (a / d + q) + r;
    DivModUnique(a + b, d, a / d + q, r);
  }

  lemma RemainderOfPeriod(a: nat, d: nat)
    requires d > 0
    ensures (a + d) % d == a % d
  {
    assert a + d == d * (a / d + 1) + a % d;
    DivModUnique(a + d, d, a / d + 1, a % d);
  }

  function Pow2(k: nat): (r: nat)
    ensures r >= 1
  {
    if k == 0 then 1 else 2 * Pow2(k - 1)
  }

  /** Bitwise "and" of two unsigned numbers. */
  function BitAnd(a: nat, b: nat): nat
    decreases a
  {
    if a == 0 || b == 0 then 0
    else (if a % 2 == 1 && b % 2 == 1 then 1 else 0) + 2 * BitAnd(a / 2, b / 2)
  }

  lemma HalvedRemainder(x: nat, p: nat)
    requires p > 0
    ensures x % (2 * p) == x % 2 + 2 * ((x / 2) % p)
  {
    var h, b := x / 2, x % 2;
    var q, m := h / p, h % p;
    assert h == p * q + m && x == 2 * h + b;
    assert 2 * (p * q) == (2 * p) * q;
    DivModUnique(x, 2 * p, q, 2 * m + b);
  }

  /** Masking with a power of two minus one is the remainder by that power. */
  lemma {:induction false} MaskIsRemainder(x: nat, k: nat)
    ensures BitAnd(x, Pow2(k) - 1) == x % Pow2(k)
  {
    if k == 0 {
    } else if x == 0 {
    } else {
      var p := Pow2(k - 1);
      MaskIsRemainder(x / 2, k - 1);
      assert (2 * p - 1) / 2 == p - 1 && (2 * p - 1) % 2 == 1;
      HalvedRemainder(x, p);
    }
  }

  /** The masked index x & (2^k - 1). */
  function Mask(x: nat, k: nat): (r: nat)
    ensures r == x % Pow2(k) && r < Pow2(k)
  {
    MaskIsRemainder(x, k);
    BitAnd(x, Pow2(k) - 1)
  }
}
