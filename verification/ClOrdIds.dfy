/** Client order ids: "SQ_" and a decimal counter, copied into a 32-byte field. */
module ClOrdIds {

  function Digit(d: nat): (c: char)
    requires d < 10
  {
    "0123456789"[d]
  }

  /** std::to_string on an unsigned number. */
  function Decimal(n: nat): string {
    if n < 10 then [Digit(n)] else Decimal(n / 10) + [Digit(n % 10)]
  }

  function ClOrdId(n: nat): string {
    "SQ_" + Decimal(n)
  }

  /** What fits the field: 31 characters and the terminator. */
  function Copied(id: string): string {
    if |id| <= 31 then id else id[..31]
  }

  lemma {:induction false} DecimalInjective(m: nat, n: nat)
    requires Decimal(m) == Decimal(n)
    ensures m == n
    decreases m + n
  {
    DecimalLength(m, 1);
    DecimalLength(n, 1);
    var s, t := Decimal(m), Decimal(n);
    assert s[|s| - 1] == Digit(m % 10) && t[|t| - 1] == Digit(n % 10);
    assert m % 10 == n % 10;
    if m >= 10 {
      assert Decimal(m / 10) == s[..|s| - 1] && Decimal(n / 10) == t[..|t| - 1];
      DecimalInjective(m / 10, n / 10);
    }
  }

  /** A string of digits read as a decimal number. */
  function Value(s: string): int {
    if s == [] then 0 else 10 * Value(s[..|s| - 1]) + s[|s| - 1] as int - '0' as int
  }

  /** The characters after the prefix are the counter in decimal, without leading zeros. */
  lemma {:induction false} IdReadsBack(n: nat)
    ensures ClOrdId(n) == "SQ_" + Decimal(n) && Value(Decimal(n)) == n
    ensures Decimal(n)[0] == '0' ==> n == 0
  {
    if n >= 10 {
      IdReadsBack(n / 10);
      assert Decimal(n)[..|Decimal(n)| - 1] == Decimal(n / 10);
    }
  }

  function Pow10(k: nat): (p: nat)
    ensures p >= 1
  {
    if k == 0 then 1 else 10 * Pow10(k - 1)
  }

  lemma {:induction false} DecimalLength(n: nat, k: nat)
    requires k >= 1
    ensures 1 <= |Decimal(n)|
    ensures n >= 10 ==> |Decimal(n)| >= 2
    ensures n < Pow10(k) ==> |Decimal(n)| <= k
  {
    if n >= 10 {
      DecimalLength(n / 10, if k > 1 then k - 1 else 1);
      if k > 1 {
        assert Pow10(k) == 10 * Pow10(k - 1);
      } else {
        assert Pow10(1) == 10 * Pow10(0);
      }
    }
  }

  lemma {:induction false} TwoTo64Fits(k: nat)
    requires k == 20
    ensures Pow10(k) >= 0x1_0000_0000_0000_0000
  {
    assert Pow10(1) == 10 && Pow10(2) == 100 && Pow10(3) == 1_000 && Pow10(4) == 10_000 && Pow10(5) == 100_000;
    assert Pow10(6) == 1_000_000 && Pow10(7) == 10_000_000 && Pow10(8) == 100_000_000;
    assert Pow10(9) == 1_000_000_000 && Pow10(10) == 10_000_000_000 && Pow10(11) == 100_000_000_000;
    assert Pow10(12) == 1_000_000_000_000 && Pow10(13) == 10_000_000_000_000 && Pow10(14) == 100_000_000_000_000;
    assert Pow10(15) == 1_000_000_000_000_000 && Pow10(16) == 10_000_000_000_000_000;
    assert Pow10(17) == 100_000_000_000_000_000 && Pow10(18) == 1_000_000_000_000_000_000;
    assert Pow10(19) == 10_000_000_000_000_000_000 && Pow10(20) == 100_000_000_000_000_000_000;
  }

  /** Different counters give different ids, and a 64-bit counter gives at most 23 characters, so
      the copy into the field is the id itself. */
  lemma IdsAreDistinctAndFit(m: nat, n: nat)
    ensures ClOrdId(m) == ClOrdId(n) <==> m == n
    ensures n < 0x1_0000_0000_0000_0000 ==> |ClOrdId(n)| <= 23 && Copied(ClOrdId(n)) == ClOrdId(n)
  {
    if ClOrdId(m) == ClOrdId(n) {
      assert Decimal(m) == ClOrdId(m)[3..] && Decimal(n) == ClOrdId(n)[3..];
      DecimalInjective(m, n);
    }
    TwoTo64Fits(20);
    DecimalLength(n, 20);
  }
}
