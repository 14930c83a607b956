/** Powers of two, and the uniqueness of quotient and remainder. */
module Powers {

  function Pow2(n: nat): (power: nat)
    ensures power > 0
  {
    if n == 0 then 1 else 2 * Pow2(n - 1)
  }

  lemma {:induction false} DoubledFactor(x: int, y: int)
    ensures 2 * (x * y) == (2 * x) * y
  {
  }

  lemma {:induction false} Pow2Sum(a: nat, b: nat)
    ensures Pow2(a + b) == Pow2(a) * Pow2(b)
  {
    if a > 0 {
      Pow2Sum(a - 1, b);
      DoubledFactor(Pow2(a - 1), Pow2(b));
    }
  }

  lemma {:induction false} QuotientUnique(n: int, d: int, q: int, r: int)
    requires d > 0 && n == q * d + r && 0 <= r < d
    ensures n / d == q && n % d == r
  {
    var gap := n / d - q;
    assert n == (n / d) * d + n % d;
    assert gap * d == r - n % d;
    assert gap >= 1 ==> gap * d >= d;
    assert gap <= -1 ==> gap * d <= -d;
  }

  lemma {:induction false} Pow2Values()
    ensures Pow2(16) == 0x1_0000 && Pow2(32) == 0x1_0000_0000
    ensures Pow2(48) == 0x1_0000_0000_0000 && Pow2(64) == 0x1_0000_0000_0000_0000
  {
    assert Pow2(4) == 16;
    Pow2Sum(4, 4);
    Pow2Sum(8, 8);
    Pow2Sum(16, 16);
    Pow2Sum(32, 16);
    Pow2Sum(48, 16);
  }

  lemma {:induction false} QuotientBelow(n: int, d: int, bound: int)
    requires d > 0 && 0 <= n < bound * d
    ensures 0 <= n / d < bound
  {
    var q := n / d;
    assert n == q * d + n % d;
    assert q >= bound ==> (q - bound) * d >= 0;
    assert q < 0 ==> (q + 1) * d <= 0;
  }
}
