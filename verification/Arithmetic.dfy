/** Facts about products, quotients and powers of two that several modules use. */
module Arithmetic {

  function Pow2(n: nat): (r: nat)
    ensures r > 0
  {
    if n == 0 then 1 else 2 * Pow2(n - 1)
  }

  function Mod(a: int, m: int): int
    requires m > 0
  {
    a % m
  }

  lemma Distribute(a: int, b: int, c: int)
    ensures (a + b) * c == a * c + b * c
  {
  }

  lemma Associate(a: int, b: int, c: int)
    ensures (a * b) * c == a * (b * c)
  {
  }

  lemma {:induction false} MulLess(a: int, b: int, c: int)
    requires a < b && c > 0
    ensures a * c < b * c
  {
    Distribute(b - a, a, c);
    assert (b - a) * c > 0;
  }

  lemma {:induction false} MulAtMost(a: int, b: int, c: int)
    requires a <= b && c >= 0
    ensures a * c <= b * c
  {
    Distribute(b - a, a, c);
    assert (b - a) * c >= 0;
  }

  /** Quotient and remainder are determined by their defining equation. */
  lemma DivModUnique(a: int, q: int, r: int, m: int)
    requires m > 0 && a == q * m + r && 0 <= r < m
    ensures a / m == q && a % m == r
  {
    var p := a / m;
    assert a == p * m + a % m;
    if p < q {
      MulAtMost(p + 1, q, m);
      Distribute(p, 1, m);
    } else if p > q {
      MulAtMost(q + 1, p, m);
      Distribute(q, 1, m);
    }
  }

  lemma {:induction false} PowAdd(a: nat, b: nat)
    ensures Pow2(a + b) == Pow2(a) * Pow2(b)
  {
    if a > 0 {
      PowAdd(a - 1, b);
      Associate(2, Pow2(a - 1), Pow2(b));
    }
  }

  lemma PowMonotone(a: nat, b: nat)
    requires a <= b
    ensures Pow2(a) <= Pow2(b) && (a < b ==> 2 * Pow2(a) <= Pow2(b))
  {
    PowAdd(b - a, a);
    MulAtMost(1, Pow2(b - a), Pow2(a));
    if a < b {
      assert Pow2(b - a) == 2 * Pow2(b - a - 1);
      MulAtMost(2, Pow2(b - a), Pow2(a));
    }
  }

  lemma Pow2Of32()
    ensures Pow2(32) == 0x1_0000_0000 && Pow2(24) == 0x100_0000 && Pow2(23) == 0x80_0000 && Pow2(16) == 0x1_0000 && Pow2(15) == 0x8000 && Pow2(8) == 0x100
  {
    assert Pow2(8) == 0x100;
    PowAdd(8, 7);
    assert Pow2(7) == 0x80;
    PowAdd(8, 8);
    PowAdd(16, 7);
    PowAdd(16, 8);
    PowAdd(16, 16);
  }

  lemma DivSmaller(x: nat, p: nat)
    requires p > 0
    ensures 0 <= x / p <= x
  {
    if x / p > x {
      MulAtMost(x + 1, x / p, p);
      MulAtMost(1, p, x + 1);
    }
  }
}
