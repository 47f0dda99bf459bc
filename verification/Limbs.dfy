/** Numbers written with 32-bit limbs, least significant first. */
module Limbs {
  import opened Arithmetic

  const B: nat := 0x1_0000_0000

  type Limb = x: nat | x < 0x1_0000_0000

  /** The weight of limb `i`. */
  function Weight(i: nat): (r: nat)
    ensures r > 0
  {
    if i == 0 then 1 else Weight(i - 1) * B
  }

  /** The number in the low `n` limbs. */
  function Low(s: seq<Limb>, n: nat): nat
    requires n <= |s|
  {
    if n == 0 then 0 else Low(s, n - 1) + s[n - 1] * Weight(n - 1)
  }

  function Value(s: seq<Limb>): nat {
    Low(s, |s|)
  }

  lemma {:induction false} WeightIsPow(i: nat)
    ensures Weight(i) == Pow2(32 * i)
  {
    Pow2Of32();
    if i > 0 {
      WeightIsPow(i - 1);
      PowAdd(32 * (i - 1), 32);
    }
  }

  lemma {:induction false} WeightAdd(i: nat, j: nat)
    ensures Weight(i + j) == Weight(i) * Weight(j)
  {
    if j > 0 {
      WeightAdd(i, j - 1);
      assert i + j - 1 == i + (j - 1);
      Associate(Weight(i), Weight(j - 1), B);
    }
  }

  // ----- Values

  lemma {:induction false} LowBound(s: seq<Limb>, n: nat)
    requires n <= |s|
    ensures Low(s, n) < Weight(n)
  {
    if n > 0 {
      LowBound(s, n - 1);
      var w := Weight(n - 1);
      MulAtMost(s[n - 1], B - 1, w);
      Distribute(B - 1, 1, w);
    }
  }

  lemma {:induction false} LowSame(s: seq<Limb>, t: seq<Limb>, n: nat)
    requires n <= |s| && n <= |t| && forall i :: 0 <= i < n ==> s[i] == t[i]
    ensures Low(s, n) == Low(t, n)
  {
    if n > 0 {
      LowSame(s, t, n - 1);
    }
  }

  /** What the limbs from `n` on contribute. */
  lemma {:induction false} LowRest(s: seq<Limb>, n: nat, m: nat) returns (q: nat)
    requires n <= m <= |s|
    ensures Low(s, m) == Low(s, n) + q * Weight(n)
    decreases m
  {
    if m == n {
      q := 0;
    } else {
      var p := LowRest(s, n, m - 1);
      var d := m - 1 - n;
      WeightAdd(n, d);
      assert n + d == m - 1;
      var h := s[m - 1] * Weight(d);
      assert s[m - 1] * Weight(m - 1) == h * Weight(n) by {
        assert Weight(n) * Weight(d) == Weight(d) * Weight(n);
        Associate(s[m - 1], Weight(d), Weight(n));
      }
      Distribute(p, h, Weight(n));
      q := p + h;
    }
  }

  /** Changing one limb changes the value by that limb's weight. */
  lemma {:induction false} LowUpdate(s: seq<Limb>, i: nat, x: Limb, n: nat)
    requires i < n <= |s|
    ensures Low(s[i := x], n) == Low(s, n) + (x - s[i]) * Weight(i)
    decreases n
  {
    var t := s[i := x];
    if i == n - 1 {
      LowSame(s, t, n - 1);
      Distribute(x - s[i], s[i], Weight(i));
    } else {
      LowUpdate(s, i, x, n - 1);
    }
  }

  /** A number below the weight that differs from `a` by a multiple of it is `a` modulo the weight. */
  lemma ModWeight(s: seq<Limb>, a: int, q: int)
    requires a == q * Weight(|s|) + Value(s)
    ensures Value(s) == Mod(a, Weight(|s|))
  {
    LowBound(s, |s|);
    DivModUnique(a, q, Value(s), Weight(|s|));
  }

  // ----- Bitwise or

  function BitOr(x: nat, y: nat): nat {
    if x == 0 && y == 0 then 0 else 2 * BitOr(x / 2, y / 2) + (if x % 2 == 1 || y % 2 == 1 then 1 else 0)
  }

  lemma {:induction false} OrZero(x: nat)
    ensures BitOr(x, 0) == x && BitOr(0, x) == x
  {
    if x > 0 {
      OrZero(x / 2);
    }
  }

  /** Or is addition when one operand lies below the other's bits. */
  lemma {:induction false} OrDisjoint(x: nat, y: nat, n: nat)
    requires x < Pow2(n) && y % Pow2(n) == 0
    ensures BitOr(x, y) == x + y && BitOr(y, x) == x + y
    decreases n
  {
    if n == 0 {
      OrZero(y);
    } else if x == 0 && y == 0 {
    } else {
      HalfOfMultiple(y, Pow2(n - 1));
      OrDisjoint(x / 2, y / 2, n - 1);
    }
  }

  lemma {:induction false} OrBelow(x: nat, y: nat, n: nat)
    requires x < Pow2(n) && y < Pow2(n)
    ensures BitOr(x, y) < Pow2(n)
  {
    if n > 0 {
      OrBelow(x / 2, y / 2, n - 1);
    }
  }

  function Or(x: Limb, y: Limb): Limb {
    Pow2Of32();
    OrBelow(x, y, 32);
    BitOr(x, y)
  }

  /** A 32-bit number shifted left, as a 32-bit number. */
  function ShlLimb(x: Limb, n: nat): Limb {
    x * Pow2(n) % B
  }

  function ShrLimb(x: Limb, n: nat): (r: Limb)
    ensures r == x / Pow2(n)
  {
    DivSmaller(x, Pow2(n));
    x / Pow2(n)
  }

  /** The two halves of a shifted limb. */
  lemma SplitLimb(x: Limb, n: nat)
    requires n <= 32
    ensures x * Pow2(n) == ShrLimb(x, 32 - n) * B + ShlLimb(x, n)
    ensures ShrLimb(x, 32 - n) < Pow2(n)
    ensures ShlLimb(x, n) == (x % Pow2(32 - n)) * Pow2(n)
  {
    Pow2Of32();
    PowAdd(32 - n, n);
    SplitHalves(x, Pow2(32 - n), Pow2(n));
  }

  lemma SplitHalves(x: nat, m: nat, p: nat)
    requires m > 0 && p > 0 && m * p == B && x < B
    ensures x * p == (x / m) * B + (x % m) * p && x / m < p
    ensures x * p % B == (x % m) * p
  {
    var q, r := x / m, x % m;
    assert x == q * m + r;
    assert x * p == q * B + r * p by {
      Distribute(q * m, r, p);
      Associate(q, m, p);
    }
    assert r * p + p <= B by {
      MulAtMost(r + 1, m, p);
      Distribute(r, 1, p);
    }
    assert q < p by {
      if q >= p {
        MulAtMost(p, q, m);
      }
    }
    DivModUnique(x * p, q, r * p, B);
  }

  lemma MultipleMod(c: nat, p: nat)
    requires p > 0
    ensures (c * p) % p == 0
  {
    DivModUnique(c * p, c, 0, p);
  }

  /** Unbounded shifts. */
  function Times(x: nat, n: nat): nat {
    x * Pow2(n)
  }

  function Cut(x: nat, n: nat): nat {
    DivSmaller(x, Pow2(n));
    x / Pow2(n)
  }

  /** Setting the one free bit between two numbers. */
  lemma {:induction false} OrBetween(x: nat, y: nat, n: nat)
    requires x < Pow2(n) && y % Pow2(n + 1) == 0
    ensures BitOr(x + y, Pow2(n)) == x + y + Pow2(n)
    decreases n
  {
    var p := Pow2(n);
    HalfOfMultiple(y, p);
    if n == 0 {
      OrZero((x + y) / 2);
    } else {
      HalfOfMultiple(y, 2 * Pow2(n - 1));
      OrBetween(x / 2, y / 2, n - 1);
      assert (x + y) / 2 == x / 2 + y / 2;
    }
  }

  lemma HalfOfMultiple(y: nat, p: nat)
    requires p > 0 && y % (2 * p) == 0
    ensures y % 2 == 0 && (y / 2) % p == 0
  {
    var q := y / (2 * p);
    assert y == q * (2 * p) == 2 * (q * p) by {
      Associate(q, 2, p);
      Associate(2, q, p);
    }
    DivModUnique(y / 2, q, 0, p);
  }
}
