/** Fixed-width unsigned integers over 32-bit limbs, proved against integers modulo 2^BITS for every width. */
module ArithUint {
  import opened Arithmetic
  import opened Limbs

  // ----- One limb at a time

  /** Writing the low half of `n` and carrying the high half loses nothing. */
  lemma PutLimb(s: seq<Limb>, i: nat, n: nat)
    requires i < |s|
    ensures var t := s[i := n % B]; Low(t, i + 1) + (n / B) * Weight(i + 1) == Low(s, i) + n * Weight(i)
  {
    var t := s[i := n % B];
    LowSame(s, t, i);
    var w := Weight(i);
    assert n == (n / B) * B + n % B;
    Distribute((n / B) * B, n % B, w);
    Associate(n / B, B, w);
    assert Weight(i + 1) == B * w;
  }

  lemma IncrementStep(s: seq<Limb>, i: nat)
    requires i < |s|
    ensures var t := s[i := Lo(s[i] as int + 1)];
            Value(t) + (if t[i] == 0 then Weight(i + 1) else 0) == Value(s) + Weight(i)
  {
    var d := Lo(s[i] as int + 1);
    LowUpdate(s, i, d, |s|);
    hide Low;
    if d == 0 {
      Distribute(0 - (s[i] as int), B, Weight(i));
    }
  }

  function Less(x: Limb): Limb {
    if x == 0 then B - 1 else x - 1
  }

  lemma DecrementStep(s: seq<Limb>, i: nat)
    requires i < |s|
    ensures var t := s[i := Less(s[i])];
            Value(t) - (if t[i] == B - 1 then Weight(i + 1) else 0) == Value(s) - Weight(i)
  {
    LowUpdate(s, i, Less(s[i]), |s|);
    hide Low;
    if s[i] == 0 {
      Distribute(B - 1, 1, Weight(i));
    }
  }

  /** Sums and products with the low `i` limbs done and a carry pending. */
  ghost predicate Summed(s: seq<Limb>, x: seq<Limb>, y: seq<Limb>, i: nat, carry: nat) {
    i <= |s| == |x| == |y| && Low(s, i) + carry * Weight(i) == Low(x, i) + Low(y, i)
  }

  lemma AddStep(s: seq<Limb>, x: seq<Limb>, y: seq<Limb>, i: nat, carry: Limb)
    requires i < |s| && Summed(s, x, y, i, carry)
    ensures var n := carry + x[i] + y[i]; Summed(s[i := Lo(n)], x, y, i + 1, Hi(n))
  {
    PutLimb(s, i, carry + x[i] + y[i]);
    Distribute(carry + x[i], y[i], Weight(i));
    Distribute(carry, x[i], Weight(i));
  }

  lemma SumDone(s: seq<Limb>, x: seq<Limb>, y: seq<Limb>, carry: nat)
    requires Summed(s, x, y, |s|, carry)
    ensures Value(s) == Mod(Value(x) + Value(y), Weight(|s|))
  {
    ModWeight(s, Value(x) + Value(y), carry);
  }

  ghost predicate Scaled(s: seq<Limb>, x: seq<Limb>, b: Limb, i: nat, carry: nat) {
    i <= |s| == |x| && Low(s, i) + carry * Weight(i) == b * Low(x, i)
  }

  lemma ScaleStep(s: seq<Limb>, x: seq<Limb>, b: Limb, i: nat, carry: Limb)
    requires i < |s| && Scaled(s, x, b, i, carry)
    ensures var n := Wide(carry, 0, b, x[i]); Scaled(s[i := Lo(n)], x, b, i + 1, Hi(n))
  {
    PutLimb(s, i, carry + b * x[i]);
    assert Low(x, i + 1) == Low(x, i) + x[i] * Weight(i);
    hide Low;
    hide Weight;
    Distribute(carry, b * x[i], Weight(i));
    SplitProduct(b, Low(x, i), x[i], Weight(i));
  }

  lemma ScaleDone(s: seq<Limb>, x: seq<Limb>, b: Limb, carry: nat)
    requires Scaled(s, x, b, |s|, carry)
    ensures Value(s) == Mod(Value(x) * b, Weight(|s|))
  {
    assert b * Value(x) == Value(x) * b;
    ModWeight(s, Value(x) * b, carry);
  }

  lemma SplitProduct(a: int, l: int, x: int, w: int)
    ensures a * (l + x * w) == a * l + (a * x) * w
  {
    Associate(a, x, w);
  }

  lemma LimbProduct(a: Limb, b: Limb)
    ensures a * b <= (B - 1) * (B - 1)
  {
    MulAtMost(a, B - 1, b);
    MulAtMost(b, B - 1, B - 1);
  }

  /** A 64-bit intermediate: it never overflows, and its high half fits in a limb. */
  function Wide(x: Limb, y: Limb, a: Limb, b: Limb): (n: nat)
    ensures n < 0x1_0000_0000_0000_0000
  {
    LimbProduct(a, b);
    x + y + a * b
  }

  function Lo(n: nat): Limb {
    n % B
  }

  function Hi(n: nat): (r: Limb)
    requires n < 0x1_0000_0000_0000_0000
  {
    n / B
  }

  /** What replacing a limb `x` by the low half of `n` and carrying the rest adds. */
  lemma CarryOut(n: nat, x: int, w: int)
    ensures (n % B - x) * w + (n / B) * (w * B) == (n - x) * w
  {
    var q, d := n / B, n % B;
    assert n == q * B + d;
    assert q * (w * B) == (q * B) * w by {
      Associate(q, B, w);
    }
    Distribute(d - x, q * B, w);
  }

  lemma SplitRow(a: int, l: int, x: int, wi: int, wj: int)
    ensures a * (l + x * wi) * wj == a * l * wj + (a * x) * (wi * wj)
  {
    SplitProduct(a, l, x, wi);
    Distribute(a * l, (a * x) * wi, wj);
    Associate(a * x, wi, wj);
  }

  lemma NothingWide(a: Limb)
    ensures Lo(Wide(0, 0, a, 0)) == 0 && Hi(Wide(0, 0, a, 0)) == 0
  {
    assert a * 0 == 0;
  }

  /** `before` plus `a` times the low `i` limbs of `b`, shifted by `j` limbs. */
  ghost predicate RowSummed(s: seq<Limb>, b: seq<Limb>, a: Limb, i: nat, j: nat, carry: nat, before: nat) {
    i + j <= |s| == |b| && Value(s) + carry * Weight(i + j) == before + a * Low(b, i) * Weight(j)
  }

  lemma ProductStep(s: seq<Limb>, b: seq<Limb>, a: Limb, i: nat, j: nat, carry: Limb, before: nat)
    requires i + j < |s| && RowSummed(s, b, a, i, j, carry, before)
    ensures var n := Wide(carry, s[i + j], a, b[i]); RowSummed(s[i + j := Lo(n)], b, a, i + 1, j, Hi(n), before)
  {
    var p, n := i + j, Wide(carry, s[i + j], a, b[i]);
    LowUpdate(s, p, Lo(n), |s|);
    WeightAdd(i, j);
    assert Weight(p + 1) == Weight(p) * B;
    assert i + 1 + j == p + 1;
    assert Low(b, i + 1) == Low(b, i) + b[i] * Weight(i);
    hide Low;
    hide Weight;
    RowAlgebra(Value(s), before, carry, s[p], a, b[i], Low(b, i), Weight(i), Weight(j));
  }

  lemma RowAlgebra(v: int, before: int, carry: nat, x: nat, a: nat, y: nat, l: int, wi: int, wj: int)
    requires v + carry * (wi * wj) == before + a * l * wj
    ensures var n := carry + x + a * y;
            v + (n % B - x) * (wi * wj) + (n / B) * (wi * wj * B) == before + a * (l + y * wi) * wj
  {
    var w, n := wi * wj, carry + x + a * y;
    CarryOut(n, x, w);
    Distribute(carry, a * y, w);
    SplitRow(a, l, y, wi, wj);
  }

  lemma RowStart(s: seq<Limb>, b: seq<Limb>, a: Limb, j: nat)
    requires j <= |s| == |b|
    ensures RowSummed(s, b, a, 0, j, 0, Value(s))
  {
    assert Low(b, 0) == 0;
    assert a * 0 * Weight(j) == 0;
  }

  lemma RowDone(s: seq<Limb>, b: seq<Limb>, a: Limb, i: nat, j: nat, carry: nat, before: nat)
    requires i + j == |s| && RowSummed(s, b, a, i, j, carry, before)
    ensures Value(s) + carry * Weight(|s|) == before + a * Low(b, |s| - j) * Weight(j)
  {
    hide Low;
    hide Weight;
  }

  /** Limbs of weight at least 2^BITS only matter modulo 2^BITS. */
  lemma BeyondTop(b: seq<Limb>, a: nat, j: nat) returns (q: nat)
    requires j <= |b|
    ensures a * Value(b) * Weight(j) == a * Low(b, |b| - j) * Weight(j) + q * Weight(|b|)
  {
    var n := |b| - j;
    var p := LowRest(b, n, |b|);
    WeightAdd(n, j);
    assert n + j == |b|;
    hide Low;
    hide Weight;
    SplitRow(a, Low(b, n), p, Weight(n), Weight(j));
    q := a * p;
  }

  lemma ZeroTop(s: seq<Limb>, n: nat)
    requires n <= |s| && forall j :: n <= j < |s| ==> s[j] == 0
    ensures Value(s) == Low(s, n)
  {
    SameTop(s, seq(|s|, (i: nat) => 0), n);
    AllZero(seq(|s|, (i: nat) => 0), |s|);
    AllZero(seq(|s|, (i: nat) => 0), n);
  }

  lemma {:induction false} AllZero(s: seq<Limb>, n: nat)
    requires n <= |s| && forall j :: 0 <= j < n ==> s[j] == 0
    ensures Low(s, n) == 0
  {
    if n > 0 {
      AllZero(s, n - 1);
    }
  }

  lemma SameTop(s: seq<Limb>, t: seq<Limb>, n: nat)
    requires n <= |s| == |t| && forall j :: n <= j < |s| ==> s[j] == t[j]
    ensures Value(s) - Low(s, n) == Value(t) - Low(t, n)
  {
    SameUpTo(s, t, n, |s|);
  }

  lemma {:induction false} SameUpTo(s: seq<Limb>, t: seq<Limb>, n: nat, m: nat)
    requires n <= m <= |s| == |t| && forall j :: n <= j < |s| ==> s[j] == t[j]
    ensures Low(s, m) - Low(s, n) == Low(t, m) - Low(t, n)
    decreases m
  {
    if n < m {
      SameUpTo(s, t, n, m - 1);
    }
  }

  /** The highest limb that differs decides. */
  lemma HighestDecides(s: seq<Limb>, t: seq<Limb>, i: nat)
    requires i < |s| == |t| && s[i] < t[i] && forall j :: i < j < |s| ==> s[j] == t[j]
    ensures Value(s) < Value(t)
  {
    SameTop(s, t, i + 1);
    LowBound(s, i);
    var w := Weight(i);
    MulAtMost(s[i] + 1, t[i], w);
    Distribute(s[i], 1, w);
  }

  // ----- Shifting

  /** The two updates that one limb of the operand causes in a left shift by `k` limbs and `n` bits. */
  function ShlPut(s: seq<Limb>, x: Limb, i: nat, k: nat, n: nat): (t: seq<Limb>)
    requires n < 32
    ensures |t| == |s|
  {
    var t := if i + k + 1 < |s| && n != 0 then s[i + k + 1 := Or(s[i + k + 1], ShrLimb(x, 32 - n))] else s;
    if i + k < |s| then t[i + k := Or(t[i + k], ShlLimb(x, n))] else t
  }

  /** The low `i` limbs of `a` are shifted; `drop` counts what left at the top. */
  ghost predicate Shifted(s: seq<Limb>, a: seq<Limb>, i: nat, k: nat, n: nat, drop: nat) {
    && i <= |a| == |s|
    && (forall j :: i + k < j < |s| ==> s[j] == 0)
    && (i + k < |s| ==> s[i + k] < Pow2(n))
    && Value(s) + drop * Weight(|s|) == Low(a, i) * (Pow2(n) * Weight(k))
  }

  lemma OrAdds(x: Limb, y: Limb, n: nat)
    requires x < Pow2(n) && y % Pow2(n) == 0
    ensures Or(x, y) == x + y && Or(y, x) == x + y
  {
    OrDisjoint(x, y, n);
  }

  lemma OrNothing(y: Limb)
    ensures Or(0, y) == y
  {
    OrZero(y);
  }

  /** What one limb contributes: its halves, at the places they go to. */
  lemma HalvesWeigh(x: Limb, lo: nat, hi: nat, p: nat, i: nat, k: nat)
    requires x * p == hi * B + lo
    ensures lo * Weight(i + k) + hi * Weight(i + k + 1) == (x * Weight(i)) * (p * Weight(k))
  {
    WeightAdd(i, k);
    var wi, wk := Weight(i), Weight(k);
    assert Weight(i + k + 1) == Weight(i + k) * B;
    hide Weight;
    var w := wi * wk;
    assert hi * (w * B) == (hi * B) * w by {
      Associate(hi, B, w);
    }
    Distribute(hi * B, lo, w);
    assert (x * p) * (wi * wk) == (x * wi) * (p * wk) by {
      Associate(x, p, wi * wk);
      Associate(x, wi, p * wk);
      Associate(p, wi, wk);
      Associate(wi, p, wk);
    }
  }

  lemma ShlStart(s: seq<Limb>, a: seq<Limb>, k: nat, n: nat)
    requires |s| == |a| && n < 32 && Value(s) == 0 && forall j :: 0 <= j < |s| ==> s[j] == 0
    ensures Shifted(s, a, 0, k, n, 0)
  {
    assert Low(a, 0) == 0;
    assert 0 * (Pow2(n) * Weight(k)) == 0;
  }

  lemma ShrStart(s: seq<Limb>, a: seq<Limb>, k: nat, n: nat)
    requires |s| == |a| && n < 32 && forall j :: 0 <= j < |s| ==> s[j] == 0
    ensures Unshifted(s, a, 0, k, n)
  {
  }

  /** The halves of limb `i`, shifted, and what they add to the shifted number. */
  ghost predicate Halves(a: seq<Limb>, i: nat, k: nat, n: nat, lo: Limb, hi: Limb) {
    && i < |a| && n < 32 && lo == ShlLimb(a[i], n) && hi == ShrLimb(a[i], 32 - n)
    && a[i] * Pow2(n) == hi * B + lo && lo % Pow2(n) == 0 && hi < Pow2(n)
    && Low(a, i + 1) * (Pow2(n) * Weight(k)) ==
       Low(a, i) * (Pow2(n) * Weight(k)) + lo * Weight(i + k) + hi * Weight(i + k + 1)
  }

  lemma HalvesOf(a: seq<Limb>, i: nat, k: nat, n: nat)
    requires i < |a| && n < 32
    ensures Halves(a, i, k, n, ShlLimb(a[i], n), ShrLimb(a[i], 32 - n))
  {
    var x := a[i];
    var lo, hi := ShlLimb(x, n), ShrLimb(x, 32 - n);
    SplitLimb(x, n);
    MultipleMod(x % Pow2(32 - n), Pow2(n));
    HalvesWeigh(x, lo, hi, Pow2(n), i, k);
    assert Low(a, i + 1) == Low(a, i) + x * Weight(i);
    Distribute(Low(a, i), x * Weight(i), Pow2(n) * Weight(k));
    hide Low;
    hide Weight;
    hide ShlLimb;
    hide ShrLimb;
  }

  lemma ShlStep(s: seq<Limb>, a: seq<Limb>, i: nat, k: nat, n: nat, drop: nat) returns (more: nat)
    requires i < |a| && n < 32 && Shifted(s, a, i, k, n, drop)
    ensures Shifted(ShlPut(s, a[i], i, k, n), a, i + 1, k, n, drop + more)
  {
    var lo, hi := ShlLimb(a[i], n), ShrLimb(a[i], 32 - n);
    HalvesOf(a, i, k, n);
    hide Shifted;
    hide ShlPut;
    hide Halves;
    hide ShlLimb;
    hide ShrLimb;
    if i + k + 1 < |s| {
      more := 0;
      ShlStepInside(s, a, i, k, n, drop, lo, hi);
    } else if i + k + 1 == |s| {
      more := hi;
      ShlStepTop(s, a, i, k, n, drop, lo, hi);
    } else {
      more := ShlStepBeyond(s, a, i, k, n, drop, lo, hi);
    }
  }

  lemma ShlStepInside(s: seq<Limb>, a: seq<Limb>, i: nat, k: nat, n: nat, drop: nat, lo: Limb, hi: Limb)
    requires Halves(a, i, k, n, lo, hi) && Shifted(s, a, i, k, n, drop) && i + k + 1 < |s|
    ensures Shifted(ShlPut(s, a[i], i, k, n), a, i + 1, k, n, drop)
  {
    hide Low;
    hide Weight;
    hide ShlLimb;
    hide ShrLimb;
    hide ShlPut;
    hide Pow2;
    ShlInside(s, a[i], i, k, n, lo, hi);
  }

  lemma ShlStepTop(s: seq<Limb>, a: seq<Limb>, i: nat, k: nat, n: nat, drop: nat, lo: Limb, hi: Limb)
    requires Halves(a, i, k, n, lo, hi) && Shifted(s, a, i, k, n, drop) && i + k + 1 == |s|
    ensures Shifted(ShlPut(s, a[i], i, k, n), a, i + 1, k, n, drop + hi)
  {
    hide Low;
    hide Weight;
    hide Pow2;
    OrAdds(s[i + k], lo, n);
    hide Or;
    hide ShlLimb;
    hide ShrLimb;
    LowUpdate(s, i + k, s[i + k] + lo, |s|);
    Distribute(drop, hi, Weight(|s|));
    Distribute(s[i + k], lo, Weight(i + k));
  }

  lemma ShlStepBeyond(s: seq<Limb>, a: seq<Limb>, i: nat, k: nat, n: nat, drop: nat, lo: Limb, hi: Limb) returns (more: nat)
    requires Halves(a, i, k, n, lo, hi) && Shifted(s, a, i, k, n, drop) && i + k + 1 > |s|
    ensures Shifted(ShlPut(s, a[i], i, k, n), a, i + 1, k, n, drop + more)
  {
    var d := i + k - |s|;
    more := a[i] * Pow2(n) * Weight(d);
    WeightAdd(d, |s|);
    assert Weight(i + k + 1) == Weight(i + k) * B;
    hide Low;
    hide Weight;
    hide Pow2;
    hide ShlLimb;
    hide ShrLimb;
    BeyondWeighs(a[i], lo, hi, Pow2(n), Weight(d), Weight(|s|), Weight(i + k), Weight(i + k + 1));
    Distribute(drop, more, Weight(|s|));
  }

  lemma BeyondWeighs(x: nat, lo: nat, hi: nat, p: nat, wd: nat, w: nat, wik: nat, wik1: nat)
    requires x * p == hi * B + lo && wik == wd * w && wik1 == wik * B
    ensures lo * wik + hi * wik1 == x * p * wd * w
  {
    assert hi * (wik * B) == (hi * B) * wik by {
      Associate(hi, B, wik);
    }
    Distribute(hi * B, lo, wik);
    Associate(x * p, wd, w);
  }

  lemma ShlInside(s: seq<Limb>, x: Limb, i: nat, k: nat, n: nat, lo: Limb, hi: Limb)
    requires n < 32 && i + k + 1 < |s| && s[i + k] < Pow2(n) && s[i + k + 1] == 0
    requires lo == ShlLimb(x, n) && hi == ShrLimb(x, 32 - n) && lo % Pow2(n) == 0 && hi < Pow2(n)
    ensures var t := ShlPut(s, x, i, k, n);
            && Value(t) == Value(s) + lo * Weight(i + k) + hi * Weight(i + k + 1)
            && t[i + k + 1] == hi
            && forall j :: 0 <= j < |s| && j != i + k && j != i + k + 1 ==> t[j] == s[j]
  {
    assert n == 0 ==> hi == 0;
    hide Or;
    hide ShlLimb;
    hide ShrLimb;
    hide Pow2;
    hide Low;
    hide Weight;
    OrAdds(s[i + k], lo, n);
    OrNothing(hi);
    TwoUpdatesUp(s, i + k, s[i + k] + lo, hi);
    if n == 0 {
      assert s[i + k + 1 := hi] == s;
    }
    assert ShlPut(s, x, i, k, n) == s[i + k + 1 := hi][i + k := s[i + k] + lo];
  }

  lemma TwoUpdatesUp(s: seq<Limb>, d: nat, x: Limb, y: Limb)
    requires d + 1 < |s| && s[d + 1] == 0
    ensures Value(s[d + 1 := y][d := x]) == Value(s) + (x - s[d]) * Weight(d) + y * Weight(d + 1)
  {
    LowUpdate(s, d + 1, y, |s|);
    LowUpdate(s[d + 1 := y], d, x, |s|);
    hide Low;
    hide Weight;
  }

  lemma ShlDone(s: seq<Limb>, a: seq<Limb>, k: nat, n: nat, drop: nat)
    requires Shifted(s, a, |a|, k, n, drop)
    ensures Value(s) == Mod(Value(a) * Pow2(32 * k + n), Weight(|s|))
  {
    WeightIsPow(k);
    PowAdd(n, 32 * k);
    assert n + 32 * k == 32 * k + n;
    ModWeight(s, Value(a) * Pow2(32 * k + n), drop);
  }

  function ShrPut(s: seq<Limb>, x: Limb, i: nat, k: nat, n: nat): (t: seq<Limb>)
    requires n < 32 && i < |s|
    ensures |t| == |s|
  {
    var t := if i >= k + 1 && n != 0 then s[i - k - 1 := Or(s[i - k - 1], ShlLimb(x, 32 - n))] else s;
    if i >= k then t[i - k := Or(t[i - k], ShrLimb(x, n))] else t
  }

  /** The low `i` limbs of `a` are shifted right; only what was below the shift is gone. */
  ghost predicate Unshifted(s: seq<Limb>, a: seq<Limb>, i: nat, k: nat, n: nat) {
    && i <= |a| == |s| && n < 32
    && (forall j :: 0 <= j < |s| && j >= i - k ==> s[j] == 0)
    && (i > k ==>
          && s[i - k - 1] < Pow2(32 - n)
          && Low(a, i) == Low(a, k) + (Pow2(n) * Value(s) + a[k] % Pow2(n)) * Weight(k))
  }

  lemma ShrStep(s: seq<Limb>, a: seq<Limb>, i: nat, k: nat, n: nat)
    requires i < |a| && n < 32 && Unshifted(s, a, i, k, n)
    ensures Unshifted(ShrPut(s, a[i], i, k, n), a, i + 1, k, n)
  {
    if i < k {
    } else if i == k {
      ShrFirst(s, a, k, n);
    } else {
      ShrInside(s, a, i, k, n);
    }
  }

  /** The limb in the lowest place. */
  lemma ShrFirstPut(s: seq<Limb>, x: Limb, k: nat, n: nat)
    requires k < |s| && n < 32 && forall j :: 0 <= j < |s| ==> s[j] == 0
    ensures ShrPut(s, x, k, k, n) == s[0 := ShrLimb(x, n)] && Value(ShrPut(s, x, k, k, n)) == ShrLimb(x, n)
  {
    var q := ShrLimb(x, n);
    OrNothing(q);
    AllZero(s, |s|);
    LowUpdate(s, 0, q, |s|);
    assert Weight(0) == 1;
    hide Low;
  }

  lemma ShrFirst(s: seq<Limb>, a: seq<Limb>, k: nat, n: nat)
    requires k < |a| && n < 32 && Unshifted(s, a, k, k, n)
    ensures Unshifted(ShrPut(s, a[k], k, k, n), a, k + 1, k, n)
  {
    var x, p := a[k], Pow2(n);
    ShrFirstPut(s, x, k, n);
    SplitLimb(x, 32 - n);
    assert Low(a, k + 1) == Low(a, k) + x * Weight(k);
    hide Low;
    hide Weight;
    hide ShrPut;
    assert 32 - (32 - n) == n;
    QuotientRemainder(x, p, ShrLimb(x, n));
    hide ShrLimb;
    hide ShlLimb;
    hide Pow2;
  }

  lemma QuotientRemainder(x: nat, p: nat, q: nat)
    requires p > 0 && q == x / p
    ensures x == p * q + x % p && x == q * p + x % p
  {
  }

  /** The two updates of an inner limb. */
  lemma ShrInsidePut(s: seq<Limb>, x: Limb, i: nat, k: nat, n: nat)
    requires k < i < |s| && n < 32 && s[i - k - 1] < Pow2(32 - n) && s[i - k] == 0
    ensures var t := ShrPut(s, x, i, k, n);
            && Value(t) == Value(s) + ((x % Pow2(n)) * Pow2(32 - n)) * Weight(i - k - 1) + ShrLimb(x, n) * Weight(i - k)
            && t[i - k] == ShrLimb(x, n)
            && forall j :: 0 <= j < |s| && j != i - k && j != i - k - 1 ==> t[j] == s[j]
  {
    hide *;
    var d, up, q := i - k, ShlLimb(x, 32 - n), ShrLimb(x, n);
    ShrHalves(x, s[d - 1], n);
    TwoUpdates(s, d, Or(s[d - 1], up), q);
    ShrPutIs(s, x, i, k, n);
  }

  lemma ShrPutIs(s: seq<Limb>, x: Limb, i: nat, k: nat, n: nat)
    requires k < i < |s| && n < 32 && s[i - k] == 0 && Or(0, ShrLimb(x, n)) == ShrLimb(x, n)
    requires n == 0 ==> Or(s[i - k - 1], ShlLimb(x, 32 - n)) == s[i - k - 1]
    ensures ShrPut(s, x, i, k, n) == s[i - k - 1 := Or(s[i - k - 1], ShlLimb(x, 32 - n))][i - k := ShrLimb(x, n)]
  {
    hide Or;
    hide ShlLimb;
    hide ShrLimb;
    if n == 0 {
      assert s[i - k - 1 := s[i - k - 1]] == s;
    }
  }

  lemma ShrHalves(x: Limb, y: Limb, n: nat)
    requires n < 32 && y < Pow2(32 - n)
    ensures Or(y, ShlLimb(x, 32 - n)) == y + (x % Pow2(n)) * Pow2(32 - n)
    ensures Or(0, ShrLimb(x, n)) == ShrLimb(x, n)
    ensures n == 0 ==> Or(y, ShlLimb(x, 32 - n)) == y
  {
    SplitLimb(x, 32 - n);
    assert 32 - (32 - n) == n;
    MultipleMod(x % Pow2(n), Pow2(32 - n));
    OrAdds(y, ShlLimb(x, 32 - n), 32 - n);
    OrNothing(ShrLimb(x, n));
    hide Or;
    hide ShlLimb;
    hide ShrLimb;
    if n == 0 {
      assert x % Pow2(n) == 0;
    }
  }

  lemma TwoUpdates(s: seq<Limb>, d: nat, x: Limb, y: Limb)
    requires 0 < d < |s| && s[d] == 0
    ensures var t := s[d - 1 := x][d := y];
            Value(t) == Value(s) + (x - s[d - 1]) * Weight(d - 1) + y * Weight(d)
  {
    LowUpdate(s, d - 1, x, |s|);
    LowUpdate(s[d - 1 := x], d, y, |s|);
    hide Low;
    hide Weight;
  }

  lemma ShrInside(s: seq<Limb>, a: seq<Limb>, i: nat, k: nat, n: nat)
    requires k < i < |a| && n < 32 && Unshifted(s, a, i, k, n)
    ensures Unshifted(ShrPut(s, a[i], i, k, n), a, i + 1, k, n)
  {
    var x, p, d := a[i], Pow2(n), i - k;
    ShrInsidePut(s, x, i, k, n);
    SplitLimb(x, 32 - n);
    assert 32 - (32 - n) == n;
    Pow2Of32();
    PowAdd(n, 32 - n);
    WeightAdd(d, k);
    assert d + k == i;
    assert Weight(d) == Weight(d - 1) * B;
    assert Low(a, i + 1) == Low(a, i) + x * Weight(i);
    QuotientRemainder(x, p, ShrLimb(x, n));
    hide Low;
    hide Weight;
    hide Pow2;
    hide ShrPut;
    hide ShrLimb;
    hide ShlLimb;
    ShrAlgebra(Value(s), Value(ShrPut(s, x, i, k, n)), a[k] % p, x, ShrLimb(x, n), x % p, p, Pow2(32 - n), Weight(d - 1), Weight(k));
  }

  lemma ShrAlgebra(v: int, v2: int, r0: int, x: int, q: int, r: int, p: int, m: int, w: int, wk: int)
    requires v2 == v + (r * m) * w + q * (w * B) && x == q * p + r && p * m == B
    ensures (p * v2 + r0) * wk == (p * v + r0) * wk + x * (w * B * wk)
  {
    assert p * v2 == p * v + x * (w * B) by {
      assert p * ((r * m) * w) == r * (w * B) by {
        assert p * ((r * m) * w) == (p * m) * (r * w) by {
          Associate(r, m, w);
          Associate(p, m, r * w);
          Associate(m, r, w);
        }
        assert B * (r * w) == r * (w * B) by {
          Associate(r, w, B);
        }
      }
      assert p * (q * (w * B)) == (q * p) * (w * B) by {
        Associate(p, q, w * B);
      }
      Distribute(q * p, r, w * B);
      assert p * (v + (r * m) * w + q * (w * B)) == p * v + p * ((r * m) * w) + p * (q * (w * B));
    }
    Distribute(p * v + r0, x * (w * B), wk);
    Associate(x, w * B, wk);
  }

  lemma ShrDone(s: seq<Limb>, a: seq<Limb>, k: nat, n: nat)
    requires n < 32 && Unshifted(s, a, |a|, k, n)
    ensures Value(s) == Value(a) / Pow2(32 * k + n)
  {
    WeightIsPow(k);
    PowAdd(n, 32 * k);
    assert n + 32 * k == 32 * k + n;
    var p, w := Pow2(n), Weight(k);
    if |a| > k {
      LowBound(a, k);
      var v, r0, l := Value(s), a[k] % p, Low(a, k);
      hide Low;
      hide Weight;
      assert r0 < p;
      DivTwice(Value(a), v, r0, l, p, w);
    } else {
      AllZero(s, |s|);
      LowBound(a, |a|);
      WeightIsPow(|a|);
      PowMonotone(32 * |a|, 32 * k + n);
      DivModUnique(Value(a), 0, Value(a), Pow2(32 * k + n));
    }
  }

  lemma DivTwice(a: nat, v: nat, r: nat, l: nat, p: nat, w: nat)
    requires p > 0 && w > 0 && r < p && l < w && a == l + (p * v + r) * w
    ensures a / (p * w) == v
  {
    assert (p * v + r) * w == v * (p * w) + r * w by {
      Distribute(p * v, r, w);
      assert (p * v) * w == v * (p * w) by {
        Associate(v, p, w);
      }
    }
    assert r * w + w <= p * w by {
      MulAtMost(r + 1, p, w);
      Distribute(r, 1, w);
    }
    assert p * w > 0;
    DivModUnique(a, v, r * w + l, p * w);
  }

  // ----- Counting bits

  /** `r` is the position of the highest bit plus one, or zero. */
  ghost predicate IsBits(v: nat, r: nat) {
    if r == 0 then v == 0 else Pow2(r - 1) <= v < Pow2(r)
  }

  predicate BitSet(x: nat, n: nat) {
    x / Pow2(n) % 2 == 1
  }

  lemma TopBit(x: nat, n: nat)
    requires x < Pow2(n + 1)
    ensures BitSet(x, n) <==> x >= Pow2(n)
  {
    var p := Pow2(n);
    assert Pow2(n + 1) == 2 * p;
    if x >= p {
      DivModUnique(x, 1, x - p, p);
    } else {
      DivModUnique(x, 0, x, p);
    }
  }

  lemma LimbBits(s: seq<Limb>, pos: nat, n: nat)
    requires pos < |s| && forall j :: pos < j < |s| ==> s[j] == 0
    requires Pow2(n) <= s[pos] < Pow2(n + 1)
    ensures IsBits(Value(s), 32 * pos + n + 1)
  {
    ZeroTop(s, pos + 1);
    LowBound(s, pos);
    assert Value(s) == Low(s, pos) + s[pos] * Weight(pos);
    WeightIsPow(pos);
    PowAdd(n, 32 * pos);
    PowAdd(n + 1, 32 * pos);
    assert n + 32 * pos == 32 * pos + n && n + 1 + 32 * pos == 32 * pos + n + 1;
    Between(Low(s, pos), s[pos], Weight(pos), Pow2(n), Pow2(n + 1));
    hide Low;
    hide Weight;
    hide Pow2;
  }

  lemma Between(l: nat, x: nat, w: nat, p: nat, q: nat)
    requires l < w && p <= x < q
    ensures p * w <= l + x * w < q * w
  {
    MulAtMost(p, x, w);
    MulAtMost(x + 1, q, w);
    Distribute(x, 1, w);
  }

  // ----- Dividing

  /** Bits below `p` are zero. */
  ghost predicate Clear(s: seq<Limb>, p: nat) {
    && (forall i :: 0 <= i < |s| && i < p / 32 ==> s[i] == 0)
    && (p / 32 < |s| ==> s[p / 32] % Pow2(p % 32) == 0)
  }

  function WithBit(s: seq<Limb>, shift: nat): (t: seq<Limb>)
    requires shift / 32 < |s|
    ensures |t| == |s|
  {
    s[shift / 32 := Or(s[shift / 32], ShlLimb(1, shift % 32))]
  }

  lemma BitLimb(n: nat)
    requires n < 32
    ensures ShlLimb(1, n) == Pow2(n) && Pow2(n + 1) == 2 * Pow2(n) && Pow2(n) < B
  {
    Pow2Of32();
    PowMonotone(n, 32);
    assert 1 * Pow2(n) == Pow2(n);
  }

  lemma HalfModulus(x: nat, p: nat)
    requires p > 0 && x % (2 * p) == 0
    ensures x % p == 0 && (x + p) % p == 0
  {
    var q := x / (2 * p);
    assert x == q * (2 * p) == (2 * q) * p by {
      Associate(q, 2, p);
    }
    DivModUnique(x, 2 * q, 0, p);
    Distribute(2 * q, 1, p);
    DivModUnique(x + p, 2 * q + 1, 0, p);
  }

  lemma BelowBit(s: seq<Limb>, shift: nat)
    requires shift / 32 < |s| && Clear(s, shift + 1)
    ensures var x, n := s[shift / 32], shift % 32; x % Pow2(n + 1) == 0
  {
    if shift % 32 == 31 {
      assert (shift + 1) / 32 == shift / 32 + 1;
      assert s[shift / 32] == 0;
    } else {
      assert (shift + 1) / 32 == shift / 32 && (shift + 1) % 32 == shift % 32 + 1;
    }
  }

  lemma BitAdds(x: Limb, n: nat)
    requires n < 32 && x % Pow2(n + 1) == 0
    ensures Or(x, ShlLimb(1, n)) == x + Pow2(n)
    ensures x % Pow2(n) == 0 && (x + Pow2(n)) % Pow2(n) == 0
  {
    hide *;
    BitLimb(n);
    OrAdds(Pow2(n), x, n + 1);
    HalfModulus(x, Pow2(n));
  }

  /** Setting a bit above which alone the number has bits adds its weight. */
  lemma SetBit(s: seq<Limb>, shift: nat)
    requires shift / 32 < |s| && Clear(s, shift + 1)
    ensures Value(WithBit(s, shift)) == Value(s) + Pow2(shift)
    ensures Clear(WithBit(s, shift), shift) && Clear(s, shift)
  {
    hide Pow2;
    hide Or;
    hide ShlLimb;
    hide Low;
    hide Weight;
    var k, n := shift / 32, shift % 32;
    BelowBit(s, shift);
    BitAdds(s[k], n);
    assert k <= (shift + 1) / 32;
    SetWeight(s, k, n);
  }

  lemma SetWeight(s: seq<Limb>, k: nat, n: nat)
    requires k < |s| && Or(s[k], ShlLimb(1, n)) == s[k] + Pow2(n)
    ensures Value(s[k := Or(s[k], ShlLimb(1, n))]) == Value(s) + Pow2(32 * k + n)
  {
    LowUpdate(s, k, s[k] + Pow2(n), |s|);
    WeightIsPow(k);
    PowAdd(n, 32 * k);
    hide Pow2;
  }

  /** The state of the long division: bits from `shift` on are decided. */
  ghost predicate Dividing(num: nat, den: nat, q: nat, rest: nat, shift: int) {
    shift >= -1 && rest + q * den == num && rest < Times(den, shift + 1)
  }

  lemma TimesDouble(den: nat, shift: nat)
    ensures Times(den, shift + 1) == 2 * Times(den, shift)
  {
    assert Pow2(shift + 1) == 2 * Pow2(shift);
    Associate(den, 2, Pow2(shift));
    Associate(2, den, Pow2(shift));
  }

  lemma DivideStep(num: nat, den: nat, q: nat, rest: nat, shift: nat)
    requires Dividing(num, den, q, rest, shift)
    ensures rest < Times(den, shift) ==> Dividing(num, den, q, rest, shift - 1)
    ensures rest >= Times(den, shift) ==> Dividing(num, den, q + Pow2(shift), rest - Times(den, shift), shift - 1)
    ensures shift > 0 ==> Times(den, shift) / 2 == Times(den, shift - 1)
  {
    TimesDouble(den, shift);
    assert Times(den, shift) == Pow2(shift) * den;
    Distribute(q, Pow2(shift), den);
    if shift > 0 {
      TimesDouble(den, shift - 1);
    }
    assert shift - 1 + 1 == shift;
    hide Times;
    hide Pow2;
  }

  lemma DivideStart(num: nat, den: nat, nb: nat, db: nat, width: nat)
    requires IsBits(num, nb) && IsBits(den, db) && 0 < db <= nb && num < Weight(width)
    ensures Dividing(num, den, 0, num, nb - db)
    ensures Times(den, nb - db) < Weight(width) && nb - db < 32 * width
  {
    var shift := nb - db;
    WeightIsPow(width);
    if nb > 32 * width {
      PowMonotone(32 * width, nb - 1);
    }
    PowMonotone(nb, 32 * width);
    PowAdd(db - 1, shift + 1);
    assert db - 1 + (shift + 1) == nb;
    PowAdd(db, shift);
    assert db + shift == nb;
    hide Pow2;
    hide Weight;
    MulAtMost(Pow2(db - 1), den, Pow2(shift + 1));
    MulLess(den, Pow2(db), Pow2(shift));
  }

  lemma DivideDone(num: nat, den: nat, q: nat, rest: nat)
    requires Dividing(num, den, q, rest, -1)
    ensures den > 0 && q == num / den
  {
    assert Pow2(0) == 1;
    DivModUnique(num, q, rest, den);
  }

  lemma NoBitsBelow(num: nat, den: nat, nb: nat, db: nat)
    requires IsBits(num, nb) && IsBits(den, db) && db > nb
    ensures num / den == 0
  {
    PowMonotone(nb, db - 1);
    DivModUnique(num, 0, num, den);
  }

  lemma ModSmall(a: nat, m: nat)
    requires a < m
    ensures Mod(a, m) == a
  {
  }

  lemma ScaleMultiple(c: nat, a: nat, m: nat)
    requires c > 0 && m > 0
    ensures Mod(c * a, c * m) == 0 <==> Mod(a, m) == 0
  {
    var q, r := a / m, a % m;
    assert a == q * m + r;
    assert c * a == q * (c * m) + c * r by {
      Distribute(q * m, r, c);
      Associate(q, m, c);
    }
    MulLess(r, m, c);
    assert c * r >= 0;
    DivModUnique(c * a, q, c * r, c * m);
    assert c * r == 0 <==> r == 0;
  }

  lemma OddMultiple(a: nat, m: nat)
    requires m > 0
    ensures a % 2 == 1 ==> Mod(a, 2 * m) != 0
  {
    var q, r := a / (2 * m), a % (2 * m);
    assert a == q * (2 * m) + r;
    Associate(2, q, m);
    assert a == 2 * (q * m) + r;
  }

  lemma OddSquare(x: nat)
    requires x % 2 == 1
    ensures (x * x) % 2 == 1
  {
    var y := x / 2;
    Distribute(2 * y, 1, x);
    assert x * x == 2 * (y * x) + x by {
      Associate(2, y, x);
    }
  }

  /** A square is a multiple of 2^(2m) exactly if its root is one of 2^m. */
  lemma {:induction false} SquareMultiple(x: nat, m: nat)
    ensures Mod(x * x, Pow2(2 * m)) == 0 <==> Mod(x, Pow2(m)) == 0
  {
    if m > 0 {
      var p, q := Pow2(m - 1), Pow2(2 * m - 2);
      assert Pow2(m) == 2 * p && Pow2(2 * m) == 2 * (2 * q);
      if x % 2 == 1 {
        OddSquare(x);
        OddMultiple(x, p);
        OddMultiple(x * x, 2 * q);
      } else {
        var y := x / 2;
        SquareMultiple(y, m - 1);
        assert x == 2 * y && x * x == 4 * (y * y) && 2 * (2 * q) == 4 * q;
        ScaleMultiple(2, y, p);
        ScaleMultiple(4, y * y, q);
      }
    }
  }

  lemma SquareVanishes(x: nat, n: nat)
    ensures 0 == Mod(x * x, Weight(n)) <==> Mod(x, Pow2(16 * n)) == 0
  {
    WeightIsPow(n);
    SquareMultiple(x, 16 * n);
  }

  lemma TwoLimbs(s: seq<Limb>)
    requires |s| >= 2 && forall j :: 2 <= j < |s| ==> s[j] == 0
    ensures Value(s) == s[0] + s[1] * B
  {
    ZeroTop(s, 2);
    assert Weight(0) == 1 && Weight(1) == B;
    assert Low(s, 0) == 0 && Low(s, 1) == s[0] && Low(s, 2) == Low(s, 1) + s[1] * B;
  }

  lemma HighLimb(s: seq<Limb>, i: nat, low: Limb, high: Limb)
    requires 2 <= i < |s| && s[i] != 0
    ensures Value(s) > low + high * B
  {
    var q := LowRest(s, i + 1, |s|);
    assert Low(s, i + 1) == Low(s, i) + s[i] * Weight(i);
    WeightAdd(i - 2, 2);
    assert i - 2 + 2 == i && Weight(1) == B && Weight(2) == B * B;
    hide Low;
    hide Weight;
    MulAtMost(1, s[i], Weight(i));
    MulAtMost(1, Weight(i - 2), B * B);
    assert q * Weight(i + 1) >= 0;
  }

  class BaseUint {
    const pn: array<Limb>

    ghost function Val(): nat
      reads pn
    {
      Value(pn[..])
    }

    /** 2^BITS. */
    ghost function Modulus(): nat {
      Weight(pn.Length)
    }

    constructor Zero(width: nat)
      ensures fresh(pn) && pn.Length == width && Val() == 0
    {
      pn := new Limb[width](_ => 0);
      new;
      AllZero(pn[..], pn.Length);
    }

    constructor Copy(b: BaseUint)
      ensures fresh(pn) && pn[..] == b.pn[..]
    {
      var source := b.pn;
      pn := new Limb[source.Length](i requires 0 <= i < source.Length reads source => source[i]);
    }

    /** Set from a 64-bit number, here given by its two halves. */
    method Assign(low: Limb, high: Limb)
      requires pn.Length >= 2
      modifies pn
      ensures Val() == low + high * B
    {
      pn[0] := low;
      pn[1] := high;
      var i := 2;
      while i < pn.Length
        invariant 2 <= i <= pn.Length && pn[0] == low && pn[1] == high
        invariant forall j :: 2 <= j < i ==> pn[j] == 0
      {
        pn[i] := 0;
        i := i + 1;
      }
      ZeroTop(pn[..], 2);
      assert Weight(1) == B;
      assert Low(pn[..], 2) == Low(pn[..], 1) + high * Weight(1);
    }

    method AddAssign(b: BaseUint)
      requires b.pn.Length == pn.Length
      modifies pn
      ensures Val() == Mod(old(Val()) + old(b.Val()), Modulus())
    {
      ghost var x, y := pn[..], b.pn[..];
      assert Summed(x, x, y, 0, 0);
      hide Low;
      hide Weight;
      hide Summed;
      hide Lo;
      hide Hi;
      var carry: Limb, i: nat := 0, 0;
      while i < pn.Length
        invariant i <= pn.Length
        invariant forall j :: i <= j < pn.Length ==> pn[j] == x[j] && b.pn[j] == y[j]
        invariant Summed(pn[..], x, y, i, carry)
      {
        ghost var s := pn[..];
        AddStep(s, x, y, i, carry);
        var n: nat := carry + pn[i] + b.pn[i];
        pn[i] := Lo(n);
        assert pn[..] == s[i := Lo(n)];
        carry := Hi(n);
        i := i + 1;
      }
      SumDone(pn[..], x, y, carry);
    }

    method BitNot() returns (ret: BaseUint)
      ensures fresh(ret) && fresh(ret.pn) && ret.pn.Length == pn.Length
      ensures ret.Val() == Modulus() - 1 - Val()
    {
      ret := new BaseUint.Zero(pn.Length);
      var i := 0;
      ghost var x := pn[..];
      while i < pn.Length
        invariant i <= pn.Length == ret.pn.Length && pn[..] == x
        invariant Low(ret.pn[..], i) == Weight(i) - 1 - Low(x, i)
      {
        ghost var s := ret.pn[..];
        var digit: Limb := B - 1 - pn[i];
        ret.pn[i] := digit;
        assert ret.pn[..] == s[i := digit];
        LowSame(s, ret.pn[..], i);
        Distribute(B - 1 - x[i], x[i], Weight(i));
        Distribute(B - 1, 1, Weight(i));
        i := i + 1;
      }
    }

    method Increment()
      modifies pn
      ensures Val() == Mod(old(Val()) + 1, Modulus())
    {
      ghost var x := Val();
      hide Low;
      hide Lo;
      var i, carry := 0, true;
      while i < pn.Length && carry
        invariant 0 <= i <= pn.Length
        invariant Val() + (if carry then Weight(i) else 0) == x + 1
        decreases pn.Length - i, carry
      {
        ghost var s := pn[..];
        pn[i] := Lo(pn[i] as int + 1);
        assert pn[..] == s[i := Lo(s[i] as int + 1)];
        IncrementStep(s, i);
        hide Weight;
        if pn[i] == 0 {
          i := i + 1;
        } else {
          carry := false;
        }
      }
      ModWeight(pn[..], x + 1, if carry then 1 else 0);
    }

    method Decrement()
      modifies pn
      ensures Val() == Mod(old(Val()) - 1, Modulus())
    {
      ghost var x: int := Val();
      hide Low;
      var i, borrow := 0, true;
      while i < pn.Length && borrow
        invariant 0 <= i <= pn.Length
        invariant Val() - (if borrow then Weight(i) else 0) == x - 1
        decreases pn.Length - i, borrow
      {
        ghost var s := pn[..];
        DecrementStep(s, i);
        pn[i] := Less(pn[i]);
        assert pn[..] == s[i := Less(s[i])];
        hide Weight;
        if pn[i] == B - 1 {
          i := i + 1;
        } else {
          borrow := false;
        }
      }
      ModWeight(pn[..], x - 1, if borrow then -1 else 0);
    }

    method Negate() returns (ret: BaseUint)
      ensures fresh(ret) && fresh(ret.pn) && ret.pn.Length == pn.Length
      ensures ret.Val() == Mod(0 - Val(), Modulus())
    {
      ret := BitNot();
      ret.Increment();
      LowBound(pn[..], pn.Length);
      hide Weight;
      hide Low;
      Wrap(0 - Val(), Modulus());
    }

    method SubAssign(b: BaseUint)
      requires b.pn.Length == pn.Length
      modifies pn
      ensures Val() == Mod(old(Val()) - old(b.Val()), Modulus())
    {
      ghost var x: int, y: int := Val(), b.Val();
      hide Low;
      hide Weight;
      hide Value;
      hide Mod;
      var minus := b.Negate();
      ghost var m := Modulus();
      AddAssign(minus);
      AddMod(x, 0 - y, m);
      assert x + (0 - y) == x - y;
    }

    method MulAssign32(b: Limb)
      modifies pn
      ensures Val() == Mod(old(Val()) * b, Modulus())
    {
      ghost var x := pn[..];
      assert Scaled(x, x, b, 0, 0);
      hide Low;
      hide Weight;
      hide Scaled;
      hide Wide;
      hide Lo;
      hide Hi;
      var carry: Limb, i: nat := 0, 0;
      while i < pn.Length
        invariant i <= pn.Length
        invariant forall j :: i <= j < pn.Length ==> pn[j] == x[j]
        invariant Scaled(pn[..], x, b, i, carry)
      {
        ghost var s := pn[..];
        ScaleStep(s, x, b, i, carry);
        var n := Wide(carry, 0, b, pn[i]);
        pn[i] := Lo(n);
        assert pn[..] == s[i := Lo(n)];
        carry := Hi(n);
        i := i + 1;
      }
      ScaleDone(pn[..], x, b, carry);
    }

    /** The product; but the operand is read after this number was cleared, so a number multiplied by itself
        becomes zero, which is its square exactly if the low half of its bits is zero. */
    method MulAssign(b: BaseUint)
      requires b.pn.Length == pn.Length
      modifies pn
      ensures Val() == if b.pn == pn then 0 else Mod(old(Val()) * old(b.Val()), Modulus())
      ensures b.pn == pn ==> (Val() == Mod(old(Val()) * old(Val()), Modulus()) <==> Mod(old(Val()), Pow2(16 * pn.Length)) == 0)
    {
      SquareVanishes(Val(), pn.Length);
      var a := pn[..];
      SetZero();
      ghost var y := b.pn[..];
      assert b.pn == pn ==> b.Val() == 0;
      var j := 0;
      ghost var q: nat := 0;
      while j < pn.Length
        invariant j <= pn.Length && b.pn[..] == y
        invariant Val() + q * Modulus() == Low(a, j) * Value(y)
      {
        ghost var before := Val();
        ghost var dropped := AddProduct(b, a[j], j);
        hide Low;
        ghost var beyond := BeyondTop(y, a[j], j);
        RowStep(a, j, Value(y), before, q, Modulus(), Val(), dropped, beyond);
        q := q + dropped + beyond;
        j := j + 1;
      }
      hide Low;
      hide Weight;
      ModWeight(pn[..], Value(a) * Value(y), q);
    }

    method SetZero()
      modifies pn
      ensures Val() == 0 && forall j :: 0 <= j < pn.Length ==> pn[j] == 0
    {
      var i := 0;
      while i < pn.Length
        invariant i <= pn.Length && forall j :: 0 <= j < i ==> pn[j] == 0
      {
        pn[i] := 0;
        i := i + 1;
      }
      AllZero(pn[..], pn.Length);
    }

    /** One row of the product: add `a` times `b` shifted by `j` limbs; what leaves at the top is returned. */
    method AddProduct(b: BaseUint, a: Limb, j: nat) returns (ghost dropped: nat)
      requires b.pn.Length == pn.Length && j < pn.Length
      requires b.pn == pn ==> forall k :: 0 <= k < pn.Length ==> pn[k] == 0
      modifies pn
      ensures b.pn[..] == old(b.pn[..])
      ensures Val() + dropped * Modulus() == old(Val()) + a * Low(b.pn[..], pn.Length - j) * Weight(j)
    {
      ghost var before := Val();
      ghost var y := b.pn[..];
      RowStart(pn[..], y, a, j);
      hide Low;
      hide Weight;
      hide RowSummed;
      hide Wide;
      hide Lo;
      hide Hi;
      var carry: Limb, i: nat := 0, 0;
      while i + j < pn.Length
        invariant i + j <= pn.Length && b.pn[..] == y
        invariant b.pn == pn ==> carry == 0 && forall k :: 0 <= k < |y| ==> y[k] == 0
        invariant RowSummed(pn[..], y, a, i, j, carry, before)
      {
        ghost var s := pn[..];
        ProductStep(s, y, a, i, j, carry, before);
        NothingWide(a);
        var n := Wide(carry, pn[i + j], a, b.pn[i]);
        pn[i + j] := Lo(n);
        assert pn[..] == s[i + j := Lo(n)];
        carry := Hi(n);
        i := i + 1;
      }
      RowDone(pn[..], y, a, i, j, carry, before);
      dropped := carry;
    }

    /** Comparison with a 64-bit number given by its halves. */
    method EqualTo(low: Limb, high: Limb) returns (r: bool)
      requires pn.Length >= 2
      ensures r <==> Val() == low + high * B
    {
      ghost var s := pn[..];
      hide Low;
      hide Weight;
      var i := pn.Length;
      while i > 2
        invariant 2 <= i <= pn.Length && forall j :: i <= j < pn.Length ==> pn[j] == 0
      {
        i := i - 1;
        if pn[i] != 0 {
          HighLimb(s, i, low, high);
          return false;
        }
      }
      TwoLimbs(s);
      return pn[1] == high && pn[0] == low;
    }

    method CompareTo(b: BaseUint) returns (r: int)
      requires b.pn.Length == pn.Length
      ensures Val() < b.Val() ==> r == -1
      ensures Val() == b.Val() ==> r == 0
      ensures Val() > b.Val() ==> r == 1
    {
      ghost var x, y := pn[..], b.pn[..];
      hide Low;
      var i := pn.Length;
      while i > 0
        invariant 0 <= i <= pn.Length
        invariant forall j :: i <= j < pn.Length ==> pn[j] == b.pn[j]
      {
        i := i - 1;
        if pn[i] < b.pn[i] {
          HighestDecides(x, y, i);
          return -1;
        }
        if pn[i] > b.pn[i] {
          HighestDecides(y, x, i);
          return 1;
        }
      }
      assert x == y;
      return 0;
    }

    /** One limb of the operand goes to its two places. */
    method PutLeft(x: Limb, i: nat, k: nat, n: nat)
      requires n < 32
      modifies pn
      ensures pn[..] == ShlPut(old(pn[..]), x, i, k, n)
    {
      hide Or;
      hide ShlLimb;
      hide ShrLimb;
      if i + k + 1 < pn.Length && n != 0 {
        pn[i + k + 1] := Or(pn[i + k + 1], ShrLimb(x, 32 - n));
      }
      if i + k < pn.Length {
        pn[i + k] := Or(pn[i + k], ShlLimb(x, n));
      }
    }

    method PutRight(x: Limb, i: nat, k: nat, n: nat)
      requires n < 32 && i < pn.Length
      modifies pn
      ensures pn[..] == ShrPut(old(pn[..]), x, i, k, n)
    {
      hide Or;
      hide ShlLimb;
      hide ShrLimb;
      if i - k - 1 >= 0 && n != 0 {
        pn[i - k - 1] := Or(pn[i - k - 1], ShlLimb(x, 32 - n));
      }
      if i - k >= 0 {
        pn[i - k] := Or(pn[i - k], ShrLimb(x, n));
      }
    }

    method ShlAssign(shift: nat)
      modifies pn
      ensures Val() == Mod(old(Val()) * Pow2(shift), Modulus())
    {
      var a := pn[..];
      SetZero();
      var k, n := shift / 32, shift % 32;
      ShlStart(pn[..], a, k, n);
      hide Low;
      hide Value;
      hide Weight;
      hide Pow2;
      hide Or;
      hide ShlLimb;
      hide ShrLimb;
      hide Mod;
      hide Shifted;
      var i: nat := 0;
      ghost var drop: nat := 0;
      while i < pn.Length
        invariant 0 <= i <= pn.Length == |a|
        invariant Shifted(pn[..], a, i, k, n, drop)
      {
        ghost var s := pn[..];
        ghost var more := ShlStep(s, a, i, k, n, drop);
        PutLeft(a[i], i, k, n);
        drop := drop + more;
        i := i + 1;
      }
      ShlDone(pn[..], a, k, n, drop);
    }

    method ShrAssign(shift: nat)
      modifies pn
      ensures Val() == old(Val()) / Pow2(shift)
    {
      var a := pn[..];
      SetZero();
      var k, n := shift / 32, shift % 32;
      ShrStart(pn[..], a, k, n);
      hide Low;
      hide Value;
      hide Weight;
      hide Pow2;
      hide Or;
      hide ShlLimb;
      hide ShrLimb;
      hide Mod;
      hide Unshifted;
      var i: nat := 0;
      while i < pn.Length
        invariant 0 <= i <= pn.Length == |a|
        invariant Unshifted(pn[..], a, i, k, n)
      {
        ghost var s := pn[..];
        ShrStep(s, a, i, k, n);
        PutRight(a[i], i, k, n);
        i := i + 1;
      }
      ShrDone(pn[..], a, k, n);
    }

    method Bits() returns (r: nat)
      ensures IsBits(Val(), r)
    {
      ghost var s := pn[..];
      var pos := pn.Length;
      hide IsBits;
      while pos > 0
        invariant 0 <= pos <= pn.Length
        invariant forall j :: pos <= j < pn.Length ==> pn[j] == 0
      {
        pos := pos - 1;
        if pn[pos] != 0 {
          Pow2Of32();
          assert Pow2(0) == 1 && Pow2(1) == 2;
          hide Pow2;
          hide Value;
          hide BitSet;
          var nbits: nat := 31;
          while nbits > 0
            invariant nbits <= 31 && pn[pos] < Pow2(nbits + 1)
          {
            TopBit(pn[pos], nbits);
            if BitSet(pn[pos], nbits) {
              LimbBits(s, pos, nbits);
              return 32 * pos + nbits + 1;
            }
            nbits := nbits - 1;
          }
          LimbBits(s, pos, 0);
          return 32 * pos + 1;
        }
      }
      AllZero(s, |s|);
      NoValueNoBits();
      return 0;
    }

    /** Shift-and-subtract division; a zero divisor is refused after the dividend was cleared. */
    method DivAssign(b: BaseUint) returns (ok: bool)
      requires b.pn.Length == pn.Length
      modifies pn
      ensures ok <==> old(b.Val()) != 0
      ensures Val() == if ok then old(Val()) / old(b.Val()) else 0
    {
      ghost var nv, dv := Val(), b.Val();
      var div := new BaseUint.Copy(b);
      var num := new BaseUint.Copy(this);
      SetZero();
      LowBound(num.pn[..], pn.Length);
      hide Low;
      hide Weight;
      hide Pow2;
      hide IsBits;
      hide Mod;
      var numBits := num.Bits();
      var divBits := div.Bits();
      BitsOfZero(dv, divBits);
      if divBits == 0 {
        return false;
      }
      ok := true;
      if divBits > numBits {
        NoBitsBelow(nv, dv, numBits, divBits);
        return;
      }
      LongDivide(num, div, numBits, divBits, nv, dv);
    }

    /** The subtracting loop. */
    method LongDivide(num: BaseUint, div: BaseUint, numBits: nat, divBits: nat, ghost nv: nat, ghost dv: nat)
      requires num.pn.Length == div.pn.Length == pn.Length && num.pn != pn && div.pn != pn && num.pn != div.pn
      requires num.Val() == nv && div.Val() == dv && IsBits(nv, numBits) && IsBits(dv, divBits) && 0 < divBits <= numBits
      requires nv < Modulus() && Val() == 0 && forall j :: 0 <= j < pn.Length ==> pn[j] == 0
      modifies pn, num.pn, div.pn
      ensures dv > 0 && Val() == nv / dv
    {
      var shift: int := numBits - divBits;
      DivideStart(nv, dv, numBits, divBits, pn.Length);
      ClearAll(pn[..], shift + 1);
      ModSmall(Times(dv, shift), Modulus());
      assert dv * Pow2(shift) == Times(dv, shift);
      hide Low;
      hide Weight;
      hide Value;
      hide Pow2;
      hide IsBits;
      hide Clear;
      hide Dividing;
      hide Times;
      hide Mod;
      div.ShlAssign(shift);
      while shift >= 0
        invariant -1 <= shift < 32 * pn.Length
        invariant Clear(pn[..], shift + 1)
        invariant Dividing(nv, dv, Val(), num.Val(), shift)
        invariant num.Val() < Modulus()
        invariant shift >= 0 ==> div.Val() == Times(dv, shift)
      {
        ghost var d := div.Val();
        DivideRound(num, div, shift, nv, dv);
        Half(d);
        div.ShrAssign(1);
        shift := shift - 1;
      }
      DivideDone(nv, dv, Val(), num.Val());
    }

    /** One round: subtract the shifted divisor if it fits, and set the bit of the quotient. */
    method DivideRound(num: BaseUint, div: BaseUint, shift: nat, ghost nv: nat, ghost dv: nat)
      requires num.pn.Length == div.pn.Length == pn.Length && num.pn != pn && div.pn != pn && num.pn != div.pn
      requires shift < 32 * pn.Length && Clear(pn[..], shift + 1) && Dividing(nv, dv, Val(), num.Val(), shift)
      requires num.Val() < Modulus() && div.Val() == Times(dv, shift)
      modifies pn, num.pn
      ensures Clear(pn[..], shift) && Dividing(nv, dv, Val(), num.Val(), shift - 1) && num.Val() < Modulus()
      ensures shift > 0 ==> div.Val() / 2 == Times(dv, shift - 1)
    {
      hide Low;
      hide Weight;
      hide Value;
      hide Pow2;
      hide Clear;
      hide Dividing;
      hide Times;
      hide Mod;
      ghost var rest, d := num.Val(), div.Val();
      DivideStep(nv, dv, Val(), rest, shift);
      var order := num.CompareTo(div);
      if order >= 0 {
        ModSmall(rest - d, Modulus());
        num.SubAssign(div);
        OrBit(shift);
      } else {
        ClearLess(pn[..], shift);
      }
    }

    method OrBit(shift: nat)
      requires shift < 32 * pn.Length && Clear(pn[..], shift + 1)
      modifies pn
      ensures Val() == old(Val()) + Pow2(shift) && Clear(pn[..], shift)
    {
      ghost var s := pn[..];
      SetBit(s, shift);
      hide Low;
      hide Clear;
      hide Pow2;
      hide Or;
      hide ShlLimb;
      pn[shift / 32] := Or(pn[shift / 32], ShlLimb(1, shift % 32));
      assert pn[..] == WithBit(s, shift);
    }
  }

  lemma ClearLess(s: seq<Limb>, shift: nat)
    requires shift / 32 < |s| && Clear(s, shift + 1)
    ensures Clear(s, shift)
  {
    SetBit(s, shift);
  }

  lemma NoValueNoBits()
    ensures IsBits(0, 0)
  {
  }

  lemma BitsOfZero(v: nat, r: nat)
    requires IsBits(v, r)
    ensures r == 0 <==> v == 0
  {
  }

  lemma ClearAll(s: seq<Limb>, p: nat)
    requires forall j :: 0 <= j < |s| ==> s[j] == 0
    ensures Clear(s, p)
  {
    DivModUnique(0, 0, 0, Pow2(p % 32));
  }

  lemma Half(v: nat)
    ensures v / Pow2(1) == v / 2
  {
    assert Pow2(0) == 1;
  }

  lemma Wrap(a: int, m: int)
    requires m > 0
    ensures Mod(a, m) == Mod(a + m, m)
  {
    DivModUnique(a + m, a / m + 1, a % m, m) by {
      Distribute(a / m, 1, m);
    }
  }

  lemma AddMod(a: int, b: int, m: int)
    requires m > 0
    ensures Mod(a + Mod(b, m), m) == Mod(a + b, m)
  {
    var q := b / m;
    var r := a + b % m;
    DivModUnique(a + b, q + r / m, r % m, m) by {
      Distribute(q, r / m, m);
    }
  }

  lemma RowStep(a: seq<Limb>, j: nat, b: nat, before: nat, q: nat, m: nat, after: nat, dropped: nat, beyond: nat)
    requires j < |a| && before + q * m == Low(a, j) * b
    requires after + dropped * m == before + a[j] * b * Weight(j) - beyond * m
    ensures after + (q + dropped + beyond) * m == Low(a, j + 1) * b
  {
    Distribute(q + dropped, beyond, m);
    Distribute(q, dropped, m);
    Distribute(Low(a, j), a[j] * Weight(j), b);
    assert a[j] * b * Weight(j) == (a[j] * Weight(j)) * b by {
      Associate(a[j], b, Weight(j));
      Associate(a[j], Weight(j), b);
    }
  }
}