/** The compact difficulty format (one size byte, a sign bit and a 23-bit word) and the work of a block. */
module Compact {
  import opened Arithmetic
  import opened Limbs
  import opened ArithUint

  type Compact32 = c: nat | c < 0x1_0000_0000

  const TOP: nat := 256

  // ----- Decoding

  function SizeOf(c: Compact32): nat {
    c / 0x100_0000
  }

  function WordOf(c: Compact32): nat {
    c % 0x80_0000
  }

  /** The word after the shift that small sizes imply. */
  function ShiftedWord(c: Compact32): nat {
    if SizeOf(c) <= 3 then Cut(WordOf(c), 8 * (3 - SizeOf(c))) else WordOf(c)
  }

  function Exponent(size: nat): nat {
    if size <= 3 then 0 else 8 * (size - 3)
  }

  /** The magnitude that a compact number stands for, without any bound. */
  function Denoted(c: Compact32): nat {
    Times(ShiftedWord(c), Exponent(SizeOf(c)))
  }

  predicate Negative(c: Compact32) {
    ShiftedWord(c) != 0 && c / 0x80_0000 % 2 == 1
  }

  predicate Overflow(c: Compact32) {
    && ShiftedWord(c) != 0
    && (|| SizeOf(c) > 34
        || (ShiftedWord(c) > 0xff && SizeOf(c) > 33)
        || (ShiftedWord(c) > 0xffff && SizeOf(c) > 32))
  }

  lemma WordSmall(c: Compact32)
    ensures ShiftedWord(c) <= WordOf(c) < 0x80_0000
  {
    if SizeOf(c) <= 3 {
      DivSmaller(WordOf(c), Pow2(8 * (3 - SizeOf(c))));
    }
  }

  lemma TimesBound(w: nat, k: nat, e: nat)
    requires k + e == TOP
    ensures w * Pow2(e) >= Pow2(TOP) <==> w >= Pow2(k)
  {
    PowAdd(k, e);
    hide Pow2;
    if w >= Pow2(k) {
      MulAtMost(Pow2(k), w, Pow2(e));
    } else {
      MulLess(w, Pow2(k), Pow2(e));
    }
  }

  /** The overflow flag says exactly that the denoted number does not fit in 256 bits. */
  lemma OverflowExact(c: Compact32)
    ensures Overflow(c) <==> Denoted(c) >= Pow2(TOP)
  {
    WordSmall(c);
    var w, size := ShiftedWord(c), SizeOf(c);
    hide Pow2;
    hide Times;
    hide SizeOf;
    hide ShiftedWord;
    if size > 34 {
      FarAbove(w, Exponent(size));
    } else {
      NearTop(w, size);
    }
  }

  lemma FarAbove(w: nat, e: nat)
    requires e >= TOP
    ensures w > 0 <==> Times(w, e) >= Pow2(TOP)
  {
    PowMonotone(TOP, e);
    if w > 0 {
      MulAtMost(1, w, Pow2(e));
    } else {
      assert 0 * Pow2(e) == 0;
    }
  }

  lemma NearTop(w: nat, size: nat)
    requires w < 0x80_0000 && size <= 34
    ensures (w > 0xff && size > 33) || (w > 0xffff && size > 32) <==> Times(w, Exponent(size)) >= Pow2(TOP)
  {
    Pow2Of32();
    hide Pow2;
    if size == 34 {
      TimesBound(w, 8, 8 * 31);
    } else if size == 33 {
      TimesBound(w, 16, 8 * 30);
    } else {
      TimesBound(w, 24, 8 * 29);
      PowMonotone(Exponent(size), 8 * 29);
      MulAtMost(Pow2(Exponent(size)), Pow2(8 * 29), w);
    }
  }

  // ----- Encoding

  /** The number of significant bits. */
  function NumBits(x: nat): (r: nat)
    ensures IsBits(x, r)
  {
    if x == 0 then 0 else
      NumBitsStep(x, NumBits(x / 2));
      NumBits(x / 2) + 1
  }

  lemma NumBitsStep(x: nat, r: nat)
    requires x > 0 && IsBits(x / 2, r)
    ensures IsBits(x, r + 1)
  {
  }

  lemma BitsUnique(x: nat, r: nat, q: nat)
    requires IsBits(x, r) && IsBits(x, q)
    ensures r == q
  {
    if r < q {
      PowMonotone(r, q - 1);
    } else if q < r {
      PowMonotone(q, r - 1);
    }
  }

  /** Bytes needed, and the top three bytes. */
  function RawSize(x: nat): nat {
    (NumBits(x) + 7) / 8
  }

  function RawWord(x: nat): nat {
    if RawSize(x) <= 3 then Times(x, 8 * (3 - RawSize(x))) else Cut(x, 8 * (RawSize(x) - 3))
  }

  /** The same after making room for the sign bit. */
  function Size(x: nat): nat {
    if RawWord(x) >= 0x80_0000 then RawSize(x) + 1 else RawSize(x)
  }

  function Word(x: nat): nat {
    if RawWord(x) >= 0x80_0000 then RawWord(x) / 0x100 else RawWord(x)
  }

  lemma RawBounds(x: nat)
    requires x > 0
    ensures RawSize(x) >= 1 && Pow2(8 * (RawSize(x) - 1)) <= x < Pow2(8 * RawSize(x))
  {
    var b, s := NumBits(x), RawSize(x);
    assert 8 * (s - 1) <= b - 1 && b <= 8 * s;
    PowMonotone(8 * (s - 1), b - 1);
    PowMonotone(b, 8 * s);
  }

  lemma RawWordBounds(x: nat)
    ensures RawWord(x) < 0x100_0000
    ensures x > 0 ==> RawWord(x) >= 0x1_0000
  {
    Pow2Of32();
    if x == 0 {
      assert RawSize(x) == 0;
      assert 0 * Pow2(24) == 0;
    } else {
      RawBounds(x);
      var s := RawSize(x);
      hide RawSize;
      if s <= 3 {
        var d := 8 * (3 - s);
        PowAdd(8 * s, d);
        PowAdd(8 * (s - 1), d);
        assert 8 * s + d == 24 && 8 * (s - 1) + d == 16;
        MulLess(x, Pow2(8 * s), Pow2(d));
        MulAtMost(Pow2(8 * (s - 1)), x, Pow2(d));
      } else {
        var d := 8 * (s - 3);
        PowAdd(16, d);
        PowAdd(24, d);
        assert 16 + d == 8 * (s - 1) && 24 + d == 8 * s;
        hide Pow2;
        QuotientBounds(x, Pow2(d), Pow2(16), Pow2(24));
      }
    }
  }

  lemma QuotientBounds(x: nat, p: nat, lo: nat, hi: nat)
    requires p > 0 && lo * p <= x < hi * p
    ensures lo <= x / p < hi
  {
    var q := x / p;
    assert q * p <= x < q * p + p;
    if q < lo {
      MulAtMost(q + 1, lo, p);
      Distribute(q, 1, p);
    }
    if q >= hi {
      MulAtMost(hi, q, p);
    }
  }

  lemma WordBounds(x: nat)
    ensures Word(x) < 0x80_0000
    ensures x > 0 ==> Word(x) >= 0x8000
  {
    RawWordBounds(x);
    hide RawWord;
  }

  lemma SizeBound(x: nat)
    requires x < Pow2(TOP)
    ensures Size(x) <= 33
  {
    if x > 0 {
      RawBounds(x);
      if RawSize(x) > 32 {
        PowMonotone(TOP, 8 * (RawSize(x) - 1));
      }
    }
    hide RawWord;
    hide Pow2;
  }

  function Encode(x: nat, negative: bool): (c: nat) {
    Word(x) + Size(x) * 0x100_0000 + (if negative && Word(x) != 0 then 0x80_0000 else 0)
  }

  lemma EncodeParts(x: nat, negative: bool)
    requires x < Pow2(TOP)
    ensures var c := Encode(x, negative);
            && c < 0x1_0000_0000 && SizeOf(c) == Size(x) && WordOf(c) == Word(x)
            && (c / 0x80_0000 % 2 == 1 <==> negative && Word(x) != 0)
  {
    hide Size;
    hide Word;
    hide Pow2;
    WordBounds(x);
    SizeBound(x);
    Fields(Word(x), Size(x), negative && Word(x) != 0);
  }

  lemma Fields(w: nat, s: nat, sign: bool)
    requires w < 0x80_0000 && s <= 33
    ensures var c := w + s * 0x100_0000 + (if sign then 0x80_0000 else 0);
            && c < 0x1_0000_0000 && c / 0x100_0000 == s && c % 0x80_0000 == w && (c / 0x80_0000 % 2 == 1 <==> sign)
  {
    var c := w + s * 0x100_0000 + (if sign then 0x80_0000 else 0);
    assert c / 0x80_0000 == 2 * s + if sign then 1 else 0;
  }

  // ----- Round trip

  lemma DivDiv(x: nat, p: nat, q: nat)
    requires p > 0 && q > 0
    ensures x / p / q == x / (p * q)
  {
    var a, r := x / p, x % p;
    var b, t := a / q, a % q;
    assert x == a * p + r && a == b * q + t;
    assert a * p == b * (p * q) + t * p by {
      Distribute(b * q, t, p);
      Associate(b, q, p);
    }
    MulAtMost(t + 1, q, p);
    Distribute(t, 1, p);
    assert p * q > 0;
    DivModUnique(x, b, t * p + r, p * q);
  }

  lemma MulDiv(x: nat, p: nat)
    requires p > 0
    ensures x * p / p == x
  {
    DivModUnique(x * p, x, 0, p);
  }

  /** The word is the number without the bytes below the exponent. */
  lemma WordIsQuotient(x: nat)
    requires Size(x) > 3
    ensures Word(x) == Cut(x, Exponent(Size(x)))
  {
    var s := RawSize(x);
    if RawWord(x) < 0x80_0000 {
    } else if s == 3 {
      assert Pow2(0) == 1 && RawWord(x) == x * 1;
      Pow2Of32();
    } else {
      var d := 8 * (s - 3);
      PowAdd(d, 8);
      Pow2Of32();
      DivDiv(x, Pow2(d), 0x100);
    }
  }

  lemma SmallIsExact(x: nat)
    requires Size(x) <= 3
    ensures Cut(Word(x), 8 * (3 - Size(x))) == x
  {
    var s := RawSize(x);
    if RawWord(x) < 0x80_0000 {
      MulDiv(x, Pow2(8 * (3 - s)));
    } else {
      var d := 8 * (3 - Size(x));
      PowAdd(d, 8);
      Pow2Of32();
      assert d + 8 == 8 * (3 - s);
      Associate(x, Pow2(d), 0x100);
      MulDiv(x * Pow2(d), 0x100);
      MulDiv(x, Pow2(d));
    }
  }

  /** Decoding the encoding of `x` gives `x` with the bytes below the exponent cut off. */
  lemma DecodeEncode(x: nat, negative: bool)
    requires x < Pow2(TOP)
    ensures Encode(x, negative) < 0x1_0000_0000
    ensures Denoted(Encode(x, negative)) == Times(Cut(x, Exponent(Size(x))), Exponent(Size(x)))
    ensures Negative(Encode(x, negative)) <==> negative && x > 0
  {
    EncodeParts(x, negative);
    WordBounds(x);
    hide Encode;
    var c := Encode(x, negative);
    if Size(x) <= 3 {
      SmallIsExact(x);
      assert Pow2(0) == 1;
      if x == 0 {
        assert RawSize(0) == 0;
        assert RawWord(0) == 0 * Pow2(24) == 0;
      }
      hide Word;
      hide Size;
    } else {
      WordIsQuotient(x);
      hide Word;
      hide Size;
    }
    hide Pow2;
  }

  lemma CutTimes(x: nat, e: nat)
    ensures Times(Cut(x, e), e) <= x < Times(Cut(x, e), e) + Pow2(e)
  {
    var p := Pow2(e);
    assert x == (x / p) * p + x % p;
  }

  /** The decoded number is at most `x`, fits, and is less than one part in 2^15 below it. */
  lemma CompactRoundTrip(x: nat, negative: bool)
    requires x < Pow2(TOP)
    ensures Encode(x, negative) < 0x1_0000_0000
    ensures var c := Encode(x, negative);
            && Denoted(c) <= x && (x > 0 ==> (x - Denoted(c)) * 0x8000 < x)
            && !Overflow(c) && (Negative(c) <==> negative && x > 0)
  {
    DecodeEncode(x, negative);
    var c, e := Encode(x, negative), Exponent(Size(x));
    CutTimes(x, e);
    OverflowExact(c);
    if x > 0 {
      if Size(x) <= 3 {
        assert Pow2(0) == 1;
      } else {
        WordIsQuotient(x);
        WordBounds(x);
        MulAtMost(0x8000, Cut(x, e), Pow2(e));
        assert Times(Cut(x, e), e) >= 0x8000 * Pow2(e);
      }
    }
    hide Encode;
    hide Size;
    hide Word;
    hide Pow2;
    hide Times;
    hide Cut;
  }

  /** No compact number lies between the decoded number and `x`. */
  lemma BestBelow(x: nat, negative: bool, other: Compact32)
    requires x < Pow2(TOP) && Denoted(other) <= x
    ensures Encode(x, negative) < 0x1_0000_0000 && Denoted(other) <= Denoted(Encode(x, negative))
  {
    hide Encode;
    hide ShiftedWord;
    hide SizeOf;
    hide Times;
    hide Cut;
    hide Pow2;
    hide Size;
    hide Word;
    DecodeEncode(x, negative);
    WordSmall(other);
    var e, f, w := Exponent(Size(x)), Exponent(SizeOf(other)), ShiftedWord(other);
    if Size(x) <= 3 {
      CutNothing(x);
    } else if f >= e {
      TimesTwice(w, f - e, e);
      MultipleBelow(x, Times(w, f - e), e);
    } else if x > 0 {
      WordIsQuotient(x);
      WordBounds(x);
      SmallerExponent(w, f, Cut(x, e), e);
    }
  }

  lemma CutNothing(x: nat)
    ensures Times(Cut(x, 0), 0) == x
  {
    assert Pow2(0) == 1;
  }

  lemma TimesTwice(w: nat, d: nat, e: nat)
    ensures Times(w, d + e) == Times(Times(w, d), e)
  {
    PowAdd(d, e);
    Associate(w, Pow2(d), Pow2(e));
  }

  lemma MultipleBelow(x: nat, m: nat, e: nat)
    requires Times(m, e) <= x
    ensures Times(m, e) <= Times(Cut(x, e), e)
  {
    CutTimes(x, e);
    var q, p := Cut(x, e), Pow2(e);
    hide Cut;
    if m > q {
      MulAtMost(q + 1, m, p);
      Distribute(q, 1, p);
    }
    MulAtMost(m, q, p);
  }

  lemma SmallerExponent(w: nat, f: nat, q: nat, e: nat)
    requires w < 0x80_0000 && q >= 0x8000 && f < e && e % 8 == 0 && f % 8 == 0
    ensures Times(w, f) <= Times(q, e)
  {
    Pow2Of32();
    PowMonotone(f, e - 8);
    PowAdd(e - 8, 8);
    var p := Pow2(e - 8);
    hide Pow2;
    MulAtMost(w, 0x80_0000, Pow2(f));
    MulAtMost(Pow2(f), p, 0x80_0000);
    MulAtMost(0x8000, q, Pow2(e));
  }

  // ----- The work of a block

  function Quotient(m: nat, d: nat): nat
    requires d > 0
  {
    DivSmaller(m, d);
    m / d
  }

  /** How many hashes a block is expected to have cost; zero for an unusable target. */
  function BlockProof(bits: Compact32): nat {
    if Negative(bits) || Overflow(bits) || Denoted(bits) == 0 then 0 else Quotient(Pow2(TOP), Denoted(bits) + 1)
  }

  /** The quotient can be computed without the number 2^256. */
  lemma QuotientWithoutTop(m: nat, d: nat)
    requires 0 < d <= m
    ensures (m - d) / d + 1 == m / d
  {
    var q, r := m / d, m % d;
    assert m == q * d + r;
    Distribute(q - 1, 1, d);
    DivModUnique(m - d, q - 1, r, d);
  }

  /** A denoted number that fits is never the largest 256-bit number. */
  lemma NeverLargest(c: Compact32)
    requires Denoted(c) < Pow2(TOP)
    ensures Denoted(c) + 1 < Pow2(TOP)
  {
    WordSmall(c);
    Pow2Of32();
    PowMonotone(24, TOP);
    assert Pow2(TOP) == 2 * Pow2(TOP - 1);
    var w, e := ShiftedWord(c), Exponent(SizeOf(c));
    if e == 0 {
      assert Pow2(0) == 1;
    } else {
      assert Pow2(e) == 2 * Pow2(e - 1);
      assert w * (2 * Pow2(e - 1)) == 2 * (w * Pow2(e - 1));
    }
    hide Pow2;
    hide ShiftedWord;
  }

  // ----- The limb-level procedures, at 256 bits

  lemma TopWeight()
    ensures Weight(8) == Pow2(TOP)
  {
    WeightIsPow(8);
  }

  method SetCompact(bn: BaseUint, nCompact: Compact32) returns (negative: bool, overflow: bool)
    requires bn.pn.Length == 8
    modifies bn.pn
    ensures bn.Val() == Mod(Denoted(nCompact), Pow2(TOP))
    ensures negative == Negative(nCompact) && overflow == Overflow(nCompact)
  {
    TopWeight();
    WordSmall(nCompact);
    var nSize, nWord := nCompact / 0x100_0000, nCompact % 0x80_0000;
    hide Weight;
    hide Pow2;
    hide Mod;
    hide Value;
    if nSize <= 3 {
      nWord := Cut(nWord, 8 * (3 - nSize));
      hide Cut;
      bn.Assign(nWord, 0);
      TimesNone(nWord);
    } else {
      hide Cut;
      bn.Assign(nWord, 0);
      bn.ShlAssign(8 * (nSize - 3));
    }
    negative := nWord != 0 && nCompact / 0x80_0000 % 2 == 1;
    overflow := nWord != 0 && (nSize > 34 || (nWord > 0xff && nSize > 33) || (nWord > 0xffff && nSize > 32));
  }

  lemma TimesNone(w: nat)
    requires w < 0x80_0000
    ensures Times(w, 0) == w && Mod(w, Pow2(TOP)) == w
  {
    Pow2Of32();
    assert Pow2(0) == 1;
    hide Pow2;
    hide Mod;
    PowMonotone(24, TOP);
    ModSmall(w, Pow2(TOP));
  }

  lemma NoHighLimb(s: seq<Limb>, i: nat)
    requires 2 <= i < |s| && Value(s) < 0x1_0000_0000_0000_0000
    ensures s[i] == 0
  {
    hide Value;
    if s[i] != 0 {
      HighLimb(s, i, B - 1, B - 1);
    }
  }

  lemma ReadLow64(s: seq<Limb>)
    requires |s| >= 2 && Value(s) < 0x1_0000_0000_0000_0000
    ensures BitOr(s[0], Times(s[1], 32)) == Value(s)
  {
    forall i | 2 <= i < |s| ensures s[i] == 0 {
      NoHighLimb(s, i);
    }
    TwoLimbs(s);
    hide Value;
    Pow2Of32();
    MultipleMod(s[1], B);
    OrDisjoint(s[0], s[1] * B, 32);
    hide Pow2;
    hide BitOr;
  }

  /** The low 64 bits; only used here on numbers that fit. */
  method GetLow64(bn: BaseUint) returns (r: nat)
    requires bn.pn.Length >= 2 && bn.Val() < 0x1_0000_0000_0000_0000
    ensures r == bn.Val()
  {
    ReadLow64(bn.pn[..]);
    r := BitOr(bn.pn[0], Times(bn.pn[1], 32));
  }

  /** The top three bytes of a number. */
  method LeadingBytes(bn: BaseUint, nSize: nat) returns (nCompact: nat)
    requires bn.pn.Length == 8 && nSize == RawSize(bn.Val())
    ensures nCompact == RawWord(bn.Val())
  {
    hide *;
    ghost var x := bn.Val();
    RawWordBounds(x);
    RawWordIs(x);
    if nSize <= 3 {
      SmallWhenShort(x);
      var low := GetLow64(bn);
      nCompact := Times(low, 8 * (3 - nSize)) % 0x1_0000_0000;
    } else {
      nCompact := ShiftedLow(bn, 8 * (nSize - 3));
    }
  }

  lemma RawWordIs(x: nat)
    ensures RawSize(x) <= 3 ==> RawWord(x) == Times(x, 8 * (3 - RawSize(x)))
    ensures RawSize(x) > 3 ==> RawWord(x) == Cut(x, 8 * (RawSize(x) - 3))
  {
  }

  method ShiftedLow(bn: BaseUint, shift: nat) returns (r: nat)
    requires bn.pn.Length == 8 && Cut(bn.Val(), shift) < 0x1_0000_0000
    ensures r == Cut(bn.Val(), shift)
  {
    CutIs(bn.Val(), shift);
    hide Cut;
    hide Pow2;
    hide Value;
    var shifted := new BaseUint.Copy(bn);
    shifted.ShrAssign(shift);
    r := GetLow64(shifted);
  }

  lemma CutIs(x: nat, n: nat)
    ensures Cut(x, n) == x / Pow2(n)
  {
  }

  lemma SmallWhenShort(x: nat)
    requires RawSize(x) <= 3
    ensures x < 0x100_0000
  {
    if x > 0 {
      RawBounds(x);
      Pow2Of32();
      PowMonotone(8 * RawSize(x), 24);
    }
  }

  method GetCompact(bn: BaseUint, fNegative: bool) returns (nCompact: nat)
    requires bn.pn.Length == 8
    ensures nCompact == Encode(bn.Val(), fNegative) && nCompact < 0x1_0000_0000
  {
    ghost var x := bn.Val();
    TopWeight();
    LowBound(bn.pn[..], 8);
    hide Low;
    hide Weight;
    hide Value;
    hide NumBits;
    hide IsBits;
    hide Pow2;
    hide RawWord;
    hide Encode;
    var bits := bn.Bits();
    BitsUnique(x, bits, NumBits(x));
    var nSize: nat := (bits + 7) / 8;
    var leading := LeadingBytes(bn, nSize);
    hide RawSize;
    nCompact := PackCompact(leading, nSize, fNegative, x);
  }

  /** Make room for the sign bit, then put the fields together. */
  method PackCompact(leading: nat, rawSize: nat, fNegative: bool, ghost x: nat) returns (nCompact: nat)
    requires x < Pow2(TOP) && leading == RawWord(x) && rawSize == RawSize(x)
    ensures nCompact == Encode(x, fNegative) && nCompact < 0x1_0000_0000
  {
    hide RawSize;
    hide RawWord;
    hide Pow2;
    hide Times;
    hide BitSet;
    hide BitOr;
    RawWordBounds(x);
    WordBounds(x);
    SizeBound(x);
    EncodeParts(x, fNegative);
    nCompact := leading;
    var nSize := rawSize;
    SignBit(nCompact);
    if BitSet(nCompact, 23) {
      nCompact := nCompact / 0x100;
      nSize := nSize + 1;
    }
    assert nCompact < 0x80_0000 && nSize < 256;
    PackFields(nCompact, nSize);
    var sign := fNegative && nCompact % 0x80_0000 != 0;
    nCompact := BitOr(nCompact, Times(nSize, 24));
    if sign {
      nCompact := BitOr(nCompact, Times(1, 23));
    }
  }

  lemma SignBit(w: nat)
    requires w < 0x100_0000
    ensures BitSet(w, 23) <==> w >= 0x80_0000
  {
    Pow2Of32();
    TopBit(w, 23);
  }

  lemma PackFields(w: nat, s: nat)
    requires w < 0x80_0000
    ensures BitOr(w, Times(s, 24)) == w + s * 0x100_0000
    ensures BitOr(w + s * 0x100_0000, Times(1, 23)) == w + s * 0x100_0000 + 0x80_0000
  {
    Pow2Of32();
    MultipleMod(s, 0x100_0000);
    OrDisjoint(w, s * 0x100_0000, 24);
    OrBetween(w, s * 0x100_0000, 23);
  }

  method GetBlockProof(nBits: Compact32) returns (r: BaseUint)
    ensures fresh(r) && fresh(r.pn) && r.pn.Length == 8
    ensures r.Val() == BlockProof(nBits)
  {
    hide Value;
    hide Weight;
    hide Pow2;
    hide Denoted;
    hide Negative;
    hide Overflow;
    TopWeight();
    var bnTarget := new BaseUint.Zero(8);
    var zero := new BaseUint.Zero(8);
    var fNegative, fOverflow := SetCompact(bnTarget, nBits);
    OverflowExact(nBits);
    if !fOverflow {
      ModSmall(Denoted(nBits), Pow2(TOP));
    }
    hide Mod;
    var isZero := bnTarget.EqualTo(0, 0);
    if fNegative || fOverflow || isZero {
      return zero;
    }
    NeverLargest(nBits);
    r := ProofOf(bnTarget);
  }

  /** The quotient of 2^256 by the target plus one, without that number. */
  method ProofOf(bnTarget: BaseUint) returns (r: BaseUint)
    requires bnTarget.pn.Length == 8 && 0 < bnTarget.Val() < Pow2(TOP) - 1
    modifies bnTarget.pn
    ensures fresh(r) && fresh(r.pn) && r.pn.Length == 8
    ensures r.Val() == Pow2(TOP) / (old(bnTarget.Val()) + 1)
  {
    hide Value;
    hide Weight;
    hide Pow2;
    hide Mod;
    TopWeight();
    ghost var t := bnTarget.Val();
    r := bnTarget.BitNot();
    var one := new BaseUint.Zero(8);
    one.Assign(1, 0);
    ModSmall(t + 1, Pow2(TOP));
    bnTarget.AddAssign(one);
    var ok := r.DivAssign(bnTarget);
    QuotientWithoutTop(Pow2(TOP), t + 1);
    ProofFits(Pow2(TOP), t + 1);
    ModSmall(r.Val() + 1, Pow2(TOP));
    r.AddAssign(one);
  }

  lemma ProofFits(m: nat, d: nat)
    requires 1 < d <= m
    ensures 0 <= m / d < m
  {
    if m / d >= m {
      MulAtMost(m, m / d, d);
      MulAtMost(2, d, m);
    }
  }
}
