/** Base58: byte strings as text without look-alike characters, and the checksummed form. */
module Base58 {
  import opened Basics
  import opened Arithmetic

  // ----- Digits in a radix, most significant first

  function Pow(b: nat, n: nat): nat {
    if n == 0 then 1 else b * Pow(b, n - 1)
  }

  function Val(d: seq<nat>, base: nat): nat {
    if d == [] then 0 else Val(d[..|d| - 1], base) * base + d[|d| - 1]
  }

  ghost predicate Digits(d: seq<nat>, base: nat) {
    forall i :: 0 <= i < |d| ==> d[i] < base
  }

  function DigitsOf(v: nat, base: nat): (d: seq<nat>)
    requires base > 1
    ensures Digits(d, base)
  {
    if v == 0 then [] else
      Shrinks(v, base);
      DigitsOf(v / base, base) + [v % base]
  }

  lemma Shrinks(v: nat, base: nat)
    requires v > 0 && base > 1
    ensures 0 <= v / base < v
  {
    if v / base >= v {
      MulAtMost(v, v / base, base);
      MulAtMost(2, base, v);
    }
  }

  lemma Recompose(v: nat, base: nat)
    requires base > 0
    ensures (v / base) * base + v % base == v
  {
  }

  lemma ValSnoc(d: seq<nat>, x: nat, base: nat)
    ensures Val(d + [x], base) == Val(d, base) * base + x
  {
    assert (d + [x])[..|d|] == d;
  }

  lemma {:induction false} ValOfDigits(v: nat, base: nat)
    requires base > 1
    ensures Val(DigitsOf(v, base), base) == v
  {
    if v > 0 {
      hide Val;
      Shrinks(v, base);
      var q: nat, r: nat := v / base, v % base;
      ValOfDigits(q, base);
      assert DigitsOf(v, base) == DigitsOf(q, base) + [r];
      hide DigitsOf;
      ValSnoc(DigitsOf(q, base), r, base);
      Recompose(v, base);
    }
  }

  lemma {:induction false} NoLeadingZero(v: nat, base: nat)
    requires base > 1 && v > 0
    ensures DigitsOf(v, base) != [] && DigitsOf(v, base)[0] != 0
  {
    Shrinks(v, base);
    if v / base > 0 {
      NoLeadingZero(v / base, base);
    } else {
      assert v == (v / base) * base + v % base;
    }
  }

  /** Digits without a leading zero are the only ones for their value. */
  lemma {:induction false} DigitsOfVal(d: seq<nat>, base: nat)
    requires base > 1 && Digits(d, base) && (d != [] ==> d[0] != 0)
    ensures DigitsOf(Val(d, base), base) == d
    ensures d != [] ==> Val(d, base) > 0
  {
    if d != [] {
      var h, x := d[..|d| - 1], d[|d| - 1];
      DigitsOfVal(h, base);
      var v := Val(h, base);
      DivModUnique(v * base + x, v, x, base);
      if h != [] {
        MulAtMost(1, v, base);
      }
      assert h + [x] == d;
    }
  }

  lemma {:induction false} PowSum(b: nat, m: nat, n: nat)
    ensures Pow(b, m + n) == Pow(b, m) * Pow(b, n)
  {
    if m > 0 {
      PowSum(b, m - 1, n);
      assert m + n - 1 == m - 1 + n;
      Associate(b, Pow(b, m - 1), Pow(b, n));
    }
  }

  lemma {:induction false} ValAppend(a: seq<nat>, b: seq<nat>, base: nat)
    ensures Val(a + b, base) == Val(a, base) * Pow(base, |b|) + Val(b, base)
    decreases |b|
  {
    if b == [] {
      assert a + b == a;
    } else {
      var h, x := b[..|b| - 1], b[|b| - 1];
      ValAppend(a, h, base);
      assert (a + b)[..|a + b| - 1] == a + h;
      var p := Pow(base, |h|);
      assert Pow(base, |b|) == base * p;
      Distribute(Val(a, base) * p, Val(h, base), base);
      Associate(Val(a, base), p, base);
    }
  }

  lemma {:induction false} ValBound(d: seq<nat>, base: nat)
    requires Digits(d, base)
    ensures Val(d, base) < Pow(base, |d|)
  {
    if d != [] {
      var h, x := d[..|d| - 1], d[|d| - 1];
      ValBound(h, base);
      MulAtMost(Val(h, base) + 1, Pow(base, |h|), base);
      Distribute(Val(h, base), 1, base);
    }
  }

  lemma {:induction false} ValZeros(d: seq<nat>, base: nat)
    requires forall i :: 0 <= i < |d| ==> d[i] == 0
    ensures Val(d, base) == 0
  {
    if d != [] {
      ValZeros(d[..|d| - 1], base);
    }
  }

  // ----- The buffers are large enough

  lemma {:induction false} PowMul(b: nat, m: nat, n: nat)
    ensures Pow(Pow(b, m), n) == Pow(b, m * n)
  {
    if n > 0 {
      PowMul(b, m, n - 1);
      PowSum(b, m, m * (n - 1));
      assert m * n == m + m * (n - 1);
    }
  }

  lemma {:induction false} PowOrder(a: nat, b: nat, n: nat)
    ensures a <= b ==> Pow(a, n) <= Pow(b, n)
    ensures a < b && n > 0 ==> Pow(a, n) < Pow(b, n)
  {
    if n > 0 {
      PowOrder(a, b, n - 1);
      if a <= b {
        MulAtMost(Pow(a, n - 1), Pow(b, n - 1), a);
        MulAtMost(a, b, Pow(b, n - 1));
      }
      if a < b {
        PowPositive(b, n - 1);
        MulLess(a, b, Pow(b, n - 1));
      }
    }
  }

  lemma {:induction false} PowPositive(b: nat, n: nat)
    requires b > 0
    ensures Pow(b, n) > 0
  {
    if n > 0 {
      PowPositive(b, n - 1);
      assert b * Pow(b, n - 1) > 0;
    }
  }

  lemma {:induction false} PowGrows(b: nat, m: nat, n: nat)
    requires b > 0 && m <= n
    ensures Pow(b, m) <= Pow(b, n)
  {
    PowSum(b, m, n - m);
    PowPositive(b, n - m);
    PowPositive(b, m);
    MulAtMost(1, Pow(b, n - m), Pow(b, m));
  }

  lemma PowSwap(b: nat, m: nat, n: nat, product: nat)
    requires product == n * m
    ensures Pow(Pow(b, m), n) == Pow(b, product)
  {
    PowMul(b, m, n);
    assert m * n == n * m;
    hide Pow;
  }

  lemma PowCommute(a: nat, p: nat, n: nat)
    ensures Pow(Pow(a, p), n) == Pow(Pow(a, n), p)
  {
    hide Pow;
    PowMul(a, p, n);
    PowSwap(a, n, p, p * n);
  }

  lemma PowUp(b: nat, q: nat, n: nat, m: nat, p: nat)
    requires b > 0 && q * n <= p * m
    ensures Pow(Pow(b, q), n) <= Pow(Pow(b, m), p)
  {
    hide Pow;
    PowMul(b, q, n);
    PowGrows(b, q * n, p * m);
    PowSwap(b, m, p, p * m);
  }

  /** From `a^p < b^q` and enough digits: `a^n < b^m`. */
  lemma EnoughDigits(a: nat, p: nat, b: nat, q: nat, n: nat, m: nat)
    requires a > 0 && b > 0 && p > 0 && Pow(a, p) < Pow(b, q) && q * n <= p * m && n > 0
    ensures Pow(a, n) < Pow(b, m)
  {
    PowUp(b, q, n, m, p);
    hide *;
    PowOrder(Pow(a, p), Pow(b, q), n);
    PowCommute(a, p, n);
    PowCompare(Pow(a, n), Pow(b, m), p);
  }

  lemma PowCompare(x: nat, y: nat, p: nat)
    requires Pow(x, p) < Pow(y, p)
    ensures x < y
  {
    PowOrder(y, x, p);
    hide Pow;
  }

  lemma EightBytesInElevenDigits()
    ensures Pow(256, 8) < Pow(58, 11)
  {
  }

  lemma Powers58()
    ensures Pow(58, 35) == 52478302028992644968172978478148648556151605660894866578604032 && Pow(58, 36) == 3043741517681573408154032751732621616256793128331902261559033856
  {
    assert Pow(58, 8) == 128063081718016;
    assert Pow(58, 9) == 58 * Pow(58, 8);
    PowSum(58, 9, 8);
    PowSum(58, 9, 9);
    PowSum(58, 18, 17);
    PowSum(58, 18, 18);
    hide Pow;
  }

  lemma Powers256()
    ensures Pow(256, 26) == 411376139330301510538742295639337626245683966408394965837152256
  {
    assert Pow(256, 13) == 20282409603651670423947251286016;
    PowSum(256, 13, 13);
    hide Pow;
  }

  lemma SeventyOneDigitsInFiftyTwoBytes()
    ensures Pow(58, 71) < Pow(256, 52)
  {
    hide Pow;
    Powers58();
    Powers256();
    PowSum(58, 36, 35);
    PowSum(256, 26, 26);
  }

  /** The encoder's buffer. */
  lemma EncodeFits(n: nat)
    ensures Pow(256, n) < Pow(58, n * 138 / 100 + 1)
  {
    hide Pow;
    EightBytesInElevenDigits();
    if n == 0 {
      PowZero();
    } else {
      EnoughDigits(256, 8, 58, 11, n, n * 138 / 100 + 1);
    }
  }

  /** The decoder's buffer. */
  lemma DecodeFits(n: nat)
    ensures Pow(58, n) < Pow(256, n * 733 / 1000 + 1)
  {
    hide Pow;
    SeventyOneDigitsInFiftyTwoBytes();
    if n == 0 {
      PowZero();
    } else {
      EnoughDigits(58, 71, 256, 52, n, n * 733 / 1000 + 1);
    }
  }

  lemma PowZero()
    ensures Pow(256, 0) < Pow(58, 1) && Pow(58, 0) < Pow(256, 1)
  {
  }

  // ----- The alphabet

  const ONE := '1'

  /** The digits and letters without 0, I, O and l. */
  function Symbol(d: nat): (c: char)
    requires d < 58
    ensures c == ONE <==> d == 0
  {
    if d < 9 then '1' + d as char
    else if d < 17 then 'A' + (d - 9) as char
    else if d < 22 then 'J' + (d - 17) as char
    else if d < 33 then 'P' + (d - 22) as char
    else if d < 44 then 'a' + (d - 33) as char
    else 'm' + (d - 44) as char
  }

  const ALPHABET := "123456789ABCDEFGH" + "JKLMNPQRSTUVWXYZ" + "abcdefghijk" + "mnopqrstuvwxyz"

  lemma Numbers(d: nat)
    requires d < 17
    ensures Symbol(d) as int == "123456789ABCDEFGH"[d] as int
  {
  }

  lemma Capitals(d: nat)
    requires 17 <= d < 33
    ensures Symbol(d) as int == "JKLMNPQRSTUVWXYZ"[d - 17] as int
  {
  }

  lemma SmallLetters(d: nat)
    requires 33 <= d < 58
    ensures d < 44 ==> Symbol(d) as int == "abcdefghijk"[d - 33] as int
    ensures d >= 44 ==> Symbol(d) as int == "mnopqrstuvwxyz"[d - 44] as int
  {
  }

  lemma FourParts(a: string, b: string, c: string, e: string, d: nat)
    requires |a| == 17 && |b| == 16 && |c| == 11 && |e| == 14 && d < 58
    ensures (a + b + c + e)[d] == if d < 17 then a[d] else if d < 33 then b[d - 17] else if d < 44 then c[d - 33] else e[d - 44]
  {
  }

  /** The symbols are those of the alphabet, in its order. */
  lemma SymbolIs(d: nat)
    requires d < 58
    ensures |ALPHABET| == 58 && Symbol(d) == ALPHABET[d]
  {
    if d < 17 {
      Numbers(d);
    } else if d < 33 {
      Capitals(d);
    } else {
      SmallLetters(d);
    }
    hide Symbol;
    FourParts("123456789ABCDEFGH", "JKLMNPQRSTUVWXYZ", "abcdefghijk", "mnopqrstuvwxyz", d);
  }

  /** The position of a character among the 58, if it has one. */
  function FindSymbol(c: char, from: nat): (r: Option<nat>)
    requires from <= 58
    ensures r.Some? ==> from <= r.value < 58 && Symbol(r.value) == c
    ensures r.None? ==> forall d :: from <= d < 58 ==> Symbol(d) != c
    decreases 58 - from
  {
    if from == 58 then None else if Symbol(from) == c then Some(from) else FindSymbol(c, from + 1)
  }

  lemma SymbolsDiffer(i: nat, j: nat)
    requires i < 58 && j < 58 && Symbol(i) == Symbol(j)
    ensures i == j
  {
  }

  lemma SymbolFound(d: nat)
    requires d < 58
    ensures FindSymbol(Symbol(d), 0) == Some(d)
  {
    hide Symbol;
    var r := FindSymbol(Symbol(d), 0);
    if r.Some? {
      SymbolsDiffer(r.value, d);
    }
  }

  lemma SymbolNoSpace(d: nat)
    requires d < 58
    ensures !IsSpace(Symbol(d))
  {
  }

  function Text(d: seq<nat>): (s: string)
    requires Digits(d, 58)
    ensures |s| == |d| && forall i :: 0 <= i < |d| ==> s[i] == Symbol(d[i])
  {
    seq(|d|, i requires 0 <= i < |d| => Symbol(d[i]))
  }

  /** The digits that a text stands for, if all its characters are in the alphabet. */
  function Read(s: string): (d: Option<seq<nat>>)
    ensures d.Some? ==> |d.value| == |s| && Digits(d.value, 58) && forall i :: 0 <= i < |s| ==> s[i] == Symbol(d.value[i])
  {
    if s == [] then Some([]) else
      var d, x := Read(s[..|s| - 1]), FindSymbol(s[|s| - 1], 0);
      if d.Some? && x.Some? then Some(d.value + [x.value]) else None
  }

  lemma {:induction false} ReadText(d: seq<nat>)
    requires Digits(d, 58)
    ensures Read(Text(d)) == Some(d)
  {
    hide Symbol;
    if d != [] {
      var h, x := d[..|d| - 1], d[|d| - 1];
      ReadText(h);
      assert Text(d)[..|d| - 1] == Text(h);
      SymbolFound(x);
      assert h + [x] == d;
    }
  }

  lemma TextRead(s: string)
    requires Read(s).Some?
    ensures Text(Read(s).value) == s
  {
    hide Symbol;
  }

  // ----- What the two functions compute

  function Zeros(n: nat): (r: seq<nat>)
    ensures |r| == n && forall i :: 0 <= i < n ==> r[i] == 0
  {
    seq(n, (i: nat) => 0)
  }

  function Ones(n: nat): (r: string)
    ensures |r| == n && forall i :: 0 <= i < n ==> r[i] == ONE
  {
    seq(n, (i: nat) => ONE)
  }

  function LeadingZeros(d: seq<nat>): (n: nat)
    ensures n <= |d| && forall i :: 0 <= i < n ==> d[i] == 0
    ensures n < |d| ==> d[n] != 0
  {
    if d != [] && d[0] == 0 then 1 + LeadingZeros(d[1..]) else 0
  }

  function LeadingOnes(s: string): (n: nat)
    ensures n <= |s| && forall i :: 0 <= i < n ==> s[i] == ONE
    ensures n < |s| ==> s[n] != ONE
  {
    if s != [] && s[0] == ONE then 1 + LeadingOnes(s[1..]) else 0
  }

  function Spaces(s: string): (n: nat)
    ensures n <= |s| && forall i :: 0 <= i < n ==> IsSpace(s[i])
    ensures n < |s| ==> !IsSpace(s[n])
  {
    if s != [] && IsSpace(s[0]) then 1 + Spaces(s[1..]) else 0
  }

  /** The characters up to the first space. */
  function Solid(s: string): (n: nat)
    ensures n <= |s| && forall i :: 0 <= i < n ==> !IsSpace(s[i])
    ensures n < |s| ==> IsSpace(s[n])
  {
    if s != [] && !IsSpace(s[0]) then 1 + Solid(s[1..]) else 0
  }

  function Encode(bytes: seq<nat>): string {
    var z := LeadingZeros(bytes);
    Ones(z) + Text(DigitsOf(Val(bytes[z..], 256), 58))
  }

  /** One word, possibly between spaces. */
  predicate OneWord(s: string) {
    var t := s[Spaces(s)..];
    var u := t[Solid(t)..];
    Spaces(u) == |u|
  }

  function Word(s: string): string {
    var t := s[Spaces(s)..];
    t[..Solid(t)]
  }

  function DecodeWord(w: string): Option<seq<nat>> {
    var z := LeadingOnes(w);
    var d := Read(w[z..]);
    if d.None? then None else Some(Zeros(z) + DigitsOf(Val(d.value, 58), 256))
  }

  function Decode(s: string): Option<seq<nat>> {
    if OneWord(s) then DecodeWord(Word(s)) else None
  }

  // ----- Round trips

  lemma LeadingOf(n: nat, d: seq<nat>, s: string)
    requires (d != [] ==> d[0] != 0) && (s != [] ==> s[0] != ONE)
    ensures LeadingZeros(Zeros(n) + d) == n && LeadingOnes(Ones(n) + s) == n
  {
    var all, text := Zeros(n) + d, Ones(n) + s;
    assert forall i :: 0 <= i < n ==> all[i] == 0 && text[i] == ONE;
    assert d != [] ==> all[n] == d[0];
    assert s != [] ==> text[n] == s[0];
  }

  /** The digits of a value have no leading zero. */
  lemma DigitsLead(v: nat, base: nat)
    requires base > 1
    ensures DigitsOf(v, base) != [] ==> DigitsOf(v, base)[0] != 0
  {
    if v > 0 {
      NoLeadingZero(v, base);
    }
  }

  lemma EncodeNoSpace(bytes: seq<nat>)
    ensures forall i :: 0 <= i < |Encode(bytes)| ==> !IsSpace(Encode(bytes)[i])
  {
    hide Val;
    hide DigitsOf;
    var z := LeadingZeros(bytes);
    var d := DigitsOf(Val(bytes[z..], 256), 58);
    forall i | 0 <= i < |Encode(bytes)| ensures !IsSpace(Encode(bytes)[i]) {
      if i < z {
        SymbolNoSpace(0);
      } else {
        SymbolNoSpace(d[i - z]);
      }
    }
  }

  lemma WordOfSolid(s: string)
    requires forall i :: 0 <= i < |s| ==> !IsSpace(s[i])
    ensures OneWord(s) && Word(s) == s
  {
    assert Spaces(s) == 0;
    assert s[0..] == s;
    assert Solid(s) == |s|;
    assert s[..|s|] == s;
  }

  ghost predicate Lean(d: seq<nat>, base: nat) {
    Digits(d, base) && (d != [] ==> d[0] != 0)
  }

  lemma DigitsAreLean(v: nat, base: nat)
    requires base > 1
    ensures Lean(DigitsOf(v, base), base)
  {
    DigitsLead(v, base);
  }

  /** Leading zero bytes become leading ones, the rest is converted. */
  lemma EncodeIs(z: nat, y: seq<nat>)
    requires Lean(y, 256)
    ensures Encode(Zeros(z) + y) == Ones(z) + Text(DigitsOf(Val(y, 256), 58))
  {
    hide Val;
    hide DigitsOf;
    LeadingOf(z, y, []);
    assert (Zeros(z) + y)[z..] == y;
    hide LeadingZeros;
    hide LeadingOnes;
  }

  lemma DecodeWordIs(z: nat, d: seq<nat>)
    requires Lean(d, 58)
    ensures DecodeWord(Ones(z) + Text(d)) == Some(Zeros(z) + DigitsOf(Val(d, 58), 256))
  {
    hide Val;
    hide DigitsOf;
    assert d != [] ==> Text(d)[0] != ONE;
    hide Symbol;
    LeadingOf(z, [], Text(d));
    assert (Ones(z) + Text(d))[z..] == Text(d);
    ReadText(d);
    hide Read;
    hide LeadingZeros;
    hide LeadingOnes;
  }

  lemma BytesSplit(bytes: seq<nat>)
    requires Digits(bytes, 256)
    ensures var z := LeadingZeros(bytes); Lean(bytes[z..], 256) && bytes == Zeros(z) + bytes[z..]
  {
    var z := LeadingZeros(bytes);
    hide LeadingZeros;
    assert forall i :: 0 <= i < |bytes[z..]| ==> bytes[z..][i] == bytes[z + i];
    assert bytes == Zeros(z) + bytes[z..];
  }

  lemma WordSplit(w: string)
    requires DecodeWord(w).Some?
    ensures var z := LeadingOnes(w);
            Read(w[z..]).Some? && Lean(Read(w[z..]).value, 58) && w == Ones(z) + Text(Read(w[z..]).value)
  {
    hide Val;
    hide DigitsOf;
    var z := LeadingOnes(w);
    TextRead(w[z..]);
    assert w == Ones(z) + w[z..];
  }

  /** Decoding undoes encoding, for every byte string. */
  lemma DecodeEncode(bytes: seq<nat>)
    requires Digits(bytes, 256)
    ensures Decode(Encode(bytes)) == Some(bytes)
  {
    EncodeNoSpace(bytes);
    WordOfSolid(Encode(bytes));
    assert Decode(Encode(bytes)) == DecodeWord(Encode(bytes));
    hide *;
    var z := LeadingZeros(bytes);
    var y := bytes[z..];
    var v := Val(y, 256);
    BytesSplit(bytes);
    EncodeIs(z, y);
    DigitsAreLean(v, 58);
    DecodeWordIs(z, DigitsOf(v, 58));
    ValOfDigits(v, 58);
    LeanDigits(y, 256);
    DigitsOfVal(y, 256);
  }

  lemma LeanDigits(d: seq<nat>, base: nat)
    requires Lean(d, base)
    ensures Digits(d, base) && (d != [] ==> d[0] != 0)
  {
  }

  /** Every accepted text is the encoding of what it decodes to, but for the spaces around it. */
  lemma EncodeDecode(s: string)
    requires Decode(s).Some?
    ensures Digits(Decode(s).value, 256)
    ensures Encode(Decode(s).value) == Word(s)
  {
    var w := Word(s);
    assert Decode(s) == DecodeWord(w);
    hide *;
    WordSplit(w);
    var z := LeadingOnes(w);
    var d := Read(w[z..]).value;
    var v := Val(d, 58);
    var y := DigitsOf(v, 256);
    DecodeWordIs(z, d);
    DigitsAreLean(v, 256);
    LeanDigits(y, 256);
    PaddedBytes(z, y);
    EncodeIs(z, y);
    ValOfDigits(v, 256);
    LeanDigits(d, 58);
    DigitsOfVal(d, 58);
  }

  lemma PaddedBytes(z: nat, y: seq<nat>)
    requires Digits(y, 256)
    ensures Digits(Zeros(z) + y, 256)
  {
  }

  // ----- The checksummed form

  /** The first four bytes of the hash. */
  type Checksum = seq<nat> -> seq<nat>

  ghost predicate FourBytes(checksum: Checksum) {
    forall b :: |checksum(b)| == 4 && Digits(checksum(b), 256)
  }

  function EncodeCheck(checksum: Checksum, bytes: seq<nat>): string {
    Encode(bytes + checksum(bytes))
  }

  function DecodeCheck(checksum: Checksum, s: string): Option<seq<nat>> {
    var d := Decode(s);
    if d.None? || |d.value| < 4 then None else
      var n := |d.value| - 4;
      if checksum(d.value[..n]) != d.value[n..] then None else Some(d.value[..n])
  }

  lemma DecodeEncodeCheck(checksum: Checksum, bytes: seq<nat>)
    requires FourBytes(checksum) && Digits(bytes, 256)
    ensures DecodeCheck(checksum, EncodeCheck(checksum, bytes)) == Some(bytes)
  {
    hide Encode;
    hide Decode;
    var all := bytes + checksum(bytes);
    assert Digits(checksum(bytes), 256);
    DecodeEncode(all);
    assert all[..|bytes|] == bytes && all[|bytes|..] == checksum(bytes);
  }

  /** What is accepted carries the right checksum and is the encoding of what is returned, but for spaces. */
  lemma EncodeDecodeCheck(checksum: Checksum, s: string)
    requires DecodeCheck(checksum, s).Some?
    ensures EncodeCheck(checksum, DecodeCheck(checksum, s).value) == Word(s)
  {
    hide Encode;
    hide Decode;
    hide Word;
    assert Decode(s).Some?;
    EncodeDecode(s);
    var all := Decode(s).value;
    var n := |all| - 4;
    assert all[..n] + all[n..] == all;
  }

  // ----- The loops over the digit buffers

  /** `buf` holds a number in its last `length` places. */
  ghost predicate Holds(buf: seq<nat>, base: nat, length: nat, v: nat) {
    && Digits(buf, base) && length <= |buf| && Val(buf, base) == v
    && forall i :: 0 <= i < |buf| - length ==> buf[i] == 0
  }

  lemma CarryDigit(x: nat, low: nat, oldLow: nat, carry: nat, factor: nat, base: nat, p: nat, start: nat)
    requires base > 0 && low + carry * p == oldLow * factor + start
    ensures var t := carry + factor * x;
            (t % base) * p + low + (t / base) * (base * p) == (x * p + oldLow) * factor + start
  {
    var t := carry + factor * x;
    var q, r := t / base, t % base;
    Recompose(t, base);
    assert q * (base * p) == (q * base) * p by {
      Associate(q, base, p);
    }
    Distribute(q * base, r, p);
    Distribute(carry, factor * x, p);
    assert (factor * x) * p == (x * p) * factor by {
      Associate(factor, x, p);
    }
    Distribute(x * p, oldLow, factor);
  }

  lemma ValCons(x: nat, d: seq<nat>, base: nat)
    ensures Val([x] + d, base) == x * Pow(base, |d|) + Val(d, base)
  {
    ValAppend([x], d, base);
    assert [x][..0] == [];
    assert Val([], base) == 0;
    assert Val([x], base) == x;
  }

  function MulAdd(x: nat, factor: nat, add: nat): nat {
    x * factor + add
  }

  function Rem(t: nat, base: nat): (r: nat)
    requires base > 0
    ensures r < base
  {
    t % base
  }

  function Quo(t: nat, base: nat): nat
    requires base > 0
  {
    NonNegative(t, base);
    t / base
  }

  /** The low `i` places are multiplied, with a carry pending. */
  ghost predicate Multiplied(buf: seq<nat>, was: seq<nat>, i: nat, carry: nat, factor: nat, base: nat, start: nat) {
    && i <= |buf| == |was|
    && buf[..|buf| - i] == was[..|buf| - i]
    && Val(buf[|buf| - i..], base) + carry * Pow(base, i) == Val(was[|was| - i..], base) * factor + start
  }

  lemma MultiplyStep(buf: seq<nat>, was: seq<nat>, i: nat, carry: nat, factor: nat, base: nat, start: nat)
    requires base > 0 && i < |buf| && Multiplied(buf, was, i, carry, factor, base, start)
    ensures var k := |buf| - 1 - i;
            var t := MulAdd(buf[k], factor, carry);
            Multiplied(buf[k := Rem(t, base)], was, i + 1, Quo(t, base), factor, base, start)
  {
    hide Val;
    hide Pow;
    var k := |buf| - 1 - i;
    var x := buf[k];
    var t := carry + factor * x;
    var after := buf[k := t % base];
    OneDigit(buf, was, k, t % base);
    ValCons(t % base, buf[k + 1..], base);
    ValCons(x, was[k + 1..], base);
    CarryDigit(x, Val(buf[k + 1..], base), Val(was[k + 1..], base), carry, factor, base, Pow(base, i), start);
    PowNext(base, i);
  }

  lemma PowNext(base: nat, i: nat)
    ensures Pow(base, i + 1) == base * Pow(base, i)
  {
  }

  /** Place `k` gets a digit; the places before it are still the same. */
  lemma OneDigit(buf: seq<nat>, was: seq<nat>, k: nat, d: nat)
    requires k < |buf| == |was| && buf[..k + 1] == was[..k + 1]
    ensures var after := buf[k := d];
            && was[k] == buf[k] && after[k..] == [d] + buf[k + 1..] && was[k..] == [buf[k]] + was[k + 1..]
            && after[..k] == was[..k]
  {
    assert buf[..k + 1][k] == was[..k + 1][k];
    assert buf[k := d][..k] == buf[..k + 1][..k] && was[..k] == was[..k + 1][..k];
  }

  /** With zeros in front only the low places count. */
  lemma LowPlaces(buf: seq<nat>, base: nat, m: nat)
    requires m <= |buf| && forall j :: 0 <= j < m ==> buf[j] == 0
    ensures Val(buf, base) == Val(buf[m..], base)
  {
    assert buf == buf[..m] + buf[m..];
    ValAppend(buf[..m], buf[m..], base);
    ValZeros(buf[..m], base);
    hide Val;
    hide Pow;
  }

  lemma NoCarryLeft(low: nat, carry: nat, p: nat, total: nat)
    requires low + carry * p == total < p
    ensures carry == 0 && low == total
  {
    if carry > 0 {
      MulAtMost(1, carry, p);
    }
  }

  lemma MultiplyDone(buf: seq<nat>, was: seq<nat>, i: nat, carry: nat, factor: nat, base: nat, start: nat, length: nat, v: nat)
    requires base > 0 && Digits(buf, base) && Holds(was, base, length, v) && length <= i
    requires Multiplied(buf, was, i, carry, factor, base, start)
    requires carry == 0 || i == |buf|
    requires MulAdd(v, factor, start) < Pow(base, |buf|)
    ensures carry == 0 && Holds(buf, base, i, MulAdd(v, factor, start))
  {
    hide Val;
    hide Pow;
    var m := |buf| - i;
    LowPlaces(was, base, m);
    if i == |buf| {
      NoCarryLeft(Val(buf[m..], base), carry, Pow(base, i), v * factor + start);
    }
    forall j | 0 <= j < m ensures buf[j] == 0 {
      assert buf[..m][j] == was[..m][j];
    }
    LowPlaces(buf, base, m);
  }

  /** Multiply the number in the buffer and add a digit; the buffer is large enough, so no carry is left. */
  method MultiplyAdd(buf: array<nat>, length: nat, digit: nat, factor: nat, base: nat, ghost v: nat) returns (i: nat)
    requires base > 1 && Holds(buf[..], base, length, v) && MulAdd(v, factor, digit) < Pow(base, buf.Length)
    modifies buf
    ensures Holds(buf[..], base, i, MulAdd(v, factor, digit))
  {
    ghost var was := buf[..];
    var carry: nat := digit;
    i := 0;
    MultiplyStart(was, digit, factor, base);
    HoldsDigits(was, base, length, v);
    hide *;
    while (carry != 0 || i < length) && i < buf.Length
      invariant i <= buf.Length && Digits(buf[..], base)
      invariant Multiplied(buf[..], was, i, carry, factor, base, digit)
      decreases buf.Length - i
    {
      ghost var before := buf[..];
      MultiplyStep(before, was, i, carry, factor, base, digit);
      var k := buf.Length - 1 - i;
      var t := MulAdd(buf[k], factor, carry);
      DigitPut(before, k, Rem(t, base), base);
      buf[k] := Rem(t, base);
      assert buf[..] == before[k := Rem(t, base)];
      carry := Quo(t, base);
      i := i + 1;
    }
    MultiplyDone(buf[..], was, i, carry, factor, base, digit, length, v);
    assert carry == 0;
  }

  lemma HoldsDigits(buf: seq<nat>, base: nat, length: nat, v: nat)
    requires Holds(buf, base, length, v)
    ensures Digits(buf, base) && length <= |buf|
  {
  }

  lemma DigitPut(d: seq<nat>, k: nat, x: nat, base: nat)
    requires Digits(d, base) && k < |d| && x < base
    ensures Digits(d[k := x], base)
  {
  }

  lemma MultiplyStart(was: seq<nat>, digit: nat, factor: nat, base: nat)
    ensures Multiplied(was, was, 0, digit, factor, base, digit)
  {
    assert was[|was|..] == [];
    assert Val([], base) == 0;
    assert Pow(base, 0) == 1;
  }

  lemma NonNegative(t: nat, base: nat)
    requires base > 0
    ensures 0 <= t / base && 0 <= t % base < base
  {
  }

  /** The digits left after the leading zeros. */
  method Trimmed(buf: array<nat>, length: nat, base: nat, ghost v: nat) returns (digits: seq<nat>)
    requires base > 1 && Holds(buf[..], base, length, v)
    ensures digits == DigitsOf(v, base)
  {
    hide Val;
    hide DigitsOf;
    var it := buf.Length - length;
    while it < buf.Length && buf[it] == 0
      invariant buf.Length - length <= it <= buf.Length
      invariant forall j :: 0 <= j < it ==> buf[j] == 0
    {
      it := it + 1;
    }
    ghost var all := buf[..];
    assert all == all[..it] + all[it..];
    ValAppend(all[..it], all[it..], base);
    ValZeros(all[..it], base);
    DigitsOfVal(all[it..], base);
    digits := buf[it..];
  }

  lemma ValOfPrefix(d: seq<nat>, k: nat, base: nat, size: nat)
    requires base > 0 && Digits(d, base) && k < |d| && Pow(base, |d|) <= size
    ensures Val(d[..k + 1], base) == MulAdd(Val(d[..k], base), base, d[k]) < size
  {
    assert d[..k + 1] == d[..k] + [d[k]];
    ValSnoc(d[..k], d[k], base);
    ValBound(d[..k + 1], base);
    PowGrows(base, k + 1, |d|);
  }

  method EncodeBase58(bytes: seq<nat>) returns (str: string)
    requires Digits(bytes, 256)
    ensures str == Encode(bytes)
  {
    var zeroes := 0;
    while zeroes < |bytes| && bytes[zeroes] == 0
      invariant zeroes <= |bytes| && forall i :: 0 <= i < zeroes ==> bytes[i] == 0
    {
      zeroes := zeroes + 1;
    }
    assert zeroes == LeadingZeros(bytes);
    hide LeadingZeros;
    var rest := bytes[zeroes..];
    var digits := Convert(rest, 256, 58, |rest| * 138 / 100 + 1) by {
      EncodeFits(|rest|);
    }
    hide Val;
    hide DigitsOf;
    hide Symbol;
    str := Ones(zeroes);
    var it := 0;
    while it < |digits|
      invariant it <= |digits| && str == Ones(zeroes) + Text(digits[..it])
    {
      str := str + [Symbol(digits[it])];
      assert Text(digits[..it + 1]) == Text(digits[..it]) + [Symbol(digits[it])];
      it := it + 1;
    }
    assert digits[..it] == digits;
  }

  /** Bring digits from one radix to another, in a buffer of the given size. */
  method Convert(source: seq<nat>, factor: nat, base: nat, size: nat) returns (digits: seq<nat>)
    requires base > 1 && factor > 0 && Digits(source, factor) && Pow(factor, |source|) <= Pow(base, size)
    ensures digits == DigitsOf(Val(source, factor), base)
  {
    var buf := new nat[size](_ => 0);
    var length, p := 0, 0;
    ValZeros(buf[..], base);
    assert Holds(buf[..], base, 0, 0);
    assert source[..0] == [] && Val([], factor) == 0;
    hide Val;
    hide Pow;
    hide DigitsOf;
    hide Holds;
    while p < |source|
      invariant p <= |source| && Holds(buf[..], base, length, Val(source[..p], factor))
    {
      ValOfPrefix(source, p, factor, Pow(base, size));
      length := MultiplyAdd(buf, length, source[p], factor, base, Val(source[..p], factor));
      p := p + 1;
    }
    assert source[..p] == source;
    digits := Trimmed(buf, length, base, Val(source, factor));
  }

  /** Where the parts of a text lie: spaces up to `a`, ones up to `b`, solid text up to `c`. */
  ghost predicate LaidOut(s: string, a: nat, b: nat, c: nat) {
    && a <= b <= c <= |s|
    && (forall i :: 0 <= i < a ==> IsSpace(s[i])) && (a < |s| ==> !IsSpace(s[a]))
    && (forall i :: a <= i < b ==> s[i] == ONE) && (b < |s| ==> s[b] != ONE)
    && (forall i :: b <= i < c ==> !IsSpace(s[i]))
  }

  lemma WordReaches(s: string, a: nat, b: nat, c: nat)
    requires LaidOut(s, a, b, c)
    ensures Spaces(s) == a && c <= a + Solid(s[a..])
    ensures c == |s| || IsSpace(s[c]) ==> c == a + Solid(s[a..])
    ensures LeadingOnes(Word(s)) == b - a
    ensures a + |Word(s)| <= |s| && Word(s) == s[a..a + |Word(s)|] && c <= a + |Word(s)|
  {
    var t := s[a..];
    SpacesAre(s, a);
    SolidReaches(s, a, b, c);
    var n := Solid(t);
    hide Solid;
    hide Spaces;
    var w := t[..n];
    assert w == s[a..a + n];
    OnesAre(s, a, b, n);
  }

  lemma SpacesAre(s: string, a: nat)
    requires a <= |s| && (forall i :: 0 <= i < a ==> IsSpace(s[i])) && (a < |s| ==> !IsSpace(s[a]))
    ensures Spaces(s) == a
  {
    var n := Spaces(s);
    hide Spaces;
  }

  lemma SolidReaches(s: string, a: nat, b: nat, c: nat)
    requires LaidOut(s, a, b, c)
    ensures c <= a + Solid(s[a..])
    ensures c == |s| || IsSpace(s[c]) ==> c == a + Solid(s[a..])
  {
    var t := s[a..];
    var n := Solid(t);
    hide Solid;
    assert !IsSpace(ONE);
    assert forall i :: 0 <= i < |t| ==> t[i] == s[a + i];
    assert n < |t| ==> IsSpace(s[a + n]);
  }

  lemma OnesAre(s: string, a: nat, b: nat, n: nat)
    requires a <= b <= a + n <= |s| && (forall i :: a <= i < b ==> s[i] == ONE) && (b < |s| ==> s[b] != ONE)
    ensures LeadingOnes(s[a..a + n]) == b - a
  {
    var w := s[a..a + n];
    var z := LeadingOnes(w);
    hide LeadingOnes;
    assert forall i :: 0 <= i < n ==> w[i] == s[a + i];
    assert z < n ==> s[a + z] != ONE;
  }

  lemma ReadFails(t: string, k: nat)
    requires k < |t| && FindSymbol(t[k], 0).None?
    ensures Read(t).None?
  {
    hide Symbol;
  }

  lemma BadCharacter(s: string, a: nat, b: nat, k: nat)
    requires LaidOut(s, a, b, k) && k < |s| && !IsSpace(s[k]) && FindSymbol(s[k], 0).None?
    ensures Decode(s) == None
  {
    hide *;
    LaidOutOrder(s, a, b, k);
    LaidOutNext(s, a, b, k);
    WordReaches(s, a, b, k + 1);
    DecodeParts(s);
    var w := Word(s);
    assert w[b - a..][k - b] == s[k];
    ReadFails(w[b - a..], k - b);
  }

  lemma LaidOutOrder(s: string, a: nat, b: nat, c: nat)
    requires LaidOut(s, a, b, c)
    ensures a <= b <= c <= |s|
  {
  }

  lemma WholeWord(s: string, a: nat, b: nat, c: nat)
    requires LaidOut(s, a, b, c) && (c == |s| || IsSpace(s[c]))
    ensures Word(s) == s[a..c] && LeadingOnes(Word(s)) == b - a && Word(s)[b - a..] == s[b..c]
    ensures OneWord(s) <==> Spaces(s[c..]) == |s| - c
  {
    hide LaidOut;
    hide LeadingOnes;
    hide Solid;
    hide Spaces;
    LaidOutOrder(s, a, b, c);
    WordReaches(s, a, b, c);
    assert s[a..][c - a..] == s[c..];
  }

  /** The part of a string that a C function sees. */
  function CString(s: string): (r: string)
    ensures r <= s && '\0' !in r && (|r| < |s| ==> s[|r|] == '\0')
  {
    if s == [] || s[0] == '\0' then [] else [s[0]] + CString(s[1..])
  }

  lemma {:induction false} CStringIs(s: string, n: nat)
    requires n <= |s| && '\0' !in s[..n] && (n < |s| ==> s[n] == '\0')
    ensures CString(s) == s[..n]
  {
    if n > 0 {
      assert s[..n] == [s[0]] + s[1..][..n - 1];
      CStringIs(s[1..], n - 1);
    }
  }

  /** The overload for strings decodes up to the first NUL. */
  method DecodeBase58String(str: string) returns (r: Option<seq<nat>>)
    ensures r == Decode(CString(str))
  {
    var n := 0;
    while n < |str| && str[n] != '\0'
      invariant n <= |str| && '\0' !in str[..n]
    {
      n := n + 1;
    }
    CStringIs(str, n);
    hide Decode;
    r := DecodeBase58(str[..n]);
  }

  /** What is accepted is, up to the first NUL and but for spaces, the encoding of what is returned. */
  lemma EncodeDecodeString(str: string)
    requires Decode(CString(str)).Some?
    ensures Digits(Decode(CString(str)).value, 256)
    ensures Encode(Decode(CString(str)).value) == Word(CString(str))
  {
    EncodeDecode(CString(str));
  }

  method DecodeBase58(s: string) returns (r: Option<seq<nat>>)
    requires '\0' !in s
    ensures r == Decode(s)
  {
    hide Decode;
    var a := 0;
    while a < |s| && IsSpace(s[a])
      invariant a <= |s| && forall i :: 0 <= i < a ==> IsSpace(s[i])
    {
      a := a + 1;
    }
    var zeroes := 0;
    while a + zeroes < |s| && s[a + zeroes] == ONE
      invariant a + zeroes <= |s| && forall i :: a <= i < a + zeroes ==> s[i] == ONE
    {
      zeroes := zeroes + 1;
    }
    var b := a + zeroes;
    assert LaidOut(s, a, b, b);
    r := DecodeRest(s, a, b);
  }

  /** From the first character that is not a one. */
  method DecodeRest(s: string, a: nat, b: nat) returns (r: Option<seq<nat>>)
    requires LaidOut(s, a, b, b)
    ensures r == Decode(s)
  {
    hide *;
    LaidOutOrder(s, a, b, b);
    var buf := new nat[(|s| - b) * 733 / 1000 + 1](_ => 0);
    DecodeFits(|s| - b);
    var ok, length, psz, d := ReadDigits(s, a, b, buf);
    if !ok {
      return None;
    }
    ghost var c := psz;
    while psz < |s| && IsSpace(s[psz])
      invariant c <= psz <= |s| && forall i :: c <= i < psz ==> IsSpace(s[i])
    {
      psz := psz + 1;
    }
    DecodeIs(s, a, b, c, psz, d);
    if psz < |s| {
      return None;
    }
    var digits := Trimmed(buf, length, 256, Val(d, 58));
    r := Some(Zeros(b - a) + digits);
  }

  /** Read digits up to a space or the end into the buffer; stop at a character outside the alphabet. */
  method ReadDigits(s: string, ghost a: nat, b: nat, buf: array<nat>) returns (ok: bool, length: nat, psz: nat, ghost d: seq<nat>)
    requires a <= b <= |s| && LaidOut(s, a, b, b) && Pow(58, |s| - b) < Pow(256, buf.Length)
    requires forall i :: 0 <= i < buf.Length ==> buf[i] == 0
    modifies buf
    ensures !ok ==> Decode(s) == None
    ensures ok ==>
              && b <= psz <= |s| && LaidOut(s, a, b, psz) && (psz < |s| ==> IsSpace(s[psz]))
              && Read(s[b..psz]) == Some(d) && Holds(buf[..], 256, length, Val(d, 58))
  {
    hide *;
    NothingRead(s, b, buf[..]);
    length, psz, d := 0, b, [];
    while psz < |s| && !IsSpace(s[psz])
      invariant b <= psz <= |s| && LaidOut(s, a, b, psz)
      invariant Read(s[b..psz]) == Some(d) && |d| == psz - b && Digits(d, 58)
      invariant Holds(buf[..], 256, length, Val(d, 58))
    {
      var x := FindSymbol(s[psz], 0);
      if x.None? {
        BadCharacter(s, a, b, psz);
        return false, length, psz, d;
      }
      ReadNext(s, b, psz, d, x.value);
      LaidOutNext(s, a, b, psz);
      NextFits(d, x.value, |s| - b, Pow(256, buf.Length));
      length := MultiplyAdd(buf, length, x.value, 58, 256, Val(d, 58));
      DigitsNext(d, x.value);
      d := d + [x.value];
      psz := psz + 1;
    }
    return true, length, psz, d;
  }

  lemma LaidOutNext(s: string, a: nat, b: nat, c: nat)
    requires LaidOut(s, a, b, c) && c < |s| && !IsSpace(s[c])
    ensures LaidOut(s, a, b, c + 1)
  {
  }

  lemma DecodeIs(s: string, a: nat, b: nat, c: nat, psz: nat, d: seq<nat>)
    requires a <= b <= c <= psz <= |s| && LaidOut(s, a, b, c) && (c == |s| || IsSpace(s[c])) && Read(s[b..c]) == Some(d)
    requires (forall i :: c <= i < psz ==> IsSpace(s[i])) && (psz < |s| ==> !IsSpace(s[psz]))
    ensures Decode(s) == if psz < |s| then None else Some(Zeros(b - a) + DigitsOf(Val(d, 58), 256))
  {
    hide *;
    WholeWord(s, a, b, c);
    TrailingSpaces(s, c, psz);
    DecodeParts(s);
  }

  lemma NothingRead(s: string, b: nat, buf: seq<nat>)
    requires b <= |s| && forall i :: 0 <= i < |buf| ==> buf[i] == 0
    ensures Holds(buf, 256, 0, Val([], 58)) && Read(s[b..b]) == Some([]) && Digits([], 58)
  {
    ValZeros(buf, 256);
  }

  lemma DigitsNext(d: seq<nat>, x: nat)
    requires Digits(d, 58) && x < 58
    ensures Digits(d + [x], 58)
  {
  }

  lemma TrailingSpaces(s: string, c: nat, psz: nat)
    requires c <= psz <= |s| && (forall i :: c <= i < psz ==> IsSpace(s[i])) && (psz < |s| ==> !IsSpace(s[psz]))
    ensures Spaces(s[c..]) == |s| - c <==> psz == |s|
  {
    var u := s[c..];
    assert forall i :: 0 <= i < |u| ==> u[i] == s[c + i];
    var n := Spaces(u);
    hide Spaces;
    assert n == psz - c;
  }

  lemma DecodeParts(s: string)
    ensures !OneWord(s) || Read(Word(s)[LeadingOnes(Word(s))..]).None? ==> Decode(s) == None
    ensures var w := Word(s);
            var z := LeadingOnes(w);
            OneWord(s) && Read(w[z..]).Some? ==> Decode(s) == Some(Zeros(z) + DigitsOf(Val(Read(w[z..]).value, 58), 256))
  {
    hide Val;
    hide DigitsOf;
    hide Word;
    hide OneWord;
    hide LeadingOnes;
  }

  lemma ReadNext(s: string, b: nat, psz: nat, d: seq<nat>, x: nat)
    requires b <= psz < |s| && Read(s[b..psz]) == Some(d) && FindSymbol(s[psz], 0) == Some(x)
    ensures Read(s[b..psz + 1]) == Some(d + [x])
  {
    var t := s[b..psz + 1];
    assert t[..|t| - 1] == s[b..psz] && t[|t| - 1] == s[psz];
    hide Symbol;
    hide FindSymbol;
  }

  lemma NextFits(d: seq<nat>, x: nat, n: nat, size: nat)
    requires Digits(d, 58) && x < 58 && |d| < n && Pow(58, n) < size
    ensures Val(d + [x], 58) == MulAdd(Val(d, 58), 58, x) < size
  {
    ValSnoc(d, x, 58);
    ValBound(d + [x], 58);
    PowGrows(58, |d| + 1, n);
    hide Pow;
    hide Val;
  }
}
