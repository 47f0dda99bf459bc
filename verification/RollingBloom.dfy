/** The rolling Bloom filter: two bits per cell name the generation in which the cell was last set. */
module RollingBloom {
  import opened Arithmetic

  type Key = seq<nat>

  /** Hash number `n` of a key, for the tweak drawn at the last reset. */
  type Hasher = (nat, Key) -> nat

  // ----- One bit of a 64-bit word

  predicate Bit(x: bv64, b: bv64)
    requires b < 64
  {
    (x >> b) & 1 == 1
  }

  function PutBit(x: bv64, b: bv64, v: bool): bv64
    requires b < 64
  {
    (x & !(1 << b)) | ((if v then 1 else 0) << b)
  }

  lemma PutBitSpec(x: bv64, b: bv64, v: bool, c: bv64)
    requires b < 64 && c < 64
    ensures Bit(PutBit(x, b, v), c) == if b == c then v else Bit(x, c)
  {
  }

  /** All ones or all zeros. */
  function Spread(v: bool): bv64 {
    0 - (if v then 1 else 0)
  }

  function Flip(x: bv64, v: bool): bv64 {
    x ^ Spread(v)
  }

  function Either(x: bv64, y: bv64): bv64 {
    x | y
  }

  /** Zero exactly where the two words hold the given pair of bits. */
  function WipeMask(p1: bv64, p2: bv64, v1: bool, v2: bool): bv64 {
    Either(Flip(p1, v1), Flip(p2, v2))
  }

  lemma XorSpec(x: bv64, v: bool, b: bv64)
    requires b < 64
    ensures Bit(Flip(x, v), b) == (Bit(x, b) != v)
  {
  }

  lemma OrBit(x: bv64, y: bv64, b: bv64)
    requires b < 64
    ensures Bit(x | y, b) == (Bit(x, b) || Bit(y, b))
  {
  }

  lemma OrSpec(x: bv64, y: bv64, b: bv64)
    requires b < 64
    ensures Bit(Either(x, y), b) == (Bit(x, b) || Bit(y, b))
  {
    hide Bit;
    OrBit(x, y, b);
  }

  function Masked(x: bv64, y: bv64): bv64 {
    x & y
  }

  lemma MaskedSpec(x: bv64, y: bv64, b: bv64)
    requires b < 64
    ensures Bit(Masked(x, y), b) == (Bit(x, b) && Bit(y, b))
  {
    assert Bit(x & y, b) == (Bit(x, b) && Bit(y, b));
    hide Bit;
  }

  lemma WipeMaskSpec(p1: bv64, p2: bv64, v1: bool, v2: bool, b: bv64)
    requires b < 64
    ensures Bit(WipeMask(p1, p2, v1, v2), b) <==> !(Bit(p1, b) == v1 && Bit(p2, b) == v2)
  {
    hide Bit;
    hide Flip;
    hide Either;
    XorSpec(p1, v1, b);
    XorSpec(p2, v2, b);
    OrSpec(Flip(p1, v1), Flip(p2, v2), b);
  }

  // ----- Cells

  datatype Cell = Cell(w: nat, b: bv64)

  predicate Shaped(data: seq<bv64>) {
    |data| > 0 && |data| % 2 == 0
  }

  predicate InRange(data: seq<bv64>, c: Cell) {
    2 * c.w + 1 < |data| && c.b < 64
  }

  function BitIndex(n: nat): (b: bv64)
    requires n < 64
    ensures b < 64
  {
    Widened(n as bv6)
  }

  function Widened(x: bv6): (b: bv64)
    ensures b < 64
  {
    x as bv64
  }

  lemma WidenedDiffers(x: bv6, y: bv6)
    requires Widened(x) == Widened(y)
    ensures x == y
  {
  }

  lemma SixBits(n: nat)
    requires n < 64
    ensures (n as bv6) as nat == n
  {
  }

  /** Position and bit of a hash; the lowest bit of the position is not used. */
  function CellOf(h: nat, size: nat): (c: Cell)
    requires size > 0 && size % 2 == 0
    ensures 2 * c.w + 1 < size && c.b < 64
  {
    Cell(h / 64 % size / 2, BitIndex(h % 64))
  }

  /** The generation, 1 to 3, that a cell names, or 0 if it is not set. */
  function GenAt(data: seq<bv64>, c: Cell): (r: nat)
    requires InRange(data, c)
    ensures r <= 3
  {
    (if Bit(data[2 * c.w], c.b) then 1 else 0) + (if Bit(data[2 * c.w + 1], c.b) then 2 else 0)
  }

  lemma EitherSet(data: seq<bv64>, c: Cell)
    requires InRange(data, c)
    ensures Bit(Either(data[2 * c.w], data[2 * c.w + 1]), c.b) <==> GenAt(data, c) != 0
  {
    hide Bit;
    hide Either;
    OrSpec(data[2 * c.w], data[2 * c.w + 1], c.b);
  }

  type Generation = g: nat | 1 <= g <= 3 witness 1

  function Odd(g: Generation): bool {
    g % 2 == 1
  }

  function High(g: Generation): bool {
    g / 2 == 1
  }

  function Marked(data: seq<bv64>, c: Cell, g: Generation): (r: seq<bv64>)
    requires InRange(data, c)
    ensures |r| == |data|
  {
    data[2 * c.w := PutBit(data[2 * c.w], c.b, Odd(g))][2 * c.w + 1 := PutBit(data[2 * c.w + 1], c.b, High(g))]
  }

  /** Marking changes one cell. */
  lemma MarkedSpec(data: seq<bv64>, c: Cell, g: Generation, d: Cell)
    requires InRange(data, c) && InRange(data, d)
    ensures GenAt(Marked(data, c, g), d) == if c == d then g else GenAt(data, d)
  {
    hide Bit;
    hide PutBit;
    if c.w == d.w {
      PutBitSpec(data[2 * c.w], c.b, Odd(g), d.b);
      PutBitSpec(data[2 * c.w + 1], c.b, High(g), d.b);
    }
  }

  function WipedWord(data: seq<bv64>, i: nat, g: Generation): bv64
    requires i < |data| && |data| % 2 == 0
  {
    var p := i - i % 2;
    Masked(data[i], WipeMask(data[p], data[p + 1], Odd(g), High(g)))
  }

  lemma WipedPair(data: seq<bv64>, p: nat, g: Generation)
    requires p + 1 < |data| && |data| % 2 == 0 && p % 2 == 0
    ensures var mask := WipeMask(data[p], data[p + 1], Odd(g), High(g));
            WipedWord(data, p, g) == Masked(data[p], mask) && WipedWord(data, p + 1, g) == Masked(data[p + 1], mask)
  {
    hide WipeMask;
    hide Masked;
    assert (p + 1) - (p + 1) % 2 == p;
  }

  function Wiped(data: seq<bv64>, g: Generation): (r: seq<bv64>)
    requires |data| % 2 == 0
    ensures |r| == |data| && forall i :: 0 <= i < |data| ==> r[i] == WipedWord(data, i, g)
  {
    seq(|data|, i requires 0 <= i < |data| => WipedWord(data, i, g))
  }

  /** Wiping unsets exactly the cells of that generation. */
  lemma WipedSpec(data: seq<bv64>, g: Generation, c: Cell)
    requires |data| % 2 == 0 && InRange(data, c)
    ensures GenAt(Wiped(data, g), c) == if GenAt(data, c) == g then 0 else GenAt(data, c)
  {
    hide Bit;
    hide WipeMask;
    hide Masked;
    hide Wiped;
    var p := 2 * c.w;
    var mask := WipeMask(data[p], data[p + 1], Odd(g), High(g));
    hide WipedWord;
    WipedPair(data, p, g);
    WipeMaskSpec(data[p], data[p + 1], Odd(g), High(g), c.b);
    MaskedSpec(data[p], mask, c.b);
    MaskedSpec(data[p + 1], mask, c.b);
  }

  // ----- The filter

  /** Fixed at construction: the entries per generation and the number of hash functions. */
  datatype Sizes = Sizes(perGeneration: nat, hashFuncs: nat)

  datatype Filter = Filter(data: seq<bv64>, generation: Generation, entries: nat)

  predicate Fits(z: Sizes, f: Filter) {
    z.perGeneration > 0 && Shaped(f.data) && f.entries <= z.perGeneration
  }

  function CellFor(hash: Hasher, key: Key, n: nat, size: nat): (c: Cell)
    requires size > 0 && size % 2 == 0
    ensures 2 * c.w + 1 < size && c.b < 64
  {
    CellOf(hash(n, key), size)
  }

  /** The first `n` cells of the key are marked. */
  function MarkKey(hash: Hasher, data: seq<bv64>, key: Key, n: nat, g: Generation): (r: seq<bv64>)
    requires Shaped(data)
    ensures |r| == |data|
  {
    if n == 0 then data else Marked(MarkKey(hash, data, key, n - 1, g), CellFor(hash, key, n - 1, |data|), g)
  }

  function NextGeneration(g: Generation): Generation {
    if g == 3 then 1 else g + 1
  }

  function Rotated(z: Sizes, f: Filter): Filter
    requires Fits(z, f)
  {
    if f.entries == z.perGeneration
    then Filter(Wiped(f.data, NextGeneration(f.generation)), NextGeneration(f.generation), 0)
    else f
  }

  function Inserted(hash: Hasher, z: Sizes, f: Filter, key: Key): (r: Filter)
    requires Fits(z, f)
    ensures Fits(z, r) && |r.data| == |f.data| && r.entries > 0
  {
    var q := Rotated(z, f);
    Filter(MarkKey(hash, q.data, key, z.hashFuncs, q.generation), q.generation, q.entries + 1)
  }

  predicate Holds(hash: Hasher, z: Sizes, f: Filter, key: Key)
    requires Shaped(f.data)
  {
    forall n :: 0 <= n < z.hashFuncs ==> GenAt(f.data, CellFor(hash, key, n, |f.data|)) != 0
  }

  /** How many generations ago a cell was marked. */
  function Age(v: nat, g: Generation): nat
    requires v <= 3
  {
    if v <= g then g - v else g + 3 - v
  }

  /** All the key's cells were marked at most `age` generations ago. */
  ghost predicate Recent(hash: Hasher, z: Sizes, f: Filter, key: Key, age: nat)
    requires Shaped(f.data)
  {
    forall n :: 0 <= n < z.hashFuncs ==> 
      var v := GenAt(f.data, CellFor(hash, key, n, |f.data|)); v != 0 && Age(v, f.generation) <= age
  }

  lemma {:induction false} MarkKeySpec(hash: Hasher, data: seq<bv64>, key: Key, n: nat, g: Generation, d: Cell)
    requires Shaped(data) && InRange(data, d)
    ensures GenAt(MarkKey(hash, data, key, n, g), d) == g || GenAt(MarkKey(hash, data, key, n, g), d) == GenAt(data, d)
    ensures (exists m :: 0 <= m < n && CellFor(hash, key, m, |data|) == d) ==> GenAt(MarkKey(hash, data, key, n, g), d) == g
    ensures (forall m :: 0 <= m < n ==> CellFor(hash, key, m, |data|) != d) ==> GenAt(MarkKey(hash, data, key, n, g), d) == GenAt(data, d)
  {
    hide GenAt;
    hide Marked;
    hide CellFor;
    if n > 0 {
      var before := MarkKey(hash, data, key, n - 1, g);
      MarkKeySpec(hash, data, key, n - 1, g, d);
      MarkedSpec(before, CellFor(hash, key, n - 1, |data|), g, d);
    }
  }

  /** Moving to the next generation wipes only what is two generations old. */
  lemma RotateKeeps(hash: Hasher, z: Sizes, f: Filter, key: Key, age: nat)
    requires Fits(z, f) && Recent(hash, z, f, key, age) && age <= 2
    requires f.entries == z.perGeneration ==> age <= 1
    ensures Shaped(Rotated(z, f).data)
    ensures Recent(hash, z, Rotated(z, f), key, if f.entries == z.perGeneration then age + 1 else age)
  {
    if f.entries == z.perGeneration {
      var g := NextGeneration(f.generation);
      forall n | 0 <= n < z.hashFuncs
        ensures var v := GenAt(Wiped(f.data, g), CellFor(hash, key, n, |f.data|)); v != 0 && Age(v, g) <= age + 1
      {
        var c := CellFor(hash, key, n, |f.data|);
        WipedSpec(f.data, g, c);
        assert GenAt(f.data, c) <= 3;
        hide Wiped;
        hide CellFor;
      }
    }
  }

  /** Marking another key's cells makes none older. */
  lemma MarkKeeps(hash: Hasher, z: Sizes, f: Filter, key: Key, age: nat, other: Key, k: nat, entries: nat)
    requires Shaped(f.data) && Recent(hash, z, f, key, age)
    ensures Recent(hash, z, Filter(MarkKey(hash, f.data, other, k, f.generation), f.generation, entries), key, age)
  {
    var data := MarkKey(hash, f.data, other, k, f.generation);
    forall n | 0 <= n < z.hashFuncs
      ensures var v := GenAt(data, CellFor(hash, key, n, |data|)); v != 0 && Age(v, f.generation) <= age
    {
      MarkKeySpec(hash, f.data, other, k, f.generation, CellFor(hash, key, n, |data|));
      hide GenAt;
      hide CellFor;
      hide MarkKey;
    }
  }

  /** The number of further insertions that a key of this age certainly survives. */
  function Budget(z: Sizes, f: Filter, age: nat): int {
    z.perGeneration - f.entries + (2 - age) * z.perGeneration
  }

  lemma InsertKeeps(hash: Hasher, z: Sizes, f: Filter, key: Key, age: nat, other: Key) returns (next: nat)
    requires Fits(z, f) && age <= 2 && Recent(hash, z, f, key, age) && Budget(z, f, age) > 0
    ensures next <= 2 && Recent(hash, z, Inserted(hash, z, f, other), key, next)
    ensures Budget(z, Inserted(hash, z, f, other), next) == Budget(z, f, age) - 1
  {
    hide Recent;
    hide MarkKey;
    hide Wiped;
    next := if f.entries == z.perGeneration then age + 1 else age;
    RotateKeeps(hash, z, f, key, age);
    var q := Rotated(z, f);
    MarkKeeps(hash, z, q, key, next, other, z.hashFuncs, q.entries + 1);
  }

  lemma InsertedIsRecent(hash: Hasher, z: Sizes, f: Filter, key: Key)
    requires Fits(z, f)
    ensures Recent(hash, z, Inserted(hash, z, f, key), key, 0)
  {
    var q := Rotated(z, f);
    var data := MarkKey(hash, q.data, key, z.hashFuncs, q.generation);
    forall n | 0 <= n < z.hashFuncs ensures GenAt(data, CellFor(hash, key, n, |data|)) == q.generation {
      var d := CellFor(hash, key, n, |q.data|);
      MarkKeySpec(hash, q.data, key, z.hashFuncs, q.generation, d);
      hide GenAt;
      hide CellFor;
      hide MarkKey;
    }
  }

  // ----- Runs since the last reset

  function Blank(size: nat): Filter {
    Filter(seq(size, (i: nat) => 0), 1, 0)
  }

  function Run(hash: Hasher, z: Sizes, f: Filter, keys: seq<Key>): (r: Filter)
    requires Fits(z, f)
    ensures Fits(z, r)
  {
    if keys == [] then f else Inserted(hash, z, Run(hash, z, f, keys[..|keys| - 1]), keys[|keys| - 1])
  }

  /** A key with enough budget is still held after further insertions. */
  lemma {:induction false} SurvivesRun(hash: Hasher, z: Sizes, f: Filter, keys: seq<Key>, i: nat) returns (age: nat)
    requires Fits(z, f) && i < |keys| && |keys| - 1 - i <= 2 * z.perGeneration
    ensures age <= 2 && Recent(hash, z, Run(hash, z, f, keys), keys[i], age)
    ensures Budget(z, Run(hash, z, f, keys), age) >= 2 * z.perGeneration - (|keys| - 1 - i)
    decreases |keys|
  {
    hide Recent;
    hide Inserted;
    var last := |keys| - 1;
    var before := Run(hash, z, f, keys[..last]);
    if i == last {
      InsertedIsRecent(hash, z, before, keys[i]);
      age := 0;
    } else {
      var a := SurvivesRun(hash, z, f, keys[..last], i);
      age := InsertKeeps(hash, z, before, keys[i], a, keys[last]);
    }
  }

  /** A filter sized for `n` elements holds each of the last `n` inserted keys, whatever was inserted before. */
  lemma HoldsLast(hash: Hasher, hashFuncs: nat, n: nat, size: nat, keys: seq<Key>, i: nat)
    requires n >= 1 && size > 0 && size % 2 == 0
    requires |keys| - n <= i < |keys|
    ensures Fits(Sizes((n + 1) / 2, hashFuncs), Blank(size))
    ensures var z := Sizes((n + 1) / 2, hashFuncs); Holds(hash, z, Run(hash, z, Blank(size), keys), keys[i])
  {
    var z := Sizes((n + 1) / 2, hashFuncs);
    var age := SurvivesRun(hash, z, Blank(size), keys, i);
    hide Run;
    hide GenAt;
    hide CellFor;
  }

  // ----- Exactly what is held

  /** Two hashes fall on the same bit of the same pair of words. */
  predicate SamePlace(h: nat, k: nat, size: nat)
    requires size > 0
  {
    h / 64 % size / 2 == k / 64 % size / 2 && h % 64 == k % 64
  }

  lemma CellIsPlace(h: nat, k: nat, size: nat)
    requires size > 0 && size % 2 == 0
    ensures CellOf(h, size) == CellOf(k, size) <==> SamePlace(h, k, size)
  {
    BitIndexDiffers(h % 64, k % 64);
    hide BitIndex;
  }

  lemma BitIndexDiffers(m: nat, n: nat)
    requires m < 64 && n < 64
    ensures BitIndex(m) == BitIndex(n) ==> m == n
  {
    if BitIndex(m) == BitIndex(n) {
      WidenedDiffers(m as bv6, n as bv6);
      SixBits(m);
      SixBits(n);
    }
    hide *;
  }

  /** One of the hashes of the key falls on the cell. */
  ghost predicate Hits(hash: Hasher, hashFuncs: nat, key: Key, d: Cell, size: nat)
    requires size > 0 && size % 2 == 0
  {
    exists m :: 0 <= m < hashFuncs && CellFor(hash, key, m, size) == d
  }

  /** The number of the last key that hits the cell, or -1. */
  ghost function LastHit(hash: Hasher, hashFuncs: nat, keys: seq<Key>, d: Cell, size: nat): (r: int)
    requires size > 0 && size % 2 == 0
    ensures -1 <= r < |keys|
  {
    if keys == [] then -1 else
      var n := |keys| - 1;
      if Hits(hash, hashFuncs, keys[n], d, size) then n else LastHit(hash, hashFuncs, keys[..n], d, size)
  }

  /** The value of a cell whose last hit was by key `last`, when key `now` is the last one inserted. */
  ghost function ValueOf(last: int, now: nat, perGeneration: nat): nat
    requires perGeneration > 0
  {
    if last < 0 || last / perGeneration < now / perGeneration - 2 then 0 else last / perGeneration % 3 + 1
  }

  /** The filter after these keys: which generation it is in, how full that is, and the value of every cell. */
  ghost predicate Tells(hash: Hasher, z: Sizes, keys: seq<Key>, f: Filter, size: nat) {
    && z.perGeneration > 0 && |f.data| == size && size > 0 && size % 2 == 0
    && (keys == [] ==> f.generation == 1 && f.entries == 0)
    && (keys != [] ==>
          f.generation == (|keys| - 1) / z.perGeneration % 3 + 1 && f.entries == (|keys| - 1) % z.perGeneration + 1)
    && forall d :: InRange(f.data, d) ==> GenAt(f.data, d) == Value(hash, z, keys, d, size)
  }

  ghost function Value(hash: Hasher, z: Sizes, keys: seq<Key>, d: Cell, size: nat): nat
    requires size > 0 && size % 2 == 0 && z.perGeneration > 0
  {
    if keys == [] then 0 else ValueOf(LastHit(hash, z.hashFuncs, keys, d, size), |keys| - 1, z.perGeneration)
  }

  lemma NextPlace(m: nat, p: nat)
    requires m > 0 && p > 0
    ensures m % p == 0 ==> (m - 1) % p + 1 == p && m / p == (m - 1) / p + 1
    ensures m % p != 0 ==> (m - 1) % p + 1 == m % p < p && m / p == (m - 1) / p
  {
    var q, r := (m - 1) / p, (m - 1) % p;
    assert m == q * p + (r + 1);
    if r + 1 == p {
      Distribute(q, 1, p);
      DivModUnique(m, q + 1, 0, p);
    } else {
      DivModUnique(m, q, r + 1, p);
    }
  }

  /** What the wipe leaves of a cell's value when a generation ends. */
  lemma ValueAges(last: int, m: nat, p: nat)
    requires m > 0 && p > 0 && last < m
    ensures m % p == 0 ==>
              var v := ValueOf(last, m - 1, p);
              ValueOf(last, m, p) == if v == m / p % 3 + 1 then 0 else v
    ensures m % p != 0 ==> ValueOf(last, m, p) == ValueOf(last, m - 1, p)
  {
    NextPlace(m, p);
    if m % p == 0 && last >= 0 {
      DivOrder(last, m - 1, p);
      Thirds(last / p, (m - 1) / p);
    }
  }

  lemma DivOrder(a: nat, b: nat, p: nat)
    requires a <= b && p > 0
    ensures a / p <= b / p
  {
    var q, r := a / p, b / p;
    assert a == q * p + a % p && b == r * p + b % p;
    if q > r {
      MulAtMost(r + 1, q, p);
      Distribute(r, 1, p);
    }
  }

  lemma Thirds(a: nat, b: nat)
    requires a <= b
    ensures b - 2 <= a ==> (a % 3 == (b + 1) % 3 <==> a == b - 2)
  {
  }

  lemma RotatedTells(hash: Hasher, z: Sizes, keys: seq<Key>, f: Filter, size: nat, d: Cell)
    requires Tells(hash, z, keys, f, size) && Fits(z, f) && InRange(f.data, d)
    ensures var q := Rotated(z, f);
            && |q.data| == size && q.generation == |keys| / z.perGeneration % 3 + 1
            && q.entries == |keys| % z.perGeneration
            && GenAt(q.data, d) == ValueOf(LastHit(hash, z.hashFuncs, keys, d, size), |keys|, z.perGeneration)
  {
    hide GenAt;
    hide LastHit;
    var p := z.perGeneration;
    if keys == [] {
      assert 0 / p == 0 && 0 % p == 0;
      NothingHit(hash, z.hashFuncs, d, size);
    } else {
      NextPlace(|keys|, p);
      ValueAges(LastHit(hash, z.hashFuncs, keys, d, size), |keys|, p);
      hide ValueOf;
      if |keys| % p == 0 {
        NextThird((|keys| - 1) / p);
        WipedSpec(f.data, NextGeneration(f.generation), d);
      }
      hide Wiped;
    }
  }

  lemma NothingHit(hash: Hasher, hashFuncs: nat, d: Cell, size: nat)
    requires size > 0 && size % 2 == 0
    ensures LastHit(hash, hashFuncs, [], d, size) == -1
  {
  }

  lemma NextThird(b: nat)
    ensures NextGeneration(b % 3 + 1) == (b + 1) % 3 + 1
  {
  }

  lemma InsertedTells(hash: Hasher, z: Sizes, keys: seq<Key>, f: Filter, key: Key, size: nat)
    requires Tells(hash, z, keys, f, size) && Fits(z, f)
    ensures Tells(hash, z, keys + [key], Inserted(hash, z, f, key), size)
  {
    var all, r, q := keys + [key], Inserted(hash, z, f, key), Rotated(z, f);
    var n := |keys|;
    assert all[..n] == keys && all[n] == key;
    assert InRange(f.data, Cell(0, 0));
    RotatedTells(hash, z, keys, f, size, Cell(0, 0));
    forall d | InRange(r.data, d) ensures GenAt(r.data, d) == Value(hash, z, all, d, size) {
      RotatedTells(hash, z, keys, f, size, d);
      MarkKeySpec(hash, q.data, key, z.hashFuncs, q.generation, d);
      LastHitNext(hash, z.hashFuncs, keys, key, d, size);
      OwnValue(n, z.perGeneration);
      hide *;
      ValueNext(hash, z, keys, key, d, size);
    }
  }

  lemma OwnValue(n: nat, p: nat)
    requires p > 0
    ensures ValueOf(n, n, p) == n / p % 3 + 1
  {
  }

  lemma ValueNext(hash: Hasher, z: Sizes, keys: seq<Key>, key: Key, d: Cell, size: nat)
    requires size > 0 && size % 2 == 0 && z.perGeneration > 0
    ensures Value(hash, z, keys + [key], d, size) == ValueOf(LastHit(hash, z.hashFuncs, keys + [key], d, size), |keys|, z.perGeneration)
  {
  }

  lemma LastHitNext(hash: Hasher, hashFuncs: nat, keys: seq<Key>, key: Key, d: Cell, size: nat)
    requires size > 0 && size % 2 == 0
    ensures Hits(hash, hashFuncs, key, d, size) ==> LastHit(hash, hashFuncs, keys + [key], d, size) == |keys|
    ensures !Hits(hash, hashFuncs, key, d, size) ==>
              LastHit(hash, hashFuncs, keys + [key], d, size) == LastHit(hash, hashFuncs, keys, d, size)
  {
    assert (keys + [key])[..|keys|] == keys;
  }

  lemma BlankTells(hash: Hasher, z: Sizes, size: nat)
    requires z.perGeneration > 0 && size > 0 && size % 2 == 0
    ensures Tells(hash, z, [], Blank(size), size)
  {
    var zero: bv64 := 0;
    forall b: bv64 | b < 64 ensures !Bit(zero, b) {
      NoBit(b);
    }
    hide Bit;
  }

  lemma NoBit(b: bv64)
    requires b < 64
    ensures !Bit(0, b)
  {
  }

  lemma {:induction false} RunTells(hash: Hasher, z: Sizes, size: nat, keys: seq<Key>)
    requires z.perGeneration > 0 && size > 0 && size % 2 == 0
    ensures Fits(z, Blank(size)) && Tells(hash, z, keys, Run(hash, z, Blank(size), keys), size)
  {
    if keys == [] {
      BlankTells(hash, z, size);
    } else {
      var n := |keys| - 1;
      assert keys == keys[..n] + [keys[n]];
      RunTells(hash, z, size, keys[..n]);
      hide Tells;
      hide Inserted;
      hide Blank;
      InsertedTells(hash, z, keys[..n], Run(hash, z, Blank(size), keys[..n]), keys[n], size);
    }
  }

  /** Key `i` belongs to the generation of the last of the `count` keys, or to one of the two before. */
  predicate Retained(i: nat, count: nat, perGeneration: nat)
    requires perGeneration > 0
  {
    i < count && i / perGeneration >= (count - 1) / perGeneration - 2
  }

  lemma {:induction false} LastHitSpec(hash: Hasher, hashFuncs: nat, keys: seq<Key>, d: Cell, size: nat)
    requires size > 0 && size % 2 == 0
    ensures var l := LastHit(hash, hashFuncs, keys, d, size);
            && (l >= 0 ==> Hits(hash, hashFuncs, keys[l], d, size))
            && forall i :: l < i < |keys| ==> !Hits(hash, hashFuncs, keys[i], d, size)
  {
    hide Hits;
    if keys != [] {
      var n := |keys| - 1;
      LastHitSpec(hash, hashFuncs, keys[..n], d, size);
      if !Hits(hash, hashFuncs, keys[n], d, size) {
        var l := LastHit(hash, hashFuncs, keys[..n], d, size);
        forall i | l < i < |keys| ensures !Hits(hash, hashFuncs, keys[i], d, size) {
          assert i < n ==> keys[..n][i] == keys[i];
        }
      }
    }
  }

  /** A cell is set exactly if a retained key hits it. */
  lemma SetExactly(hash: Hasher, z: Sizes, keys: seq<Key>, d: Cell, size: nat)
    requires size > 0 && size % 2 == 0 && z.perGeneration > 0
    ensures Value(hash, z, keys, d, size) != 0 <==>
            exists i: nat :: Retained(i, |keys|, z.perGeneration) && Hits(hash, z.hashFuncs, keys[i], d, size)
  {
    LastHitSpec(hash, z.hashFuncs, keys, d, size);
    var l := LastHit(hash, z.hashFuncs, keys, d, size);
    hide LastHit;
    hide Hits;
    if keys != [] {
      if Value(hash, z, keys, d, size) != 0 {
        assert Retained(l, |keys|, z.perGeneration);
      }
      forall i: nat | Retained(i, |keys|, z.perGeneration) && Hits(hash, z.hashFuncs, keys[i], d, size)
        ensures Value(hash, z, keys, d, size) != 0
      {
        DivOrder(i, l, z.perGeneration);
      }
    }
  }

  /** One of the hashes of a retained key falls on the place of `h`. */
  ghost predicate Covered(hash: Hasher, z: Sizes, keys: seq<Key>, size: nat, h: nat)
    requires size > 0 && z.perGeneration > 0
  {
    exists i: nat, m: nat ::
      Retained(i, |keys|, z.perGeneration) && m < z.hashFuncs && SamePlace(h, hash(m, keys[i]), size)
  }

  /** A key is held if and only if each of its hashes falls on a place that a key of the current generation, or of the two
      before, was hashed to: nothing older, and nothing else, is reported. */
  lemma HoldsExactly(hash: Hasher, z: Sizes, size: nat, keys: seq<Key>, key: Key)
    requires z.perGeneration > 0 && size > 0 && size % 2 == 0
    ensures Fits(z, Blank(size))
    ensures Holds(hash, z, Run(hash, z, Blank(size), keys), key) <==>
            forall n: nat :: n < z.hashFuncs ==> Covered(hash, z, keys, size, hash(n, key))
  {
    RunTells(hash, z, size, keys);
    var f := Run(hash, z, Blank(size), keys);
    hide Run;
    hide Value;
    forall n: nat | n < z.hashFuncs
      ensures GenAt(f.data, CellFor(hash, key, n, size)) != 0 <==> Covered(hash, z, keys, size, hash(n, key))
    {
      var d := CellFor(hash, key, n, size);
      SetExactly(hash, z, keys, d, size);
      HitIsPlace(hash, z, keys, key, n, size);
      hide *;
    }
    hide GenAt;
    hide Covered;
    hide CellFor;
  }

  lemma HitIsPlace(hash: Hasher, z: Sizes, keys: seq<Key>, key: Key, n: nat, size: nat)
    requires size > 0 && size % 2 == 0 && z.perGeneration > 0
    ensures Covered(hash, z, keys, size, hash(n, key)) <==>
            exists i: nat :: Retained(i, |keys|, z.perGeneration) && Hits(hash, z.hashFuncs, keys[i], CellFor(hash, key, n, size), size)
  {
    assert forall i: nat :: Retained(i, |keys|, z.perGeneration) ==> i < |keys|;
    hide Retained;
    hide SamePlace;
    hide CellOf;
    var d := CellFor(hash, key, n, size);
    if Covered(hash, z, keys, size, hash(n, key)) {
      var i: nat, m: nat :| Retained(i, |keys|, z.perGeneration) && m < z.hashFuncs && SamePlace(hash(n, key), hash(m,
                                     keys[i]), size);
      CellIsPlace(hash(n, key), hash(m, keys[i]), size);
      assert 0 <= m < z.hashFuncs && CellFor(hash, keys[i], m, size) == d;
    }
    forall i: nat | Retained(i, |keys|, z.perGeneration) && Hits(hash, z.hashFuncs, keys[i], d, size)
      ensures Covered(hash, z, keys, size, hash(n, key))
    {
      var m :| 0 <= m < z.hashFuncs && CellFor(hash, keys[i], m, size) == d;
      CellIsPlace(hash(n, key), hash(m, keys[i]), size);
    }
  }

  // ----- The object

  class CRollingBloomFilter {
    var data: seq<bv64>
    const nEntriesPerGeneration: nat
    const nHashFuncs: nat
    var nEntriesThisGeneration: nat
    var nGeneration: Generation
    var hash: Hasher

    ghost function Limits(): Sizes {
      Sizes(nEntriesPerGeneration, nHashFuncs)
    }

    ghost function Contents(): Filter
      reads this
    {
      Filter(data, nGeneration, nEntriesThisGeneration)
    }

    ghost predicate Valid()
      reads this
    {
      Fits(Limits(), Contents())
    }

    /** The number of hash functions and the number of words come from formulas in floating point. */
    constructor (nElements: nat, hashFuncs: nat, wordPairs: nat, tweaked: Hasher)
      requires nElements >= 1 && wordPairs > 0
      ensures Valid() && Limits() == Sizes((nElements + 1) / 2, hashFuncs)
      ensures hash == tweaked && Contents() == Blank(2 * wordPairs)
    {
      nEntriesPerGeneration := (nElements + 1) / 2;
      nHashFuncs := hashFuncs;
      data := seq(2 * wordPairs, (i: nat) => 0);
      nEntriesThisGeneration, nGeneration, hash := 0, 1, tweaked;
    }

    method Reset(tweaked: Hasher)
      requires Valid()
      modifies this
      ensures Valid() && hash == tweaked && Contents() == Blank(old(|data|))
    {
      hash, nEntriesThisGeneration, nGeneration := tweaked, 0, 1;
      var i := 0;
      while i < |data|
        invariant 0 <= i <= |data| == old(|data|) && forall j :: 0 <= j < i ==> data[j] == 0
        modifies this`data
      {
        data := data[i := 0];
        i := i + 1;
      }
      assert data == Blank(|data|).data;
    }

    method Insert(vKey: Key)
      requires Valid()
      modifies this`nEntriesThisGeneration, this`nGeneration, this`data
      ensures Valid() && Contents() == Inserted(hash, Limits(), old(Contents()), vKey)
    {
      hide Wiped;
      hide MarkKey;
      if nEntriesThisGeneration == nEntriesPerGeneration {
        nEntriesThisGeneration := 0;
        nGeneration := if nGeneration + 1 == 4 then 1 else nGeneration + 1;
        Wipe();
      }
      nEntriesThisGeneration := nEntriesThisGeneration + 1;
      Mark(vKey);
    }

    /** Unset the cells that name the generation now beginning. */
    method Wipe()
      requires |data| % 2 == 0
      modifies this`data
      ensures data == Wiped(old(data), nGeneration)
    {
      ghost var was := data;
      hide WipeMask;
      hide Masked;
      hide WipedWord;
      hide Odd;
      hide High;
      var p := 0;
      while p < |data|
        invariant 0 <= p <= |data| == |was| && p % 2 == 0
        invariant forall j :: 0 <= j < p ==> data[j] == WipedWord(was, j, nGeneration)
        invariant forall j :: p <= j < |data| ==> data[j] == was[j]
      {
        var p1, p2 := data[p], data[p + 1];
        var mask := WipeMask(p1, p2, Odd(nGeneration), High(nGeneration));
        WipedPair(was, p, nGeneration);
        data := data[p := Masked(p1, mask)][p + 1 := Masked(p2, mask)];
        p := p + 2;
      }
      assert data == Wiped(was, nGeneration);
    }

    method Mark(vKey: Key)
      requires Shaped(data)
      modifies this`data
      ensures data == MarkKey(hash, old(data), vKey, nHashFuncs, nGeneration)
    {
      ghost var was := data;
      hide PutBit;
      hide CellFor;
      var n := 0;
      while n < nHashFuncs
        invariant 0 <= n <= nHashFuncs && data == MarkKey(hash, was, vKey, n, nGeneration)
      {
        var c := CellFor(hash, vKey, n, |data|);
        var low, high := data[2 * c.w], data[2 * c.w + 1];
        data := data[2 * c.w := PutBit(low, c.b, Odd(nGeneration))][2 * c.w + 1 := PutBit(high, c.b, High(nGeneration))];
        n := n + 1;
      }
    }

    method Contains(vKey: Key) returns (found: bool)
      requires Valid()
      ensures found == Holds(hash, Limits(), Contents(), vKey)
    {
      var n := 0;
      hide Bit;
      hide CellFor;
      hide GenAt;
      hide Either;
      while n < nHashFuncs
        invariant 0 <= n <= nHashFuncs
        invariant forall m :: 0 <= m < n ==> GenAt(data, CellFor(hash, vKey, m, |data|)) != 0
      {
        var c := CellFor(hash, vKey, n, |data|);
        EitherSet(data, c);
        if !Bit(Either(data[2 * c.w], data[2 * c.w + 1]), c.b) {
          return false;
        }
        n := n + 1;
      }
      return true;
    }
  }
}
