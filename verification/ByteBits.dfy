/** Flags packed eight to a byte, least significant bit first. */
module ByteBits {

  function Bit(b: bv8, k: nat): bool
    requires k < 8
  {
    b & (1 << k) != 0
  }

  function WithBit(b: bv8, k: nat, v: bool): bv8
    requires k < 8
  {
    b | ((if v then 1 else 0) << k)
  }

  function WithoutBit(b: bv8, k: nat): bv8
    requires k < 8
  {
    b & !(1 << k)
  }

  /** Or-ing a bit in leaves the other seven as they were. */
  lemma WithBitSpec(b: bv8, k: nat, v: bool, j: nat)
    requires k < 8 && j < 8
    ensures Bit(WithBit(b, k, v), j) == (Bit(b, j) || (j == k && v))
  {
  }

  /** Masking a bit out leaves the other seven as they were. */
  lemma WithoutBitSpec(b: bv8, k: nat, j: nat)
    requires k < 8 && j < 8
    ensures Bit(WithoutBit(b, k), j) == (Bit(b, j) && j != k)
  {
  }

  lemma NoBits(j: nat)
    requires j < 8
    ensures !Bit(0, j) && Bit(0xff, j)
  {
  }

  /** Flag `p` of a byte string. */
  function FlagAt(bytes: seq<bv8>, p: nat): bool
    requires p < 8 * |bytes|
  {
    Bit(bytes[p / 8], p % 8)
  }

  function SetFlag(bytes: seq<bv8>, p: nat, v: bool): (r: seq<bv8>)
    requires p < 8 * |bytes|
    ensures |r| == |bytes|
  {
    bytes[p / 8 := WithBit(bytes[p / 8], p % 8, v)]
  }

  function ClearFlag(bytes: seq<bv8>, p: nat): (r: seq<bv8>)
    requires p < 8 * |bytes|
    ensures |r| == |bytes|
  {
    bytes[p / 8 := WithoutBit(bytes[p / 8], p % 8)]
  }

  lemma SetFlagSpec(bytes: seq<bv8>, p: nat, v: bool, q: nat)
    requires p < 8 * |bytes| && q < 8 * |bytes|
    ensures FlagAt(SetFlag(bytes, p, v), q) == (FlagAt(bytes, q) || (p == q && v))
  {
    if p / 8 == q / 8 {
      WithBitSpec(bytes[p / 8], p % 8, v, q % 8);
    }
    hide Bit;
    hide WithBit;
  }

  lemma ClearFlagSpec(bytes: seq<bv8>, p: nat, q: nat)
    requires p < 8 * |bytes| && q < 8 * |bytes|
    ensures FlagAt(ClearFlag(bytes, p), q) == (FlagAt(bytes, q) && p != q)
  {
    if p / 8 == q / 8 {
      WithoutBitSpec(bytes[p / 8], p % 8, q % 8);
    }
    hide Bit;
    hide WithoutBit;
  }
}
