/** Partial Merkle trees: one depth-first traversal writes flag bits and hashes, the same traversal
    reads them back (section "Partial Merkle branch format" of BIP 37). */
module PartialMerkle {
  import opened Arithmetic
  import opened ByteBits

  type Hash = nat
  const NULL_HASH: Hash := 0

  type Combine = (Hash, Hash) -> Hash

  ghost predicate Injective(combine: Combine) {
    forall a, b, c, d :: combine(a, b) == combine(c, d) ==> a == c && b == d
  }

  lemma Cancel(combine: Combine, a: Hash, b: Hash, c: Hash, d: Hash)
    requires Injective(combine) && combine(a, b) == combine(c, d)
    ensures a == c && b == d
  {
  }

  // ----- The shape of the tree

  /** The number of nodes at height `h` over `n` leaves. */
  function CalcTreeWidth(n: nat, h: nat): nat {
    (n + Pow2(h) - 1) / Pow2(h)
  }

  /** The first leaf under node `pos` at height `h`. */
  function First(h: nat, pos: nat): nat {
    pos * Pow2(h)
  }

  lemma FirstSplit(h: nat, pos: nat)
    requires h > 0
    ensures First(h - 1, 2 * pos) == First(h, pos)
    ensures First(h - 1, 2 * pos + 1) == First(h, pos) + Pow2(h - 1)
    ensures First(h - 1, 2 * pos + 2) == First(h, pos + 1) == First(h, pos) + Pow2(h)
    ensures First(h, pos) <= First(h - 1, 2 * pos + 1) <= First(h, pos + 1)
  {
    var p := Pow2(h - 1);
    assert (2 * pos) * p == pos * (2 * p);
    assert (2 * pos + 1) * p == (2 * pos) * p + p;
    assert (2 * pos + 2) * p == (2 * pos) * p + 2 * p;
    assert (pos + 1) * (2 * p) == pos * (2 * p) + 2 * p;
  }

  lemma DivFloor(a: nat, p: nat)
    requires p > 0
    ensures (a / p) * p <= a < (a / p) * p + p
  {
  }

  /** A node exists exactly if its first leaf does. */
  lemma NodeExists(n: nat, h: nat, pos: nat)
    ensures pos < CalcTreeWidth(n, h) <==> First(h, pos) < n
  {
    var p := Pow2(h);
    var w := CalcTreeWidth(n, h);
    DivFloor(n + p - 1, p);
    if pos < w {
      MulAtMost(pos + 1, w, p);
      assert (pos + 1) * p == pos * p + p;
    } else {
      MulAtMost(w, pos, p);
    }
  }

  // ----- The matched leaves of a range

  /** The indexes in `[lo, hi)` that are marked. */
  function Marked(mask: seq<bool>, lo: nat, hi: nat): seq<nat>
    decreases hi
  {
    if lo >= hi then [] else
      Marked(mask, lo, hi - 1) + (if hi - 1 < |mask| && mask[hi - 1] then [hi - 1] else [])
  }

  lemma {:induction false} MarkedSplit(mask: seq<bool>, lo: nat, mid: nat, hi: nat)
    requires lo <= mid <= hi
    ensures Marked(mask, lo, hi) == Marked(mask, lo, mid) + Marked(mask, mid, hi)
    decreases hi
  {
    if mid < hi {
      MarkedSplit(mask, lo, mid, hi - 1);
    }
  }

  lemma {:induction false} MarkedSpec(mask: seq<bool>, lo: nat, hi: nat)
    ensures forall i :: 0 <= i < |Marked(mask, lo, hi)| ==>
              var x := Marked(mask, lo, hi)[i]; lo <= x < hi && x < |mask| && mask[x]
    ensures forall x :: lo <= x < hi && x < |mask| && mask[x] ==> x in Marked(mask, lo, hi)
    ensures forall i, j :: 0 <= i < j < |Marked(mask, lo, hi)| ==> Marked(mask, lo, hi)[i] < Marked(mask, lo, hi)[j]
    decreases hi
  {
    if lo < hi {
      MarkedSpec(mask, lo, hi - 1);
      var rest, all := Marked(mask, lo, hi - 1), Marked(mask, lo, hi);
      assert all == rest || all == rest + [hi - 1];
      assert forall x :: x in rest ==> x in all;
    }
  }

  lemma {:induction false} MarkedPastEnd(mask: seq<bool>, lo: nat, hi: nat)
    requires lo >= |mask|
    ensures Marked(mask, lo, hi) == []
    decreases hi
  {
    if lo < hi {
      MarkedPastEnd(mask, lo, hi - 1);
    }
  }

  /** The indexes of the marked leaves under a node. */
  function Under(mask: seq<bool>, h: nat, pos: nat): seq<nat> {
    Marked(mask, First(h, pos), First(h, pos + 1))
  }

  /** Left and right part; without a right child the right part is empty. */
  lemma UnderSplit(mask: seq<bool>, h: nat, pos: nat)
    requires h > 0
    ensures Under(mask, h, pos) == Under(mask, h - 1, 2 * pos) + Under(mask, h - 1, 2 * pos + 1)
    ensures 2 * pos + 1 >= CalcTreeWidth(|mask|, h - 1) ==> Under(mask, h, pos) == Under(mask, h - 1, 2 * pos)
  {
    FirstSplit(h, pos);
    MarkedSplit(mask, First(h, pos), First(h - 1, 2 * pos + 1), First(h, pos + 1));
    if 2 * pos + 1 >= CalcTreeWidth(|mask|, h - 1) {
      NodeExists(|mask|, h - 1, 2 * pos + 1);
      MarkedPastEnd(mask, First(h - 1, 2 * pos + 1), First(h, pos + 1));
    }
  }

  // ----- Hashing, building and extracting

  function CalcHash(combine: Combine, txids: seq<Hash>, h: nat, pos: nat): Hash
    requires pos < CalcTreeWidth(|txids|, h)
    decreases h
  {
    if h == 0 then txids[pos] else
      ChildExists(|txids|, h, pos);
      var left := CalcHash(combine, txids, h - 1, 2 * pos);
      var right := if 2 * pos + 1 < CalcTreeWidth(|txids|, h - 1) then CalcHash(combine, txids, h - 1, 2 * pos + 1) else left;
      combine(left, right)
  }

  lemma ChildExists(n: nat, h: nat, pos: nat)
    requires h > 0 && pos < CalcTreeWidth(n, h)
    ensures 2 * pos < CalcTreeWidth(n, h - 1)
  {
    NodeExists(n, h, pos);
    FirstSplit(h, pos);
    NodeExists(n, h - 1, 2 * pos);
  }

  /** The flag bits and hashes written for a subtree. */
  function Build(combine: Combine, txids: seq<Hash>, mask: seq<bool>, h: nat, pos: nat): (r: (seq<bool>, seq<Hash>))
    requires |mask| == |txids| && pos < CalcTreeWidth(|txids|, h)
    decreases h
  {
    var parentOfMatch := Under(mask, h, pos) != [];
    if h == 0 || !parentOfMatch then ([parentOfMatch], [CalcHash(combine, txids, h, pos)]) else
      ChildExists(|txids|, h, pos);
      var (leftBits, leftHashes) := Build(combine, txids, mask, h - 1, 2 * pos);
      if 2 * pos + 1 < CalcTreeWidth(|txids|, h - 1) then
        var (rightBits, rightHashes) := Build(combine, txids, mask, h - 1, 2 * pos + 1);
        ([true] + leftBits + rightBits, leftHashes + rightHashes)
      else ([true] + leftBits, leftHashes)
  }

  /** What travels: the transaction count, the flag bits and the hashes. */
  datatype Tree = Tree(n: nat, bits: seq<bool>, hashes: seq<Hash>)

  /** How far the extraction has come, what it found, and whether it ran into invalid data. */
  datatype Cursor = Cursor(bits: nat, hashes: nat, matches: seq<Hash>, indexes: seq<nat>, bad: bool)

  function Extract(combine: Combine, t: Tree, h: nat, pos: nat, c: Cursor): (Cursor, Hash)
    decreases h
  {
    if c.bits >= |t.bits| then (c.(bad := true), NULL_HASH) else
      var parentOfMatch := t.bits[c.bits];
      var c1 := c.(bits := c.bits + 1);
      if h == 0 || !parentOfMatch then
        if c1.hashes >= |t.hashes| then (c1.(bad := true), NULL_HASH) else
          var hash := t.hashes[c1.hashes];
          var c2 := c1.(hashes := c1.hashes + 1);
          if h == 0 && parentOfMatch then (c2.(matches := c2.matches + [hash], indexes := c2.indexes + [pos]), hash)
          else (c2, hash)
      else
        var (c2, left) := Extract(combine, t, h - 1, 2 * pos, c1);
        if 2 * pos + 1 < CalcTreeWidth(t.n, h - 1) then
          var (c3, right) := Extract(combine, t, h - 1, 2 * pos + 1, c2);
          (c3.(bad := c3.bad || right == left), combine(left, right))
        else (c2, combine(left, left))
  }

  // ----- Soundness

  /** From `from` on, every match is the node at its index, on the level `k` above the transactions. */
  ghost predicate Nodes(combine: Combine, txids: seq<Hash>, k: nat, matches: seq<Hash>, indexes: seq<nat>, from: nat) {
    && |matches| == |indexes|
    && forall i :: from <= i < |matches| ==>
         indexes[i] < CalcTreeWidth(|txids|, k) && matches[i] == CalcHash(combine, txids, k, indexes[i])
  }

  lemma {:induction false} ExtractGrows(combine: Combine, t: Tree, h: nat, pos: nat, c: Cursor)
    ensures var d := Extract(combine, t, h, pos, c).0;
            && c.matches <= d.matches && c.indexes <= d.indexes && (c.bad ==> d.bad)
            && |d.matches| - |c.matches| == |d.indexes| - |c.indexes|
    decreases h
  {
    if c.bits < |t.bits| && h > 0 && t.bits[c.bits] {
      var c1 := c.(bits := c.bits + 1);
      ExtractGrows(combine, t, h - 1, 2 * pos, c1);
      ExtractGrows(combine, t, h - 1, 2 * pos + 1, Extract(combine, t, h - 1, 2 * pos, c1).0);
    }
  }

  /** A subtree that hashes to the true node `k` levels higher up yields only true nodes of level `k`, whatever
      number of transactions was sent. */
  lemma {:induction false} ExtractSound(combine: Combine, txids: seq<Hash>, t: Tree, h: nat, k: nat, pos: nat, c: Cursor)
    requires Injective(combine) && pos < CalcTreeWidth(|txids|, h + k) && |c.matches| == |c.indexes|
    requires var (d, hash) := Extract(combine, t, h, pos, c); !d.bad && hash == CalcHash(combine, txids, h + k, pos)
    ensures var d := Extract(combine, t, h, pos, c).0; Nodes(combine, txids, k, d.matches, d.indexes, |c.matches|)
    decreases h
  {
    hide *;
    if h > 0 && c.bits < |t.bits| && t.bits[c.bits] {
      ChildExists(|txids|, h + k, pos);
      var c1 := c.(bits := c.bits + 1);
      var (c2, left) := Extract(combine, t, h - 1, 2 * pos, c1);
      if 2 * pos + 1 < CalcTreeWidth(t.n, h - 1) {
        var (c3, right) := Extract(combine, t, h - 1, 2 * pos + 1, c2);
        ExtractBoth(combine, t, h, pos, c, c2, left, c3, right);
        BothTrue(combine, txids, t, h, h + k, pos, c, c2, left, c3, right);
        ExtractSound(combine, txids, t, h - 1, k, 2 * pos, c1);
        ExtractSound(combine, txids, t, h - 1, k, 2 * pos + 1, c2);
        NodesTogether(combine, txids, k, c2, c3, |c.matches|);
      } else {
        ExtractSingle(combine, t, h, pos, c, c2, left);
        LeftTrue(combine, txids, h + k, pos, left, left);
        ExtractSound(combine, txids, t, h - 1, k, 2 * pos, c1);
      }
    } else {
      SoundLeaf(combine, txids, t, h, k, pos, c);
    }
  }

  lemma SoundLeaf(combine: Combine, txids: seq<Hash>, t: Tree, h: nat, k: nat, pos: nat, c: Cursor)
    requires pos < CalcTreeWidth(|txids|, h + k) && |c.matches| == |c.indexes|
    requires !(h > 0 && c.bits < |t.bits| && t.bits[c.bits])
    requires var (d, hash) := Extract(combine, t, h, pos, c); !d.bad && hash == CalcHash(combine, txids, h + k, pos)
    ensures var d := Extract(combine, t, h, pos, c).0; Nodes(combine, txids, k, d.matches, d.indexes, |c.matches|)
  {
    hide CalcTreeWidth;
    hide CalcHash;
  }

  /** A pair that hashes to a true node begins with its true left child, and ends with the right one if there is
      one; a node with a single child takes it twice. */
  lemma LeftTrue(combine: Combine, txids: seq<Hash>, h: nat, pos: nat, left: Hash, right: Hash)
    requires Injective(combine) && h > 0 && pos < CalcTreeWidth(|txids|, h)
    requires combine(left, right) == CalcHash(combine, txids, h, pos)
    ensures 2 * pos < CalcTreeWidth(|txids|, h - 1) && left == CalcHash(combine, txids, h - 1, 2 * pos)
    ensures right == if 2 * pos + 1 < CalcTreeWidth(|txids|, h - 1) then CalcHash(combine, txids, h - 1, 2 * pos + 1) else left
  {
    hide CalcTreeWidth;
    hide Injective;
    ChildExists(|txids|, h, pos);
    var l := CalcHash(combine, txids, h - 1, 2 * pos);
    var r := if 2 * pos + 1 < CalcTreeWidth(|txids|, h - 1) then CalcHash(combine, txids, h - 1, 2 * pos + 1) else l;
    assert CalcHash(combine, txids, h, pos) == combine(l, r);
    Cancel(combine, left, right, l, r);
  }

  /** Different branches below a true node `pos` of height `g` are its two true children. */
  lemma BothTrue(combine: Combine, txids: seq<Hash>, t: Tree, h: nat, g: nat, pos: nat, c: Cursor, c2: Cursor, left: Hash, c3: Cursor, right: Hash)
    requires Injective(combine) && h > 0 && g > 0 && pos < CalcTreeWidth(|txids|, g)
    requires |c.matches| == |c.indexes| && !c3.bad && left != right && combine(left, right) == CalcHash(combine, txids, g, pos)
    requires Extract(combine, t, h - 1, 2 * pos, c.(bits := c.bits + 1)) == (c2, left)
    requires Extract(combine, t, h - 1, 2 * pos + 1, c2) == (c3, right)
    ensures 2 * pos + 1 < CalcTreeWidth(|txids|, g - 1)
    ensures left == CalcHash(combine, txids, g - 1, 2 * pos) && right == CalcHash(combine, txids, g - 1, 2 * pos + 1)
    ensures |c.matches| <= |c2.matches| == |c2.indexes| && |c3.matches| == |c3.indexes| && !c2.bad
    ensures c2.matches <= c3.matches && c2.indexes <= c3.indexes
  {
    hide CalcTreeWidth;
    hide Injective;
    hide CalcHash;
    ExtractGrows(combine, t, h - 1, 2 * pos, c.(bits := c.bits + 1));
    ExtractGrows(combine, t, h - 1, 2 * pos + 1, c2);
    hide Extract;
    LeftTrue(combine, txids, g, pos, left, right);
  }

  lemma NodesTogether(combine: Combine, txids: seq<Hash>, k: nat, c: Cursor, d: Cursor, from: nat)
    requires Nodes(combine, txids, k, c.matches, c.indexes, from) && from <= |c.matches|
    requires Nodes(combine, txids, k, d.matches, d.indexes, |c.matches|)
    requires c.matches <= d.matches && c.indexes <= d.indexes
    ensures Nodes(combine, txids, k, d.matches, d.indexes, from)
  {
    hide CalcTreeWidth;
    hide CalcHash;
    forall i | from <= i < |c.matches| ensures d.matches[i] == c.matches[i] && d.indexes[i] == c.indexes[i] {
    }
  }

  /** Some transaction hash is at the same time the hash of a pair of nodes. */
  ghost predicate HasPair(combine: Combine, txids: seq<Hash>) {
    exists x, y :: combine(x, y) in txids
  }

  /** `k` levels too deep: nothing is matched unless the traversal goes below a transaction. */
  lemma {:induction false} ExtractTooDeep(combine: Combine, txids: seq<Hash>, t: Tree, h: nat, k: nat, pos: nat, c: Cursor)
    requires Injective(combine) && !HasPair(combine, txids) && k > 0 && pos < CalcTreeWidth(|txids|, h) && |c.matches| == |c.indexes|
    requires var (d, hash) := Extract(combine, t, h + k, pos, c); !d.bad && hash == CalcHash(combine, txids, h, pos)
    ensures Extract(combine, t, h + k, pos, c).0.matches == c.matches
    decreases h
  {
    hide *;
    if c.bits < |t.bits| && t.bits[c.bits] {
      var c1 := c.(bits := c.bits + 1);
      var (c2, left) := Extract(combine, t, h + k - 1, 2 * pos, c1);
      if 2 * pos + 1 < CalcTreeWidth(t.n, h + k - 1) {
        var (c3, right) := Extract(combine, t, h + k - 1, 2 * pos + 1, c2);
        ExtractBoth(combine, t, h + k, pos, c, c2, left, c3, right);
        PairIsInner(combine, txids, h, pos, left, right);
        BothTrue(combine, txids, t, h + k, h, pos, c, c2, left, c3, right);
        ExtractTooDeep(combine, txids, t, h - 1, k, 2 * pos, c1);
        ExtractTooDeep(combine, txids, t, h - 1, k, 2 * pos + 1, c2);
      } else {
        ExtractSingle(combine, t, h + k, pos, c, c2, left);
        PairIsInner(combine, txids, h, pos, left, left);
        LeftTrue(combine, txids, h, pos, left, left);
        ExtractTooDeep(combine, txids, t, h - 1, k, 2 * pos, c1);
      }
    } else {
      StoredUnmatched(combine, t, h + k, pos, c);
    }
  }

  lemma StoredUnmatched(combine: Combine, t: Tree, h: nat, pos: nat, c: Cursor)
    requires h > 0 && !(c.bits < |t.bits| && t.bits[c.bits])
    ensures Extract(combine, t, h, pos, c).0.matches == c.matches
  {
  }

  lemma TrueLeaf(combine: Combine, txids: seq<Hash>, h: nat, pos: nat)
    requires pos < CalcTreeWidth(|txids|, h)
    ensures h == 0 ==> CalcHash(combine, txids, h, pos) in txids
  {
    if h == 0 {
      WidthOfLeaves(|txids|);
      LeafHash(combine, txids, pos);
    }
  }

  lemma PairIsInner(combine: Combine, txids: seq<Hash>, h: nat, pos: nat, left: Hash, right: Hash)
    requires !HasPair(combine, txids) && pos < CalcTreeWidth(|txids|, h) && combine(left, right) == CalcHash(combine, txids, h, pos)
    ensures h > 0
  {
    TrueLeaf(combine, txids, h, pos);
    hide CalcHash;
    hide CalcTreeWidth;
  }

  lemma SingleHash(combine: Combine, txids: seq<Hash>, h: nat, pos: nat)
    requires h > 0 && pos < CalcTreeWidth(|txids|, h) && 2 * pos < CalcTreeWidth(|txids|, h - 1) <= 2 * pos + 1
    ensures CalcHash(combine, txids, h, pos) ==
              combine(CalcHash(combine, txids, h - 1, 2 * pos), CalcHash(combine, txids, h - 1, 2 * pos))
  {
    hide CalcTreeWidth;
  }

  // ----- The round trip

  /** Different nodes of one height have different hashes, when the transactions differ. */
  lemma {:induction false} HashesDiffer(combine: Combine, txids: seq<Hash>, h: nat, p: nat, q: nat)
    requires Injective(combine) && p < q < CalcTreeWidth(|txids|, h)
    requires forall i, j :: 0 <= i < j < |txids| ==> txids[i] != txids[j]
    ensures CalcHash(combine, txids, h, p) != CalcHash(combine, txids, h, q)
    decreases h
  {
    if h > 0 {
      ChildExists(|txids|, h, p);
      ChildExists(|txids|, h, q);
      HashesDiffer(combine, txids, h - 1, 2 * p, 2 * q);
    }
  }

  function Pick(txids: seq<Hash>, indexes: seq<nat>): (r: seq<Hash>)
    requires forall i :: 0 <= i < |indexes| ==> indexes[i] < |txids|
    ensures |r| == |indexes| && forall i :: 0 <= i < |r| ==> r[i] == txids[indexes[i]]
  {
    seq(|indexes|, i requires 0 <= i < |indexes| => txids[indexes[i]])
  }

  lemma UnderInRange(mask: seq<bool>, h: nat, pos: nat)
    ensures forall i :: 0 <= i < |Under(mask, h, pos)| ==> Under(mask, h, pos)[i] < |mask|
  {
    MarkedSpec(mask, First(h, pos), First(h, pos + 1));
  }

  /** The cursor after a subtree was read back whole. */
  function ReadBack(txids: seq<Hash>, mask: seq<bool>, h: nat, pos: nat, c: Cursor, bits: nat, hashes: nat): Cursor
    requires |mask| == |txids|
  {
    UnderInRange(mask, h, pos);
    Cursor(c.bits + bits, c.hashes + hashes,
           c.matches + Pick(txids, Under(mask, h, pos)), c.indexes + Under(mask, h, pos), c.bad)
  }

  ghost predicate StartsHere(t: Tree, c: Cursor, bits: seq<bool>, hashes: seq<Hash>) {
    && c.bits + |bits| <= |t.bits| && t.bits[c.bits..c.bits + |bits|] == bits
    && c.hashes + |hashes| <= |t.hashes| && t.hashes[c.hashes..c.hashes + |hashes|] == hashes
  }

  lemma StartsSplit(t: Tree, c: Cursor, leftBits: seq<bool>, leftHashes: seq<Hash>, rightBits: seq<bool>, rightHashes: seq<Hash>)
    requires StartsHere(t, c, [true] + leftBits + rightBits, leftHashes + rightHashes)
    ensures c.bits < |t.bits| && t.bits[c.bits]
    ensures StartsHere(t, c.(bits := c.bits + 1), leftBits, leftHashes)
    ensures StartsHere(t, c.(bits := c.bits + 1 + |leftBits|, hashes := c.hashes + |leftHashes|), rightBits, rightHashes)
  {
    var bits, hashes := [true] + leftBits + rightBits, leftHashes + rightHashes;
    SliceHere(t.bits, c.bits, bits, 0, 1);
    SliceHere(t.bits, c.bits, bits, 1, 1 + |leftBits|);
    SliceHere(t.bits, c.bits, bits, 1 + |leftBits|, |bits|);
    SliceHere(t.hashes, c.hashes, hashes, 0, |leftHashes|);
    SliceHere(t.hashes, c.hashes, hashes, |leftHashes|, |hashes|);
    assert bits[0..1] == [true] && bits[1..1 + |leftBits|] == leftBits && bits[1 + |leftBits|..|bits|] == rightBits;
    assert hashes[0..|leftHashes|] == leftHashes && hashes[|leftHashes|..|hashes|] == rightHashes;
    assert t.bits[c.bits] == t.bits[c.bits..c.bits + 1][0];
  }

  lemma SliceHere<T>(s: seq<T>, at: nat, part: seq<T>, i: nat, j: nat)
    requires at + |part| <= |s| && s[at..at + |part|] == part && i <= j <= |part|
    ensures s[at + i..at + j] == part[i..j]
  {
    forall k | 0 <= k < j - i ensures s[at + i..at + j][k] == part[i..j][k] {
      assert s[at..at + |part|][i + k] == part[i + k];
    }
  }

  lemma ReadTwice(txids: seq<Hash>, mask: seq<bool>, h: nat, pos: nat, c: Cursor, lb: nat, lh: nat, rb: nat, rh: nat)
    requires h > 0 && |mask| == |txids|
    ensures var c2 := ReadBack(txids, mask, h - 1, 2 * pos, c.(bits := c.bits + 1), lb, lh);
            ReadBack(txids, mask, h - 1, 2 * pos + 1, c2, rb, rh) == ReadBack(txids, mask, h, pos, c, 1 + lb + rb, lh + rh)
  {
    hide Under;
    hide CalcTreeWidth;
    UnderInRange(mask, h, pos);
    UnderInRange(mask, h - 1, 2 * pos);
    UnderInRange(mask, h - 1, 2 * pos + 1);
    var u, l, r := Under(mask, h, pos), Under(mask, h - 1, 2 * pos), Under(mask, h - 1, 2 * pos + 1);
    assert u == l + r by {
      UnderSplit(mask, h, pos);
    }
    PickSplit(txids, l, r);
    assert c.indexes + l + r == c.indexes + u;
    assert c.matches + Pick(txids, l) + Pick(txids, r) == c.matches + Pick(txids, u);
    hide Pick;
  }

  lemma ReadOnce(txids: seq<Hash>, mask: seq<bool>, h: nat, pos: nat, c: Cursor, lb: nat, lh: nat)
    requires h > 0 && |mask| == |txids| && 2 * pos + 1 >= CalcTreeWidth(|txids|, h - 1)
    ensures ReadBack(txids, mask, h - 1, 2 * pos, c.(bits := c.bits + 1), lb, lh) == ReadBack(txids, mask, h, pos, c, 1 + lb, lh)
  {
    UnderSplit(mask, h, pos);
    hide Under;
  }

  /** A stored node: a leaf, or one with nothing marked below. */
  lemma ExtractStored(combine: Combine, txids: seq<Hash>, mask: seq<bool>, t: Tree, h: nat, pos: nat, c: Cursor)
    requires |mask| == |txids| == t.n && pos < CalcTreeWidth(|txids|, h) && (h == 0 || Under(mask, h, pos) == [])
    requires var (bits, hashes) := Build(combine, txids, mask, h, pos); StartsHere(t, c, bits, hashes)
    ensures Extract(combine, t, h, pos, c) == (ReadBack(txids, mask, h, pos, c, 1, 1), CalcHash(combine, txids, h, pos))
  {
    hide *;
    var u, hash := Under(mask, h, pos), CalcHash(combine, txids, h, pos);
    BuildStored(combine, txids, mask, h, pos);
    StartsOne(t, c, u != [], hash);
    ExtractOne(combine, t, h, pos, c);
    if h == 0 {
      WidthOfLeaves(|txids|);
      LeafUnder(mask, pos);
      LeafHash(combine, txids, pos);
    }
    ReadOne(txids, mask, h, pos, c);
  }

  lemma StartsOne(t: Tree, c: Cursor, bit: bool, hash: Hash)
    requires StartsHere(t, c, [bit], [hash])
    ensures c.bits < |t.bits| && t.bits[c.bits] == bit && c.hashes < |t.hashes| && t.hashes[c.hashes] == hash
  {
    assert t.bits[c.bits] == t.bits[c.bits..c.bits + 1][0];
    assert t.hashes[c.hashes] == t.hashes[c.hashes..c.hashes + 1][0];
  }

  /** Reading a node that stores its hash. */
  lemma ExtractOne(combine: Combine, t: Tree, h: nat, pos: nat, c: Cursor)
    requires c.bits < |t.bits| && c.hashes < |t.hashes| && (h == 0 || !t.bits[c.bits])
    ensures var hash, d := t.hashes[c.hashes], c.(bits := c.bits + 1, hashes := c.hashes + 1);
            Extract(combine, t, h, pos, c) ==
              (if h == 0 && t.bits[c.bits] then d.(matches := c.matches + [hash], indexes := c.indexes + [pos]) else d, hash)
  {
    hide CalcTreeWidth;
  }

  /** Running out of bits or hashes. */
  lemma ExtractNothing(combine: Combine, t: Tree, h: nat, pos: nat, c: Cursor)
    requires c.bits >= |t.bits| || ((h == 0 || !t.bits[c.bits]) && c.hashes >= |t.hashes|)
    ensures Extract(combine, t, h, pos, c) ==
              ((if c.bits >= |t.bits| then c else c.(bits := c.bits + 1)).(bad := true), NULL_HASH)
  {
    hide CalcTreeWidth;
  }

  lemma LeafHash(combine: Combine, txids: seq<Hash>, pos: nat)
    requires CalcTreeWidth(|txids|, 0) == |txids| && pos < |txids|
    ensures CalcHash(combine, txids, 0, pos) == txids[pos]
  {
    hide CalcTreeWidth;
  }

  lemma ReadOne(txids: seq<Hash>, mask: seq<bool>, h: nat, pos: nat, c: Cursor)
    requires |mask| == |txids|
    requires Under(mask, h, pos) == [] || (Under(mask, h, pos) == [pos] && pos < |txids|)
    ensures var d := c.(bits := c.bits + 1, hashes := c.hashes + 1);
            ReadBack(txids, mask, h, pos, c, 1, 1) ==
              if Under(mask, h, pos) == [] then d else d.(matches := c.matches + [txids[pos]], indexes := c.indexes + [pos])
  {
    var u := Under(mask, h, pos);
    hide Under;
    if u == [] {
      assert Pick(txids, u) == [] && c.matches + Pick(txids, u) == c.matches && c.indexes + u == c.indexes;
    } else {
      assert Pick(txids, u) == [txids[pos]];
    }
  }

  /** Extraction inverts building, wherever in the stream the subtree lies. */
  lemma {:induction false} ExtractBuilt(combine: Combine, txids: seq<Hash>, mask: seq<bool>, t: Tree, h: nat, pos: nat, c: Cursor)
    requires Injective(combine) && forall i, j :: 0 <= i < j < |txids| ==> txids[i] != txids[j]
    requires |mask| == |txids| == t.n && pos < CalcTreeWidth(|txids|, h)
    requires var (bits, hashes) := Build(combine, txids, mask, h, pos); StartsHere(t, c, bits, hashes)
    ensures var (bits, hashes) := Build(combine, txids, mask, h, pos);
            Extract(combine, t, h, pos, c) ==
              (ReadBack(txids, mask, h, pos, c, |bits|, |hashes|), CalcHash(combine, txids, h, pos))
    decreases h, 1
  {
    hide CalcTreeWidth;
    hide StartsHere;
    hide Injective;
    if h == 0 || Under(mask, h, pos) == [] {
      ExtractStored(combine, txids, mask, t, h, pos, c);
    } else {
      ExtractInner(combine, txids, mask, t, h, pos, c);
    }
  }

  lemma {:induction false} ExtractInner(combine: Combine, txids: seq<Hash>, mask: seq<bool>, t: Tree, h: nat, pos: nat, c: Cursor)
    requires Injective(combine) && forall i, j :: 0 <= i < j < |txids| ==> txids[i] != txids[j]
    requires |mask| == |txids| == t.n && pos < CalcTreeWidth(|txids|, h) && h > 0 && Under(mask, h, pos) != []
    requires var (bits, hashes) := Build(combine, txids, mask, h, pos); StartsHere(t, c, bits, hashes)
    ensures var (bits, hashes) := Build(combine, txids, mask, h, pos);
            Extract(combine, t, h, pos, c) ==
              (ReadBack(txids, mask, h, pos, c, |bits|, |hashes|), CalcHash(combine, txids, h, pos))
    decreases h, 0
  {
    hide *;
    ChildExists(|txids|, h, pos);
    var (leftBits, leftHashes) := Build(combine, txids, mask, h - 1, 2 * pos);
    var c1 := c.(bits := c.bits + 1);
    var c2 := ReadBack(txids, mask, h - 1, 2 * pos, c1, |leftBits|, |leftHashes|);
    var left := CalcHash(combine, txids, h - 1, 2 * pos);
    if 2 * pos + 1 < CalcTreeWidth(|txids|, h - 1) {
      var (rightBits, rightHashes) := Build(combine, txids, mask, h - 1, 2 * pos + 1);
      var right := CalcHash(combine, txids, h - 1, 2 * pos + 1);
      BuildBoth(combine, txids, mask, h, pos);
      StartsSplit(t, c, leftBits, leftHashes, rightBits, rightHashes);
      ExtractBuilt(combine, txids, mask, t, h - 1, 2 * pos, c1);
      ReadPlaces(txids, mask, h - 1, 2 * pos, c1, |leftBits|, |leftHashes|);
      StartsAt(t, c.(bits := c2.bits, hashes := c2.hashes), c2, rightBits, rightHashes);
      ExtractBuilt(combine, txids, mask, t, h - 1, 2 * pos + 1, c2);
      HashesDiffer(combine, txids, h - 1, 2 * pos, 2 * pos + 1);
      ReadTwice(txids, mask, h, pos, c, |leftBits|, |leftHashes|, |rightBits|, |rightHashes|);
      var c3 := ReadBack(txids, mask, h - 1, 2 * pos + 1, c2, |rightBits|, |rightHashes|);
      ExtractBoth(combine, t, h, pos, c, c2, left, c3, right);
    } else {
      BuildSingle(combine, txids, mask, h, pos);
      SingleHash(combine, txids, h, pos);
      StartsSplit(t, c, leftBits, leftHashes, [], []);
      ExtractBuilt(combine, txids, mask, t, h - 1, 2 * pos, c1);
      ReadOnce(txids, mask, h, pos, c, |leftBits|, |leftHashes|);
      ExtractSingle(combine, t, h, pos, c, c2, left);
    }
  }

  lemma ReadPlaces(txids: seq<Hash>, mask: seq<bool>, h: nat, pos: nat, c: Cursor, bits: nat, hashes: nat)
    requires |mask| == |txids|
    ensures var d := ReadBack(txids, mask, h, pos, c, bits, hashes); d.bits == c.bits + bits && d.hashes == c.hashes + hashes
  {
  }

  lemma BuildBoth(combine: Combine, txids: seq<Hash>, mask: seq<bool>, h: nat, pos: nat)
    requires |mask| == |txids| && pos < CalcTreeWidth(|txids|, h) && h > 0 && Under(mask, h, pos) != []
    requires 2 * pos + 1 < CalcTreeWidth(|txids|, h - 1)
    ensures var (leftBits, leftHashes) := Build(combine, txids, mask, h - 1, 2 * pos);
            var (rightBits, rightHashes) := Build(combine, txids, mask, h - 1, 2 * pos + 1);
            Build(combine, txids, mask, h, pos) == ([true] + leftBits + rightBits, leftHashes + rightHashes)
    ensures CalcHash(combine, txids, h, pos) ==
              combine(CalcHash(combine, txids, h - 1, 2 * pos), CalcHash(combine, txids, h - 1, 2 * pos + 1))
  {
    hide CalcTreeWidth;
    hide Under;
  }

  lemma BuildStored(combine: Combine, txids: seq<Hash>, mask: seq<bool>, h: nat, pos: nat)
    requires |mask| == |txids| && pos < CalcTreeWidth(|txids|, h) && (h == 0 || Under(mask, h, pos) == [])
    ensures Build(combine, txids, mask, h, pos) == ([Under(mask, h, pos) != []], [CalcHash(combine, txids, h, pos)])
  {
    hide CalcTreeWidth;
    hide Under;
  }

  lemma BuildSingle(combine: Combine, txids: seq<Hash>, mask: seq<bool>, h: nat, pos: nat)
    requires |mask| == |txids| && pos < CalcTreeWidth(|txids|, h) && h > 0 && Under(mask, h, pos) != []
    requires 2 * pos < CalcTreeWidth(|txids|, h - 1) <= 2 * pos + 1
    ensures var (leftBits, leftHashes) := Build(combine, txids, mask, h - 1, 2 * pos);
            Build(combine, txids, mask, h, pos) == ([true] + leftBits + [], leftHashes + [])
  {
    hide CalcTreeWidth;
    hide Under;
    var (leftBits, leftHashes) := Build(combine, txids, mask, h - 1, 2 * pos);
    assert [true] + leftBits + [] == [true] + leftBits && leftHashes + [] == leftHashes;
  }

  lemma ExtractSingle(combine: Combine, t: Tree, h: nat, pos: nat, c: Cursor, c2: Cursor, left: Hash)
    requires h > 0 && c.bits < |t.bits| && t.bits[c.bits] && 2 * pos + 1 >= CalcTreeWidth(t.n, h - 1)
    requires Extract(combine, t, h - 1, 2 * pos, c.(bits := c.bits + 1)) == (c2, left)
    ensures Extract(combine, t, h, pos, c) == (c2, combine(left, left))
  {
    hide CalcTreeWidth;
  }

  lemma ExtractBoth(combine: Combine, t: Tree, h: nat, pos: nat, c: Cursor, c2: Cursor, left: Hash, c3: Cursor, right: Hash)
    requires h > 0 && c.bits < |t.bits| && t.bits[c.bits] && 2 * pos + 1 < CalcTreeWidth(t.n, h - 1)
    requires Extract(combine, t, h - 1, 2 * pos, c.(bits := c.bits + 1)) == (c2, left)
    requires Extract(combine, t, h - 1, 2 * pos + 1, c2) == (c3, right)
    ensures Extract(combine, t, h, pos, c) == (c3.(bad := c3.bad || right == left), combine(left, right))
  {
    hide CalcTreeWidth;
  }

  lemma StartsAt(t: Tree, c: Cursor, d: Cursor, bits: seq<bool>, hashes: seq<Hash>)
    requires StartsHere(t, c, bits, hashes) && d.bits == c.bits && d.hashes == c.hashes
    ensures StartsHere(t, d, bits, hashes)
  {
  }

  lemma PickSplit(txids: seq<Hash>, a: seq<nat>, b: seq<nat>)
    requires forall i :: 0 <= i < |a| ==> a[i] < |txids|
    requires forall i :: 0 <= i < |b| ==> b[i] < |txids|
    ensures Pick(txids, a + b) == Pick(txids, a) + Pick(txids, b)
  {
  }

  lemma WidthOfLeaves(n: nat)
    ensures CalcTreeWidth(n, 0) == n
  {
    assert Pow2(0) == 1;
  }

  lemma LeafUnder(mask: seq<bool>, pos: nat)
    requires pos < |mask|
    ensures Under(mask, 0, pos) == if mask[pos] then [pos] else []
  {
    assert First(0, pos) == pos && First(0, pos + 1) == pos + 1;
    assert Marked(mask, pos, pos) == [];
  }

  // ----- Sizes

  /** A subtree stores no more hashes than it has leaves. */
  lemma {:induction false} BuildWithinLeaves(combine: Combine, txids: seq<Hash>, mask: seq<bool>, h: nat, pos: nat)
    requires |mask| == |txids| && pos < CalcTreeWidth(|txids|, h)
    ensures var (bits, hashes) := Build(combine, txids, mask, h, pos);
            && 1 <= |hashes| <= |bits|
            && First(h, pos) + |hashes| <= |txids| && First(h, pos) + |hashes| <= First(h, pos + 1)
    decreases h
  {
    NodeExists(|txids|, h, pos);
    NextFirst(h, pos);
    if h > 0 && Under(mask, h, pos) != [] {
      FirstSplit(h, pos);
      ChildExists(|txids|, h, pos);
      hide CalcTreeWidth;
      hide First;
      hide Under;
      BuildWithinLeaves(combine, txids, mask, h - 1, 2 * pos);
      if 2 * pos + 1 < CalcTreeWidth(|txids|, h - 1) {
        BuildWithinLeaves(combine, txids, mask, h - 1, 2 * pos + 1);
      }
    }
  }

  lemma NextFirst(h: nat, pos: nat)
    ensures First(h, pos + 1) == First(h, pos) + Pow2(h)
  {
    assert (pos + 1) * Pow2(h) == pos * Pow2(h) + Pow2(h);
  }

  /** A subtree stores no more than one hash per level and match, plus one. */
  lemma {:induction false} BuildPerMatch(combine: Combine, txids: seq<Hash>, mask: seq<bool>, h: nat, pos: nat)
    requires |mask| == |txids| && pos < CalcTreeWidth(|txids|, h)
    ensures |Build(combine, txids, mask, h, pos).1| <= 1 + |Under(mask, h, pos)| * h
    decreases h
  {
    hide *;
    var m := |Under(mask, h, pos)|;
    if h > 0 && Under(mask, h, pos) != [] {
      ChildExists(|txids|, h, pos);
      UnderSplit(mask, h, pos);
      var l, r := |Under(mask, h - 1, 2 * pos)|, |Under(mask, h - 1, 2 * pos + 1)|;
      BuildPerMatch(combine, txids, mask, h - 1, 2 * pos);
      if 2 * pos + 1 < CalcTreeWidth(|txids|, h - 1) {
        BuildPerMatch(combine, txids, mask, h - 1, 2 * pos + 1);
        BuildBoth(combine, txids, mask, h, pos);
        OneLevel(l, r, h);
      } else {
        BuildSingle(combine, txids, mask, h, pos);
        OneLevel(l, 0, h);
      }
    } else {
      BuildStored(combine, txids, mask, h, pos);
      MulAtMost(0, m, h);
    }
  }

  lemma OneLevel(l: nat, r: nat, h: nat)
    requires h > 0 && l + r > 0
    ensures (1 + l * (h - 1)) + (1 + r * (h - 1)) <= 1 + (l + r) * h
  {
    assert (l + r) * h == (l + r) * (h - 1) + (l + r);
    assert (l + r) * (h - 1) == l * (h - 1) + r * (h - 1);
  }

  // ----- The whole tree

  /** The least height with a single node. */
  function HeightFrom(n: nat, h: nat): (r: nat)
    requires h <= n
    ensures h <= r <= n && CalcTreeWidth(n, r) <= 1
    ensures forall k :: h <= k < r ==> CalcTreeWidth(n, k) > 1
    decreases n - h
  {
    if CalcTreeWidth(n, h) <= 1 then h else
      TallEnough(n);
      HeightFrom(n, h + 1)
  }

  function Height(n: nat): nat {
    HeightFrom(n, 0)
  }

  lemma {:induction false} PowGrows(h: nat)
    ensures Pow2(h) > h
  {
    if h > 0 {
      PowGrows(h - 1);
    }
  }

  lemma TallEnough(n: nat)
    ensures CalcTreeWidth(n, n) <= 1
  {
    PowGrows(n);
    NodeExists(n, n, 1);
    assert First(n, 1) == Pow2(n);
  }

  lemma RootExists(n: nat)
    requires n > 0
    ensures CalcTreeWidth(n, Height(n)) == 1
  {
    NodeExists(n, Height(n), 0);
    assert First(Height(n), 0) == 0;
  }

  function MerkleRoot(combine: Combine, txids: seq<Hash>): Hash
    requires txids != []
  {
    RootExists(|txids|);
    CalcHash(combine, txids, Height(|txids|), 0)
  }

  function BuildTree(combine: Combine, txids: seq<Hash>, mask: seq<bool>): Tree
    requires txids != [] && |mask| == |txids|
  {
    RootExists(|txids|);
    var (bits, hashes) := Build(combine, txids, mask, Height(|txids|), 0);
    Tree(|txids|, bits, hashes)
  }

  /** The root (null if anything is wrong), the matches and their indexes, and the object's failure flag. */
  datatype Answer = Answer(root: Hash, matches: seq<Hash>, indexes: seq<nat>, bad: bool)

  /** The index list is appended to, not cleared; a failure flag that was set stays set. */
  function Extracted(combine: Combine, t: Tree, limit: nat, indexesIn: seq<nat>, bad: bool): Answer {
    if t.n == 0 || t.n > limit || |t.hashes| > t.n || |t.bits| < |t.hashes| then Answer(NULL_HASH, [], indexesIn, bad) else
      var (c, root) := Extract(combine, t, Height(t.n), 0, Cursor(0, 0, [], indexesIn, bad));
      if c.bad || (c.bits + 7) / 8 != (|t.bits| + 7) / 8 || c.hashes != |t.hashes|
      then Answer(NULL_HASH, c.matches, c.indexes, c.bad)
      else Answer(root, c.matches, c.indexes, c.bad)
  }

  /** Every match is the transaction at its index. */
  ghost predicate Genuine(txids: seq<Hash>, matches: seq<Hash>, indexes: seq<nat>) {
    && |matches| == |indexes|
    && forall i :: 0 <= i < |matches| ==> indexes[i] < |txids| && matches[i] == txids[indexes[i]]
  }

  /** Whatever count, bits and hashes a peer sends, if the extracted root is the true, non-null root of a block: the
      indexes increase; a tree `k` levels lower than the block's yields true nodes of level `k`, which are the
      transactions if `k` is zero; and a higher tree yields nothing, unless some transaction hash is the hash of a pair. */
  lemma AcceptedMatches(combine: Combine, txids: seq<Hash>, t: Tree, limit: nat, bad: bool)
    requires Injective(combine) && txids != [] && MerkleRoot(combine, txids) != NULL_HASH
    requires Extracted(combine, t, limit, [], bad).root == MerkleRoot(combine, txids)
    ensures var a := Extracted(combine, t, limit, [], bad);
            && !a.bad && |a.matches| == |a.indexes|
            && (forall i, j :: 0 <= i < j < |a.indexes| ==> a.indexes[i] < a.indexes[j])
            && (Height(t.n) <= Height(|txids|) ==>
                  Nodes(combine, txids, Height(|txids|) - Height(t.n), a.matches, a.indexes, 0))
            && (Height(t.n) > Height(|txids|) && a.matches != [] ==> HasPair(combine, txids))
  {
    hide *;
    var c, h, top := Cursor(0, 0, [], [], bad), Height(t.n), Height(|txids|);
    RootExists(|txids|);
    AcceptedParts(combine, txids, t, limit, bad);
    ExtractGrows(combine, t, h, 0, c);
    ExtractOrdered(combine, t, h, 0, c);
    IncreasingFrom(Extract(combine, t, h, 0, c).0.indexes, First(h, 0), First(h, 1));
    if h <= top {
      ExtractSound(combine, txids, t, h, top - h, 0, c);
    } else if !HasPair(combine, txids) {
      ExtractTooDeep(combine, txids, t, top, h - top, 0, c);
    }
  }

  /** An answer with a true root is that of the traversal. */
  lemma AcceptedParts(combine: Combine, txids: seq<Hash>, t: Tree, limit: nat, bad: bool)
    requires txids != [] && MerkleRoot(combine, txids) != NULL_HASH
    requires Extracted(combine, t, limit, [], bad).root == MerkleRoot(combine, txids)
    ensures CalcTreeWidth(|txids|, Height(|txids|)) == 1
    ensures var (d, root) := Extract(combine, t, Height(t.n), 0, Cursor(0, 0, [], [], bad));
            && !d.bad && root == CalcHash(combine, txids, Height(|txids|), 0)
            && Extracted(combine, t, limit, [], bad) == Answer(root, d.matches, d.indexes, false)
  {
    RootExists(|txids|);
    hide CalcTreeWidth;
    hide CalcHash;
    hide Extract;
    hide Height;
  }

  /** More bits and hashes than are read make no difference to the traversal. */
  lemma {:induction false} ExtractMore(combine: Combine, t: Tree, u: Tree, h: nat, pos: nat, c: Cursor)
    requires t.n == u.n && t.bits <= u.bits && t.hashes <= u.hashes && !Extract(combine, t, h, pos, c).0.bad
    ensures Extract(combine, u, h, pos, c) == Extract(combine, t, h, pos, c)
    decreases h
  {
    if h > 0 && c.bits < |t.bits| && t.bits[c.bits] {
      var c1 := c.(bits := c.bits + 1);
      var c2 := Extract(combine, t, h - 1, 2 * pos, c1).0;
      if 2 * pos + 1 < CalcTreeWidth(t.n, h - 1) {
        ExtractGrows(combine, t, h - 1, 2 * pos + 1, c2);
        ExtractMore(combine, t, u, h - 1, 2 * pos, c1);
        ExtractMore(combine, t, u, h - 1, 2 * pos + 1, c2);
      } else {
        ExtractMore(combine, t, u, h - 1, 2 * pos, c1);
      }
    }
    hide CalcTreeWidth;
  }

  lemma AcceptedReads(combine: Combine, t: Tree, limit: nat, bad: bool)
    requires Extracted(combine, t, limit, [], bad).root != NULL_HASH
    ensures 0 < t.n <= limit && |t.hashes| <= t.n && |t.hashes| <= |t.bits|
    ensures var c := Extract(combine, t, Height(t.n), 0, Cursor(0, 0, [], [], bad)).0;
            !c.bad && c.hashes == |t.hashes| && (c.bits + 7) / 8 == (|t.bits| + 7) / 8
  {
    hide Extract;
    hide Height;
  }

  /** Nothing unread is accepted: if a message is, adding hashes or another byte of flag bits makes it refused, and so does
      leaving some out. The counts of what is accepted are within their bounds. */
  lemma NothingUnread(combine: Combine, t: Tree, u: Tree, limit: nat, bad: bool)
    requires t.n == u.n && t.bits <= u.bits && t.hashes <= u.hashes
    requires Extracted(combine, t, limit, [], bad).root != NULL_HASH && Extracted(combine, u, limit, [], bad).root != NULL_HASH
    ensures t.hashes == u.hashes && (|t.bits| + 7) / 8 == (|u.bits| + 7) / 8
    ensures 0 < t.n <= limit && |t.hashes| <= t.n && |t.hashes| <= |t.bits|
  {
    AcceptedReads(combine, t, limit, bad);
    AcceptedReads(combine, u, limit, bad);
    hide *;
    ExtractMore(combine, t, u, Height(t.n), 0, Cursor(0, 0, [], [], bad));
  }

  lemma IncreasingFrom(indexes: seq<nat>, lo: nat, hi: nat)
    requires Increasing(indexes, 0, lo, hi)
    ensures forall i, j :: 0 <= i < j < |indexes| ==> indexes[i] < indexes[j]
  {
  }

  /** Whatever count, bits and hashes a peer sends: if the extracted root is the true, non-null root of a block, and no
      transaction hash is the hash of a pair, then every match is the transaction at its index if and only if there is
      no match or the tree is as high as the block's. */
  lemma AcceptedIsGenuine(combine: Combine, txids: seq<Hash>, t: Tree, limit: nat, bad: bool)
    requires Injective(combine) && txids != [] && MerkleRoot(combine, txids) != NULL_HASH && !HasPair(combine, txids)
    requires Extracted(combine, t, limit, [], bad).root == MerkleRoot(combine, txids)
    ensures var a := Extracted(combine, t, limit, [], bad);
            Genuine(txids, a.matches, a.indexes) <==> a.matches == [] || Height(t.n) == Height(|txids|)
  {
    hide *;
    AcceptedMatches(combine, txids, t, limit, bad);
    var a, h, top := Extracted(combine, t, limit, [], bad), Height(t.n), Height(|txids|);
    if a.matches == [] {
      NoneGenuine(txids, a.matches, a.indexes);
    } else if h <= top {
      LevelGenuine(combine, txids, top - h, a.matches, a.indexes);
    }
  }

  lemma NoneGenuine(txids: seq<Hash>, matches: seq<Hash>, indexes: seq<nat>)
    requires matches == [] && indexes == []
    ensures Genuine(txids, matches, indexes)
  {
  }

  /** Only the nodes of level zero are transactions. */
  lemma LevelGenuine(combine: Combine, txids: seq<Hash>, k: nat, matches: seq<Hash>, indexes: seq<nat>)
    requires Nodes(combine, txids, k, matches, indexes, 0) && matches != []
    requires k > 0 ==> !HasPair(combine, txids)
    ensures Genuine(txids, matches, indexes) <==> k == 0
  {
    WidthOfLeaves(|txids|);
    hide CalcTreeWidth;
    if k > 0 {
      InnerIsPair(combine, txids, k, indexes[0]);
      hide CalcHash;
      assert matches[0] !in txids;
    }
  }

  lemma InnerIsPair(combine: Combine, txids: seq<Hash>, h: nat, pos: nat)
    requires h > 0 && pos < CalcTreeWidth(|txids|, h) && !HasPair(combine, txids)
    ensures CalcHash(combine, txids, h, pos) !in txids
  {
    ChildExists(|txids|, h, pos);
    hide CalcTreeWidth;
    var l := CalcHash(combine, txids, h - 1, 2 * pos);
    var r := if 2 * pos + 1 < CalcTreeWidth(|txids|, h - 1) then CalcHash(combine, txids, h - 1, 2 * pos + 1) else l;
    assert CalcHash(combine, txids, h, pos) == combine(l, r);
  }

  /** Four transactions announced as two: the two inner nodes are accepted as transactions. */
  lemma LowerTreeAccepted(combine: Combine, txids: seq<Hash>, t: Tree, limit: nat, a: Hash, b: Hash)
    requires |txids| == 4 && limit >= 2 && a == combine(txids[0], txids[1]) && b == combine(txids[2], txids[3]) && a != b
    requires t == Tree(2, [true, true, true], [a, b])
    ensures Extracted(combine, t, limit, [], false) == Answer(MerkleRoot(combine, txids), [a, b], [0, 1], false)
  {
    hide *;
    var h := 1;
    TwoLeaves(combine, t, a, b, h);
    FourLeaves(combine, txids);
    ExtractedTwo(combine, t, limit, h);
  }

  /** One transaction announced as two, when its hash is that of a pair: the pair is accepted as transactions. */
  lemma HigherTreeAccepted(combine: Combine, txids: seq<Hash>, t: Tree, limit: nat, a: Hash, b: Hash)
    requires txids == [combine(a, b)] && limit >= 2 && a != b
    requires t == Tree(2, [true, true, true], [a, b])
    ensures Extracted(combine, t, limit, [], false) == Answer(MerkleRoot(combine, txids), [a, b], [0, 1], false)
  {
    hide *;
    var h := 1;
    TwoLeaves(combine, t, a, b, h);
    OneLeaf(combine, txids);
    ExtractedTwo(combine, t, limit, h);
  }

  /** From `from` on, the indexes increase within a range of leaves. */
  ghost predicate Increasing(indexes: seq<nat>, from: nat, lo: nat, hi: nat) {
    && (forall i :: from <= i < |indexes| ==> lo <= indexes[i] < hi)
    && forall i, j :: from <= i < j < |indexes| ==> indexes[i] < indexes[j]
  }

  /** A subtree yields each of its leaves at most once, in order, whatever was sent. */
  lemma {:induction false} ExtractOrdered(combine: Combine, t: Tree, h: nat, pos: nat, c: Cursor)
    ensures Increasing(Extract(combine, t, h, pos, c).0.indexes, |c.indexes|, First(h, pos), First(h, pos + 1))
    decreases h
  {
    hide *;
    if c.bits >= |t.bits| || h == 0 || !t.bits[c.bits] {
      OrderedLeaf(combine, t, h, pos, c);
    } else {
      FirstSplit(h, pos);
      var c1 := c.(bits := c.bits + 1);
      var (c2, left) := Extract(combine, t, h - 1, 2 * pos, c1);
      ExtractGrows(combine, t, h - 1, 2 * pos, c1);
      ExtractOrdered(combine, t, h - 1, 2 * pos, c1);
      if 2 * pos + 1 < CalcTreeWidth(t.n, h - 1) {
        var (c3, right) := Extract(combine, t, h - 1, 2 * pos + 1, c2);
        ExtractGrows(combine, t, h - 1, 2 * pos + 1, c2);
        ExtractOrdered(combine, t, h - 1, 2 * pos + 1, c2);
        ExtractBoth(combine, t, h, pos, c, c2, left, c3, right);
        IncreasingJoin(c2.indexes, c3.indexes, |c.indexes|, First(h, pos), First(h - 1, 2 * pos + 1), First(h, pos + 1));
      } else {
        ExtractSingle(combine, t, h, pos, c, c2, left);
        IncreasingWider(c2.indexes, |c.indexes|, First(h, pos), First(h - 1, 2 * pos + 1), First(h, pos + 1));
      }
    }
  }

  lemma OrderedLeaf(combine: Combine, t: Tree, h: nat, pos: nat, c: Cursor)
    requires c.bits >= |t.bits| || h == 0 || !t.bits[c.bits]
    ensures Increasing(Extract(combine, t, h, pos, c).0.indexes, |c.indexes|, First(h, pos), First(h, pos + 1))
  {
    assert h == 0 ==> First(h, pos) == pos && First(h, pos + 1) == pos + 1;
    hide CalcTreeWidth;
    hide First;
  }

  lemma IncreasingJoin(a: seq<nat>, b: seq<nat>, from: nat, lo: nat, mid: nat, hi: nat)
    requires Increasing(a, from, lo, mid) && Increasing(b, |a|, mid, hi) && a <= b && lo <= mid <= hi && from <= |a|
    ensures Increasing(b, from, lo, hi)
  {
    forall i | from <= i < |a| ensures b[i] == a[i] {
      assert b[..|a|] == a;
    }
  }

  lemma IncreasingWider(a: seq<nat>, from: nat, lo: nat, mid: nat, hi: nat)
    requires Increasing(a, from, lo, mid) && mid <= hi
    ensures Increasing(a, from, lo, hi)
  {
  }

  /** The padding that the byte encoding appends. */
  ghost predicate PaddedTo(bits: seq<bool>, padded: seq<bool>) {
    && bits <= padded && |padded| == 8 * ((|bits| + 7) / 8)
    && forall p :: |bits| <= p < |padded| ==> !padded[p]
  }

  lemma RootRange(mask: seq<bool>)
    requires mask != []
    ensures Under(mask, Height(|mask|), 0) == Marked(mask, 0, |mask|)
  {
    var h := Height(|mask|);
    RootExists(|mask|);
    NodeExists(|mask|, h, 1);
    assert First(h, 0) == 0;
    MarkedSplit(mask, 0, |mask|, First(h, 1));
    MarkedPastEnd(mask, |mask|, First(h, 1));
  }

  /** Building, padding and extracting gives back the true root and exactly the marked transactions with
      their indexes, in order. */
  lemma RoundTrip(combine: Combine, txids: seq<Hash>, mask: seq<bool>, padded: seq<bool>, limit: nat)
    requires Injective(combine) && forall i, j :: 0 <= i < j < |txids| ==> txids[i] != txids[j]
    requires 0 < |txids| <= limit && |mask| == |txids|
    requires PaddedTo(BuildTree(combine, txids, mask).bits, padded)
    ensures forall i :: 0 <= i < |Marked(mask, 0, |mask|)| ==> Marked(mask, 0, |mask|)[i] < |txids|
    ensures Extracted(combine, BuildTree(combine, txids, mask).(bits := padded), limit, [], false) ==
              Answer(MerkleRoot(combine, txids), Pick(txids, Marked(mask, 0, |mask|)), Marked(mask, 0, |mask|), false)
  {
    RootPieces(combine, txids, mask);
    hide *;
    var h := Height(|txids|);
    RootExists(|txids|);
    RootRange(mask);
    UnderInRange(mask, h, 0);
    var (bits, hashes) := Build(combine, txids, mask, h, 0);
    var t := Tree(|txids|, padded, hashes);
    var c := Cursor(0, 0, [], [], false);
    BuildWithinLeaves(combine, txids, mask, h, 0);
    PaddedStarts(t, c, bits, hashes);
    ExtractBuilt(combine, txids, mask, t, h, 0, c);
    var u := Under(mask, h, 0);
    var d := Cursor(|bits|, |hashes|, Pick(txids, u), u, false);
    ReadFromStart(txids, mask, h, 0, c, |bits|, |hashes|);
    Answered(combine, t, limit, c, d, MerkleRoot(combine, txids));
  }

  lemma RootPieces(combine: Combine, txids: seq<Hash>, mask: seq<bool>)
    requires txids != [] && |mask| == |txids|
    ensures CalcTreeWidth(|txids|, Height(|txids|)) == 1
    ensures var (bits, hashes) := Build(combine, txids, mask, Height(|txids|), 0);
            BuildTree(combine, txids, mask) == Tree(|txids|, bits, hashes)
    ensures MerkleRoot(combine, txids) == CalcHash(combine, txids, Height(|txids|), 0)
  {
    RootExists(|txids|);
  }

  lemma ReadFromStart(txids: seq<Hash>, mask: seq<bool>, h: nat, pos: nat, c: Cursor, bits: nat, hashes: nat)
    requires |mask| == |txids| && c == Cursor(0, 0, [], [], false)
    requires forall i :: 0 <= i < |Under(mask, h, pos)| ==> Under(mask, h, pos)[i] < |txids|
    ensures ReadBack(txids, mask, h, pos, c, bits, hashes) ==
              Cursor(bits, hashes, Pick(txids, Under(mask, h, pos)), Under(mask, h, pos), false)
  {
    var u := Under(mask, h, pos);
    assert [] + Pick(txids, u) == Pick(txids, u) && [] + u == u;
  }

  lemma PaddedStarts(t: Tree, c: Cursor, bits: seq<bool>, hashes: seq<Hash>)
    requires PaddedTo(bits, t.bits) && t.hashes == hashes && c.bits == 0 && c.hashes == 0
    ensures StartsHere(t, c, bits, hashes) && |t.bits| >= |bits| && (|bits| + 7) / 8 == (|t.bits| + 7) / 8
  {
    PaddedSize(|bits|);
    assert t.bits[0..|bits|] == bits && t.hashes[0..|hashes|] == hashes;
  }

  lemma Answered(combine: Combine, t: Tree, limit: nat, c: Cursor, d: Cursor, root: Hash)
    requires 0 < t.n <= limit && |t.hashes| <= t.n && |t.hashes| <= |t.bits|
    requires c == Cursor(0, 0, [], [], false)
    requires Extract(combine, t, Height(t.n), 0, c) == (d, root) && !d.bad
    requires d.hashes == |t.hashes| && (d.bits + 7) / 8 == (|t.bits| + 7) / 8
    ensures Extracted(combine, t, limit, [], false) == Answer(root, d.matches, d.indexes, false)
  {
    hide Extract;
    hide Height;
  }

  lemma PaddedSize(n: nat)
    ensures (8 * ((n + 7) / 8) + 7) / 8 == (n + 7) / 8
  {
  }

  /** The stated bounds on the number of hashes. */
  lemma HashCount(combine: Combine, txids: seq<Hash>, mask: seq<bool>)
    requires txids != [] && |mask| == |txids|
    ensures var t := BuildTree(combine, txids, mask);
            && |t.hashes| <= |txids| && |t.hashes| <= |t.bits|
            && |t.hashes| <= 1 + |Marked(mask, 0, |mask|)| * Height(|txids|)
  {
    RootExists(|txids|);
    RootRange(mask);
    BuildWithinLeaves(combine, txids, mask, Height(|txids|), 0);
    BuildPerMatch(combine, txids, mask, Height(|txids|), 0);
    assert First(Height(|txids|), 0) == 0;
    hide Build;
    hide CalcTreeWidth;
    hide Under;
  }

  // ----- Flag bits and the encoded size

  /** How many hashes a subtree stores; this depends on the mask alone. */
  function StoredHashes(mask: seq<bool>, h: nat, pos: nat): nat
    requires pos < CalcTreeWidth(|mask|, h)
    decreases h
  {
    if h == 0 || Under(mask, h, pos) == [] then 1 else
      ChildExists(|mask|, h, pos);
      StoredHashes(mask, h - 1, 2 * pos) +
      if 2 * pos + 1 < CalcTreeWidth(|mask|, h - 1) then StoredHashes(mask, h - 1, 2 * pos + 1) else 0
  }

  /** The nodes with a single child that the traversal visits. */
  function Singles(mask: seq<bool>, h: nat, pos: nat): nat
    requires pos < CalcTreeWidth(|mask|, h)
    decreases h
  {
    if h == 0 || Under(mask, h, pos) == [] then 0 else
      ChildExists(|mask|, h, pos);
      Singles(mask, h - 1, 2 * pos) +
      if 2 * pos + 1 < CalcTreeWidth(|mask|, h - 1) then Singles(mask, h - 1, 2 * pos + 1) else 1
  }

  /** One bit per node: a node with two children adds one leaf, a node with one child adds none. */
  lemma {:induction false} BitsOfSubtree(combine: Combine, txids: seq<Hash>, mask: seq<bool>, h: nat, pos: nat)
    requires |mask| == |txids| && pos < CalcTreeWidth(|txids|, h)
    ensures var (bits, hashes) := Build(combine, txids, mask, h, pos);
            |hashes| == StoredHashes(mask, h, pos) && |bits| == 2 * |hashes| - 1 + Singles(mask, h, pos)
    decreases h
  {
    hide CalcTreeWidth;
    hide Under;
    if h == 0 || Under(mask, h, pos) == [] {
      BuildStored(combine, txids, mask, h, pos);
    } else {
      ChildExists(|txids|, h, pos);
      BitsOfSubtree(combine, txids, mask, h - 1, 2 * pos);
      if 2 * pos + 1 < CalcTreeWidth(|txids|, h - 1) {
        BitsOfSubtree(combine, txids, mask, h - 1, 2 * pos + 1);
        BuildBoth(combine, txids, mask, h, pos);
      } else {
        BuildSingle(combine, txids, mask, h, pos);
      }
      hide Build;
    }
  }

  /** The last node of level `h` has a single child and a marked leaf below. */
  predicate LoneMarked(mask: seq<bool>, h: nat)
    requires mask != []
  {
    h > 0 && CalcTreeWidth(|mask|, h - 1) % 2 == 1 && Under(mask, h, CalcTreeWidth(|mask|, h) - 1) != []
  }

  /** The number of such levels up to `h`. */
  function LoneLevels(mask: seq<bool>, h: nat): (r: nat)
    requires mask != []
    ensures r <= h
  {
    if h == 0 then 0 else LoneLevels(mask, h - 1) + if LoneMarked(mask, h) then 1 else 0
  }

  lemma SomeWidth(n: nat, h: nat)
    requires n > 0
    ensures CalcTreeWidth(n, h) > 0
  {
    NodeExists(n, h, 0);
    assert First(h, 0) == 0;
  }

  /** Children of the last node; every other node has two. */
  lemma LastChildren(n: nat, h: nat, pos: nat)
    requires h > 0 && pos < CalcTreeWidth(n, h)
    ensures 2 * pos < CalcTreeWidth(n, h - 1)
    ensures pos + 1 < CalcTreeWidth(n, h) ==> 2 * pos + 2 < CalcTreeWidth(n, h - 1)
    ensures pos + 1 == CalcTreeWidth(n, h) ==> CalcTreeWidth(n, h - 1) <= 2 * pos + 2
  {
    ChildExists(n, h, pos);
    FirstSplit(h, pos);
    NodeExists(n, h, pos + 1);
    NodeExists(n, h - 1, 2 * pos + 2);
  }

  lemma {:induction false} SinglesOnlyLast(mask: seq<bool>, h: nat, pos: nat)
    requires pos + 1 < CalcTreeWidth(|mask|, h)
    ensures Singles(mask, h, pos) == 0
    decreases h
  {
    if h > 0 && Under(mask, h, pos) != [] {
      LastChildren(|mask|, h, pos);
      hide CalcTreeWidth;
      hide Under;
      SinglesOnlyLast(mask, h - 1, 2 * pos);
      SinglesOnlyLast(mask, h - 1, 2 * pos + 1);
    }
  }

  /** Below an unmarked last node no level has a marked last node. */
  lemma {:induction false} UnmarkedBelow(mask: seq<bool>, h: nat)
    requires mask != [] && CalcTreeWidth(|mask|, h) > 0 && Under(mask, h, CalcTreeWidth(|mask|, h) - 1) == []
    ensures LoneLevels(mask, h) == 0
  {
    if h > 0 {
      var pos := CalcTreeWidth(|mask|, h) - 1;
      LastChildren(|mask|, h, pos);
      UnderSplit(mask, h, pos);
      SomeWidth(|mask|, h - 1);
      hide CalcTreeWidth;
      hide Under;
      var last := CalcTreeWidth(|mask|, h - 1) - 1;
      assert last == 2 * pos || last == 2 * pos + 1;
      UnmarkedBelow(mask, h - 1);
    }
  }

  /** So the visited nodes with a single child are the marked last nodes of odd levels. */
  lemma {:induction false} SinglesAreLone(mask: seq<bool>, h: nat)
    requires mask != [] && CalcTreeWidth(|mask|, h) > 0
    ensures Singles(mask, h, CalcTreeWidth(|mask|, h) - 1) == LoneLevels(mask, h)
  {
    hide CalcTreeWidth;
    hide Under;
    if h > 0 {
      var pos := CalcTreeWidth(|mask|, h) - 1;
      LastChildren(|mask|, h, pos);
      SomeWidth(|mask|, h - 1);
      if Under(mask, h, pos) == [] {
        UnmarkedBelow(mask, h);
      } else {
        SinglesAreLone(mask, h - 1);
        if 2 * pos + 1 < CalcTreeWidth(|mask|, h - 1) {
          SinglesOnlyLast(mask, h - 1, 2 * pos);
        }
      }
    }
  }

  lemma {:induction false} HashesSome(mask: seq<bool>, h: nat, pos: nat)
    requires pos < CalcTreeWidth(|mask|, h)
    ensures StoredHashes(mask, h, pos) >= 1
    decreases h
  {
    if h > 0 && Under(mask, h, pos) != [] {
      ChildExists(|mask|, h, pos);
      hide CalcTreeWidth;
      hide Under;
      HashesSome(mask, h - 1, 2 * pos);
    }
  }

  /** Numbers of stored hashes and of flag bits, from the mask alone. */
  function HashesFor(mask: seq<bool>): (n: nat)
    requires mask != []
    ensures n >= 1
  {
    RootExists(|mask|);
    HashesSome(mask, Height(|mask|), 0);
    StoredHashes(mask, Height(|mask|), 0)
  }

  function LoneFor(mask: seq<bool>): nat
    requires mask != []
  {
    LoneLevels(mask, Height(|mask|))
  }

  /** The exact number of flag bits: twice the hashes less one, and one for every marked last node with a
      single child. */
  lemma FlagBits(combine: Combine, txids: seq<Hash>, mask: seq<bool>)
    requires txids != [] && |mask| == |txids|
    ensures var t := BuildTree(combine, txids, mask);
            |t.hashes| == HashesFor(mask) && |t.bits| == 2 * HashesFor(mask) - 1 + LoneFor(mask)
  {
    RootPieces(combine, txids, mask);
    hide CalcTreeWidth;
    hide Build;
    BitsOfSubtree(combine, txids, mask, Height(|txids|), 0);
    SinglesAreLone(mask, Height(|txids|));
    hide BuildTree;
  }

  /** The documented bound on the flag bits holds if and only if no level has such a node. */
  lemma FlagBitsBound(combine: Combine, txids: seq<Hash>, mask: seq<bool>)
    requires txids != [] && |mask| == |txids|
    ensures |BuildTree(combine, txids, mask).bits| <= 2 * |BuildTree(combine, txids, mask).hashes| - 1 <==>
              forall h :: 0 < h <= Height(|mask|) ==> !LoneMarked(mask, h)
  {
    FlagBits(combine, txids, mask);
    hide BuildTree;
    NoLoneLevels(mask, Height(|mask|));
  }

  lemma {:induction false} NoLoneLevels(mask: seq<bool>, h: nat)
    requires mask != []
    ensures LoneLevels(mask, h) == 0 <==> forall k :: 0 < k <= h ==> !LoneMarked(mask, k)
  {
    hide LoneMarked;
    if h > 0 {
      NoLoneLevels(mask, h - 1);
    }
  }

  lemma HeightIs(n: nat, h: nat)
    requires h <= n && CalcTreeWidth(n, h) <= 1 && forall k :: 0 <= k < h ==> CalcTreeWidth(n, k) > 1
    ensures Height(n) == h
  {
    hide CalcTreeWidth;
    var r := Height(n);
  }

  lemma SmallWidths(n: nat)
    requires 1 <= n <= 4
    ensures CalcTreeWidth(n, 0) == n && CalcTreeWidth(n, 1) == (n + 1) / 2 && CalcTreeWidth(n, 2) == 1
  {
    assert Pow2(0) == 1 && Pow2(1) == 2 && Pow2(2) == 4;
  }

  lemma TwoLeaves(combine: Combine, t: Tree, a: Hash, b: Hash, h: nat)
    requires t == Tree(2, [true, true, true], [a, b]) && a != b && h == 1
    ensures Height(t.n) == h
    ensures Extract(combine, t, h, 0, Cursor(0, 0, [], [], false)) == (Cursor(3, 2, [a, b], [0, 1], false), combine(a, b))
  {
    hide *;
    SmallWidths(t.n);
    HeightIs(t.n, h);
    var c, c2 := Cursor(0, 0, [], [], false), Cursor(2, 1, [a], [0], false);
    ExtractOne(combine, t, h - 1, 0, c.(bits := 1));
    assert c.matches + [a] == [a] && c.indexes + [0] == [0];
    ExtractOne(combine, t, h - 1, 1, c2);
    assert [a] + [b] == [a, b] && [0] + [1] == [0, 1];
    ExtractBoth(combine, t, h, 0, c, c2, a, Cursor(3, 2, [a, b], [0, 1], false), b);
  }

  lemma ExtractedTwo(combine: Combine, t: Tree, limit: nat, h: nat)
    requires t.n == 2 <= limit && |t.hashes| == 2 && |t.bits| == 3 && Height(t.n) == h
    requires var (d, root) := Extract(combine, t, h, 0, Cursor(0, 0, [], [], false)); !d.bad && d.bits == 3 && d.hashes == 2
    ensures var (d, root) := Extract(combine, t, h, 0, Cursor(0, 0, [], [], false));
            Extracted(combine, t, limit, [], false) == Answer(root, d.matches, d.indexes, false)
  {
    hide Extract;
    hide Height;
  }

  lemma FourLeaves(combine: Combine, txids: seq<Hash>)
    requires |txids| == 4
    ensures MerkleRoot(combine, txids) == combine(combine(txids[0], txids[1]), combine(txids[2], txids[3]))
  {
    SmallWidths(|txids|);
    HeightIs(|txids|, 2);
    hide CalcTreeWidth;
    hide Height;
    LeafHash(combine, txids, 0);
    LeafHash(combine, txids, 1);
    LeafHash(combine, txids, 2);
    LeafHash(combine, txids, 3);
    assert CalcHash(combine, txids, 1, 0) == combine(txids[0], txids[1]);
    assert CalcHash(combine, txids, 1, 1) == combine(txids[2], txids[3]);
  }

  lemma OneLeaf(combine: Combine, txids: seq<Hash>)
    requires |txids| == 1
    ensures MerkleRoot(combine, txids) == txids[0]
  {
    hide *;
    SmallWidths(|txids|);
    HeightIs(|txids|, 0);
    RootIs(combine, txids);
    LeafHash(combine, txids, 0);
  }

  lemma RootIs(combine: Combine, txids: seq<Hash>)
    requires txids != []
    ensures CalcTreeWidth(|txids|, Height(|txids|)) == 1
    ensures MerkleRoot(combine, txids) == CalcHash(combine, txids, Height(|txids|), 0)
  {
    RootExists(|txids|);
    hide CalcTreeWidth;
    hide CalcHash;
    hide Height;
  }

  lemma {:induction false} NothingMarked(mask: seq<bool>, lo: nat, hi: nat)
    requires forall i :: lo <= i < hi && i < |mask| ==> !mask[i]
    ensures Marked(mask, lo, hi) == []
    decreases hi
  {
    if lo < hi {
      NothingMarked(mask, lo, hi - 1);
    }
  }

  /** Three transactions with the last one matched: four bits for two hashes, one more than documented. */
  lemma FlagBitsExceeded(combine: Combine, txids: seq<Hash>, mask: seq<bool>)
    requires |txids| == 3 && mask == [false, false, true]
    ensures var t := BuildTree(combine, txids, mask); |t.hashes| == 2 && |t.bits| == 4
  {
    hide *;
    ThreeWidths(|mask|);
    ThreeMarks(mask);
    HeightIs(|mask|, 2);
    ThreeLeaves(mask);
    FlagBits(combine, txids, mask);
  }

  lemma ThreeWidths(n: nat)
    requires n == 3
    ensures CalcTreeWidth(n, 0) == 3 && CalcTreeWidth(n, 1) == 2 && CalcTreeWidth(n, 2) == 1
  {
    assert Pow2(0) == 1 && Pow2(1) == 2 && Pow2(2) == 4;
  }

  lemma ThreeMarks(mask: seq<bool>)
    requires mask == [false, false, true]
    ensures Under(mask, 2, 0) != [] && Under(mask, 1, 1) != [] && Under(mask, 1, 0) == []
  {
    assert Pow2(1) == 2 && Pow2(2) == 4;
    MarkedSpec(mask, 0, 4);
    MarkedSpec(mask, 2, 4);
    NothingMarked(mask, 0, 2);
    hide Marked;
    assert 2 in Marked(mask, 0, 4) && 2 in Marked(mask, 2, 4);
  }

  lemma ThreeLeaves(mask: seq<bool>)
    requires mask != [] && Under(mask, 2, 0) != [] && Under(mask, 1, 1) != [] && Under(mask, 1, 0) == []
    requires CalcTreeWidth(|mask|, 0) == 3 && CalcTreeWidth(|mask|, 1) == 2 && CalcTreeWidth(|mask|, 2) == 1
    requires Height(|mask|) == 2
    ensures HashesFor(mask) == 2 && LoneFor(mask) == 1
  {
    hide CalcTreeWidth;
    hide Under;
    hide Height;
    assert StoredHashes(mask, 1, 0) == 1;
    assert StoredHashes(mask, 0, 2) == 1;
    assert StoredHashes(mask, 1, 1) == 1;
    assert StoredHashes(mask, 2, 0) == 2;
    assert LoneLevels(mask, 0) == 0;
    assert LoneLevels(mask, 1) == 1;
    assert LoneLevels(mask, 2) == 1;
  }

  /** The variable-length prefix of a list. */
  function CompactSizeLength(n: nat): nat {
    if n < 253 then 1 else if n <= 0xffff then 3 else if n <= 0xffff_ffff then 5 else 9
  }

  /** Transaction count, hashes and packed bits, in bytes. */
  function EncodedSize(hashes: nat, bits: nat): nat {
    var bytes := (bits + 7) / 8;
    4 + CompactSizeLength(hashes) + 32 * hashes + CompactSizeLength(bytes) + bytes
  }

  /** `10 + ceil(32.25 * n)`. */
  function DocumentedSize(n: nat): nat {
    10 + 32 * n + (n + 3) / 4
  }

  function SizeFor(mask: seq<bool>): nat
    requires mask != []
  {
    EncodedSize(HashesFor(mask), 2 * HashesFor(mask) + LoneFor(mask) - 1)
  }

  /** How many levels with a single child fit in the bits that rounding up leaves over. */
  function Spare(n: nat): nat {
    1 + 2 * ((4 - n % 4) % 4)
  }

  lemma LowTree(n: nat)
    requires 0 < n <= 0xffff
    ensures Height(n) <= 16
  {
    Pow2Of32();
    assert CalcTreeWidth(n, 16) <= 1;
    hide CalcTreeWidth;
  }

  lemma SizeArithmetic(n: nat, lone: nat)
    requires 1 <= n <= 0xffff && lone <= 16
    ensures var size := EncodedSize(n, 2 * n + lone - 1);
            && size <= DocumentedSize(n) + 2
            && (size <= DocumentedSize(n) <==> lone <= Spare(n) || 2 * n + lone - 1 <= 2016)
  {
    var bytes, quarter := (2 * n + lone - 1 + 7) / 8, (n + 3) / 4;
    assert bytes <= quarter + 2;
    assert bytes <= quarter <==> lone <= Spare(n);
    assert bytes <= 252 <==> 2 * n + lone - 1 <= 2016;
  }

  /** The size of an encoded tree with at most 65535 transactions: two more than documented at most, and
      within the documented size exactly if few levels have a single child or the bits are few. */
  lemma EncodedSizeBound(combine: Combine, txids: seq<Hash>, mask: seq<bool>)
    requires 0 < |txids| <= 0xffff && |mask| == |txids|
    ensures var t := BuildTree(combine, txids, mask);
            var size, n := EncodedSize(|t.hashes|, |t.bits|), |t.hashes|;
            && size == SizeFor(mask) && size <= DocumentedSize(n) + 2
            && (size <= DocumentedSize(n) <==> LoneFor(mask) <= Spare(HashesFor(mask)) || 2 * HashesFor(mask) + LoneFor(mask) - 1 <= 2016)
  {
    FlagBits(combine, txids, mask);
    HashCount(combine, txids, mask);
    LowTree(|txids|);
    hide BuildTree;
    hide EncodedSize;
    hide DocumentedSize;
    hide Spare;
    hide StoredHashes;
    hide Height;
    SizeArithmetic(HashesFor(mask), LoneFor(mask));
  }

  // A block all of whose transactions match

  lemma AllUnder(mask: seq<bool>, h: nat, pos: nat)
    requires pos < CalcTreeWidth(|mask|, h) && forall i :: 0 <= i < |mask| ==> mask[i]
    ensures Under(mask, h, pos) != []
  {
    NodeExists(|mask|, h, pos);
    NextFirst(h, pos);
    MarkedSpec(mask, First(h, pos), First(h, pos + 1));
    hide Marked;
    hide First;
    assert First(h, pos) in Marked(mask, First(h, pos), First(h, pos + 1));
  }

  function Least(a: nat, b: nat): nat {
    if a <= b then a else b
  }

  lemma {:induction false} AllStored(mask: seq<bool>, h: nat, pos: nat)
    requires pos < CalcTreeWidth(|mask|, h) && forall i :: 0 <= i < |mask| ==> mask[i]
    ensures First(h, pos) + StoredHashes(mask, h, pos) == Least(|mask|, First(h, pos + 1))
    decreases h
  {
    if h == 0 {
      WidthOfLeaves(|mask|);
      assert First(0, pos) == pos && First(0, pos + 1) == pos + 1;
      hide CalcTreeWidth;
    } else {
      hide StoredHashes;
      hide CalcTreeWidth;
      hide Under;
      AllUnder(mask, h, pos);
      StoredCases(mask, h, pos);
      FirstSplit(h, pos);
      NodeExists(|mask|, h - 1, 2 * pos + 1);
      hide First;
      AllStored(mask, h - 1, 2 * pos);
      if 2 * pos + 1 < CalcTreeWidth(|mask|, h - 1) {
        AllStored(mask, h - 1, 2 * pos + 1);
      }
    }
  }

  lemma StoredCases(mask: seq<bool>, h: nat, pos: nat)
    requires h > 0 && pos < CalcTreeWidth(|mask|, h) && Under(mask, h, pos) != []
    ensures 2 * pos < CalcTreeWidth(|mask|, h - 1)
    ensures 2 * pos + 1 < CalcTreeWidth(|mask|, h - 1) ==>
              StoredHashes(mask, h, pos) == StoredHashes(mask, h - 1, 2 * pos) + StoredHashes(mask, h - 1, 2 * pos + 1)
    ensures 2 * pos + 1 >= CalcTreeWidth(|mask|, h - 1) ==>
              StoredHashes(mask, h, pos) == StoredHashes(mask, h - 1, 2 * pos)
  {
    ChildExists(|mask|, h, pos);
    hide CalcTreeWidth;
    hide Under;
  }

  /** With 1012 transactions, all matched, the encoding is one byte longer than documented. */
  lemma DocumentedSizeExceeded(mask: seq<bool>)
    requires |mask| == 1012 && forall i :: 0 <= i < |mask| ==> mask[i]
    ensures HashesFor(mask) == 1012 && SizeFor(mask) == 32648 == DocumentedSize(1012) + 1
  {
    hide *;
    Height1012();
    AllStored(mask, 10, 0);
    LeastOf(|mask|, First(10, 1));
    Lone1012(mask);
    Size1012(mask);
  }

  lemma Height1012()
    ensures Height(1012) == 10 && CalcTreeWidth(1012, 10) == 1 && First(10, 0) == 0 && First(10, 1) >= 1012
  {
    Widths1012();
    HeightIs(1012, 10);
    NodeExists(1012, 10, 1);
    hide CalcTreeWidth;
    hide Height;
  }

  lemma LeastOf(a: nat, b: nat)
    ensures a <= b ==> Least(a, b) == a
  {
  }

  lemma Size1012(mask: seq<bool>)
    requires |mask| == 1012 && Height(1012) == 10 && CalcTreeWidth(1012, 10) == 1
    requires StoredHashes(mask, 10, 0) == 1012 && LoneLevels(mask, 10) == 2
    ensures HashesFor(mask) == 1012 && SizeFor(mask) == 32648 == DocumentedSize(1012) + 1
  {
    hide StoredHashes;
    hide LoneLevels;
    hide Height;
    hide CalcTreeWidth;
  }

  lemma Widths1012()
    ensures CalcTreeWidth(1012, 0) == 1012 && CalcTreeWidth(1012, 1) == 506 && CalcTreeWidth(1012, 2) == 253
    ensures CalcTreeWidth(1012, 3) == 127 && CalcTreeWidth(1012, 4) == 64 && CalcTreeWidth(1012, 5) == 32
    ensures CalcTreeWidth(1012, 6) == 16 && CalcTreeWidth(1012, 7) == 8 && CalcTreeWidth(1012, 8) == 4
    ensures CalcTreeWidth(1012, 9) == 2 && CalcTreeWidth(1012, 10) == 1
  {
    assert Pow2(0) == 1 && Pow2(1) == 2 && Pow2(2) == 4 && Pow2(3) == 8 && Pow2(4) == 16 && Pow2(5) == 32;
    assert Pow2(6) == 64 && Pow2(7) == 128 && Pow2(8) == 256 && Pow2(9) == 512 && Pow2(10) == 1024;
  }

  lemma LoneWhenOdd(mask: seq<bool>, h: nat)
    requires h > 0 && mask != [] && forall i :: 0 <= i < |mask| ==> mask[i]
    ensures LoneMarked(mask, h) <==> CalcTreeWidth(|mask|, h - 1) % 2 == 1
  {
    SomeWidth(|mask|, h);
    AllUnder(mask, h, CalcTreeWidth(|mask|, h) - 1);
  }

  lemma Lone1012(mask: seq<bool>)
    requires |mask| == 1012 && forall i :: 0 <= i < |mask| ==> mask[i]
    ensures LoneLevels(mask, 10) == 2
  {
    Widths1012();
    hide CalcTreeWidth;
    forall h | 0 < h <= 10 ensures LoneMarked(mask, h) <==> CalcTreeWidth(1012, h - 1) % 2 == 1 {
      LoneWhenOdd(mask, h);
    }
    hide LoneMarked;
    assert LoneLevels(mask, 2) == 0;
    assert LoneLevels(mask, 4) == 2;
    assert LoneLevels(mask, 6) == 2;
    assert LoneLevels(mask, 8) == 2;
  }

  // ----- The byte encoding of the flag bits

  /** `bytes` holds `bits`, eight to a byte with the least significant bit first, and nothing else. */
  ghost predicate Packed(bits: seq<bool>, bytes: seq<bv8>) {
    && |bytes| == (|bits| + 7) / 8
    && forall p :: 0 <= p < 8 * |bytes| ==> FlagAt(bytes, p) == (p < |bits| && bits[p])
  }

  method PackBits(bits: seq<bool>) returns (bytes: seq<bv8>)
    ensures Packed(bits, bytes)
  {
    bytes := seq((|bits| + 7) / 8, (_: nat) => 0);
    hide Bit;
    hide SetFlag;
    forall q | 0 <= q < 8 * |bytes| ensures !FlagAt(bytes, q) {
      NoBits(q % 8);
    }
    var p := 0;
    while p < |bits|
      invariant p <= |bits| && |bytes| == (|bits| + 7) / 8
      invariant forall q :: 0 <= q < 8 * |bytes| ==> FlagAt(bytes, q) == (q < p && bits[q])
    {
      ghost var before := bytes;
      bytes := SetFlag(bytes, p, bits[p]);
      forall q | 0 <= q < 8 * |bytes| ensures FlagAt(bytes, q) == (q < p + 1 && bits[q]) {
        SetFlagSpec(before, p, bits[p], q);
      }
      p := p + 1;
    }
  }

  method UnpackBits(bytes: seq<bv8>) returns (bits: seq<bool>)
    ensures |bits| == 8 * |bytes|
    ensures forall p :: 0 <= p < |bits| ==> bits[p] == FlagAt(bytes, p)
  {
    hide Bit;
    bits := seq(8 * |bytes|, (_: nat) => false);
    var p := 0;
    while p < |bits|
      invariant p <= |bits| == 8 * |bytes|
      invariant forall q :: 0 <= q < p ==> bits[q] == FlagAt(bytes, q)
    {
      bits := bits[p := FlagAt(bytes, p)];
      p := p + 1;
    }
  }

  /** Packing and unpacking only pads. */
  lemma UnpackedIsPadded(bits: seq<bool>, bytes: seq<bv8>, unpacked: seq<bool>)
    requires Packed(bits, bytes) && |unpacked| == 8 * |bytes|
    requires forall p :: 0 <= p < |unpacked| ==> unpacked[p] == FlagAt(bytes, p)
    ensures PaddedTo(bits, unpacked)
  {
    hide FlagAt;
    forall p | 0 <= p < |bits| ensures bits[p] == unpacked[p] {
      assert unpacked[p] == FlagAt(bytes, p);
    }
    assert unpacked[..|bits|] == bits;
  }

  // ----- The object

  method CalcHeight(n: nat) returns (h: nat)
    ensures h == Height(n)
  {
    hide CalcTreeWidth;
    h := 0;
    while CalcTreeWidth(n, h) > 1
      invariant h <= n && HeightFrom(n, h) == Height(n)
      decreases n - h
    {
      TallEnough(n);
      h := h + 1;
    }
  }

  class CPartialMerkleTree {
    var nTransactions: nat
    var vBits: seq<bool>
    var vHash: seq<Hash>
    var fBad: bool

    function Sent(): Tree
      reads this
    {
      Tree(nTransactions, vBits, vHash)
    }

    constructor Empty()
      ensures Sent() == Tree(0, [], []) && fBad
    {
      nTransactions, vBits, vHash, fBad := 0, [], [], true;
    }

    constructor FromBlock(combine: Combine, vTxid: seq<Hash>, vMatch: seq<bool>)
      requires vTxid != [] && |vMatch| == |vTxid|
      ensures Sent() == BuildTree(combine, vTxid, vMatch) && !fBad
    {
      nTransactions, vBits, vHash, fBad := |vTxid|, [], [], false;
      new;
      TraverseFromRoot(combine, vTxid, vMatch);
    }

    method TraverseFromRoot(combine: Combine, vTxid: seq<Hash>, vMatch: seq<bool>)
      requires vTxid != [] && |vMatch| == |vTxid| == nTransactions && vBits == [] && vHash == []
      modifies this`vBits, this`vHash
      ensures Sent() == BuildTree(combine, vTxid, vMatch)
    {
      hide CalcTreeWidth;
      hide Height;
      hide Build;
      hide BuildTree;
      hide CalcHash;
      hide MerkleRoot;
      var nHeight := CalcHeight(nTransactions);
      RootPieces(combine, vTxid, vMatch);
      TraverseAndBuild(combine, nHeight, 0, vTxid, vMatch);
    }

    /** Whether any leaf under the node is matched. */
    method ParentOfMatch(height: nat, pos: nat, vMatch: seq<bool>) returns (found: bool)
      requires |vMatch| == nTransactions
      ensures found == (Under(vMatch, height, pos) != [])
    {
      NextFirst(height, pos);
      found := false;
      var p, end := First(height, pos), First(height, pos + 1);
      ghost var first := p;
      hide First;
      while p < end && p < nTransactions
        invariant first <= p <= end
        invariant found == (Marked(vMatch, first, p) != [])
      {
        found := found || vMatch[p];
        p := p + 1;
      }
      MarkedSplit(vMatch, first, p, end);
      if p < end {
        MarkedPastEnd(vMatch, p, end);
      }
    }

    method TraverseAndBuild(combine: Combine, height: nat, pos: nat, vTxid: seq<Hash>, vMatch: seq<bool>)
      requires |vMatch| == |vTxid| == nTransactions && pos < CalcTreeWidth(|vTxid|, height)
      modifies this`vBits, this`vHash
      ensures var (bits, hashes) := Build(combine, vTxid, vMatch, height, pos);
              vBits == old(vBits) + bits && vHash == old(vHash) + hashes
      decreases height
    {
      hide *;
      var fParentOfMatch := ParentOfMatch(height, pos, vMatch);
      vBits := vBits + [fParentOfMatch];
      if height == 0 || !fParentOfMatch {
        BuildStored(combine, vTxid, vMatch, height, pos);
        vHash := vHash + [CalcHash(combine, vTxid, height, pos)];
      } else {
        ChildExists(|vTxid|, height, pos);
        TraverseAndBuild(combine, height - 1, pos * 2, vTxid, vMatch);
        if pos * 2 + 1 < CalcTreeWidth(nTransactions, height - 1) {
          BuildBoth(combine, vTxid, vMatch, height, pos);
          TraverseAndBuild(combine, height - 1, pos * 2 + 1, vTxid, vMatch);
        } else {
          BuildSingle(combine, vTxid, vMatch, height, pos);
        }
      }
    }

    method TraverseAndExtract(combine: Combine, height: nat, pos: nat, bitsUsed: nat, hashUsed: nat, matches: seq<Hash>, indexes: seq<nat>)
      returns (hash: Hash, nBitsUsed: nat, nHashUsed: nat, vMatch: seq<Hash>, vnIndex: seq<nat>)
      modifies this`fBad
      ensures Extract(combine, Sent(), height, pos, Cursor(bitsUsed, hashUsed, matches, indexes, old(fBad))) ==
                (Cursor(nBitsUsed, nHashUsed, vMatch, vnIndex, fBad), hash)
      decreases height
    {
      hide CalcTreeWidth;
      hide Extract;
      ghost var c := Cursor(bitsUsed, hashUsed, matches, indexes, fBad);
      nBitsUsed, nHashUsed, vMatch, vnIndex := bitsUsed, hashUsed, matches, indexes;
      if nBitsUsed >= |vBits| {
        ExtractNothing(combine, Sent(), height, pos, c);
        fBad := true;
        return NULL_HASH, nBitsUsed, nHashUsed, vMatch, vnIndex;
      }
      var fParentOfMatch := vBits[nBitsUsed];
      nBitsUsed := nBitsUsed + 1;
      if height == 0 || !fParentOfMatch {
        if nHashUsed >= |vHash| {
          ExtractNothing(combine, Sent(), height, pos, c);
          fBad := true;
          return NULL_HASH, nBitsUsed, nHashUsed, vMatch, vnIndex;
        }
        ExtractOne(combine, Sent(), height, pos, c);
        hash := vHash[nHashUsed];
        nHashUsed := nHashUsed + 1;
        if height == 0 && fParentOfMatch {
          vMatch := vMatch + [hash];
          vnIndex := vnIndex + [pos];
        }
      } else {
        var left, right: Hash;
        left, nBitsUsed, nHashUsed, vMatch, vnIndex := TraverseAndExtract(combine, height - 1, pos * 2, nBitsUsed, nHashUsed, vMatch, vnIndex);
        ghost var c2 := Cursor(nBitsUsed, nHashUsed, vMatch, vnIndex, fBad);
        if pos * 2 + 1 < CalcTreeWidth(nTransactions, height - 1) {
          right, nBitsUsed, nHashUsed, vMatch, vnIndex := TraverseAndExtract(combine, height - 1, pos * 2 + 1, nBitsUsed, nHashUsed, vMatch, vnIndex);
          ExtractBoth(combine, Sent(), height, pos, c, c2, left, Cursor(nBitsUsed, nHashUsed, vMatch, vnIndex, fBad), right);
          if right == left {
            fBad := true;
          }
        } else {
          ExtractSingle(combine, Sent(), height, pos, c, c2, left);
          right := left;
        }
        hash := combine(left, right);
      }
    }

    method ExtractMatches(combine: Combine, limit: nat, indexesIn: seq<nat>)
      returns (root: Hash, vMatch: seq<Hash>, vnIndex: seq<nat>)
      modifies this`fBad
      ensures Extracted(combine, Sent(), limit, indexesIn, old(fBad)) == Answer(root, vMatch, vnIndex, fBad)
    {
      hide Height;
      vMatch, vnIndex := [], indexesIn;
      if nTransactions == 0 || nTransactions > limit || |vHash| > nTransactions || |vBits| < |vHash| {
        return NULL_HASH, vMatch, vnIndex;
      }
      var nHeight := CalcHeight(nTransactions);
      var nBitsUsed, nHashUsed;
      root, nBitsUsed, nHashUsed, vMatch, vnIndex := TraverseAndExtract(combine, nHeight, 0, 0, 0, vMatch, vnIndex);
      hide Extract;
      if fBad || (nBitsUsed + 7) / 8 != (|vBits| + 7) / 8 || nHashUsed != |vHash| {
        root := NULL_HASH;
      }
    }

    method Serialize() returns (n: nat, hashes: seq<Hash>, vBytes: seq<bv8>)
      ensures n == nTransactions && hashes == vHash && Packed(vBits, vBytes)
    {
      n, hashes := nTransactions, vHash;
      vBytes := PackBits(vBits);
    }

    constructor Unserialize(n: nat, hashes: seq<Hash>, vBytes: seq<bv8>)
      ensures nTransactions == n && vHash == hashes && |vBits| == 8 * |vBytes| && !fBad
      ensures forall p :: 0 <= p < |vBits| ==> vBits[p] == FlagAt(vBytes, p)
    {
      var bits := UnpackBits(vBytes);
      nTransactions, vHash, vBits, fBad := n, hashes, bits, false;
    }
  }

  /** A filtered block sent to a peer and read there. */
  method Relay(combine: Combine, txids: seq<Hash>, mask: seq<bool>, limit: nat)
    returns (root: Hash, matches: seq<Hash>, indexes: seq<nat>)
    requires Injective(combine) && forall i, j :: 0 <= i < j < |txids| ==> txids[i] != txids[j]
    requires 0 < |txids| <= limit && |mask| == |txids|
    ensures root == MerkleRoot(combine, txids)
    ensures indexes == Marked(mask, 0, |mask|)
    ensures |matches| == |indexes| && forall i :: 0 <= i < |indexes| ==> indexes[i] < |txids| && matches[i] == txids[indexes[i]]
  {
    hide Injective;
    hide BuildTree;
    hide Extracted;
    hide MerkleRoot;
    hide Marked;
    hide PaddedTo;
    hide Packed;
    hide FlagAt;
    var ours := new CPartialMerkleTree.FromBlock(combine, txids, mask);
    var n, hashes, bytes := ours.Serialize();
    var theirs := new CPartialMerkleTree.Unserialize(n, hashes, bytes);
    UnpackedIsPadded(ours.vBits, bytes, theirs.vBits);
    RoundTrip(combine, txids, mask, theirs.vBits, limit);
    root, matches, indexes := theirs.ExtractMatches(combine, limit, []);
  }
}
