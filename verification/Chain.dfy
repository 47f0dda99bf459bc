/** The block tree with its skip pointers, and the active chain through it. */
module Chain {
  import opened Arithmetic
  import opened SkipList

  // ----- Blocks

  class CBlockIndex {
    const pprev: CBlockIndex?
    const nHeight: nat
    var pskip: CBlockIndex?

    constructor (pprev: CBlockIndex?, nHeight: nat)
      ensures this.pprev == pprev && this.nHeight == nHeight && pskip == null
    {
      this.pprev, this.nHeight, pskip := pprev, nHeight, null;
    }

    /** The entry at the given height, found along skip pointers, and the steps that took. */
    method GetAncestor(height: int) returns (r: CBlockIndex?, ghost steps: nat)
      requires Linked(this) && SkipsOk(this)
      ensures SkipsOk(this)
      ensures height < 0 || height > nHeight ==> r == null
      ensures 0 <= height <= nHeight ==> r == Ancestor(this, height)
      ensures old(SkipsSet(this)) ==> SkipsSet(this) && (0 <= height <= nHeight ==> steps == Steps(nHeight, height))
    {
      steps := 0;
      ghost var full := SkipsSet(this);
      if height > nHeight || height < 0 {
        return null, 0;
      }
      var walk: CBlockIndex, heightWalk: nat := this, nHeight;
      while heightWalk > height
        invariant height <= heightWalk <= nHeight && walk.nHeight == heightWalk
        invariant SkipsOk(this) && Linked(walk) && SkipsOk(walk) && Ancestor(walk, height) == Ancestor(this, height)
        invariant full ==> SkipsSet(this) && SkipsSet(walk) && steps + Steps(heightWalk, height) == Steps(nHeight, height)
      {
        steps := steps + 1;
        StepOnce(heightWalk, height);
        hide Steps;
        hide GetSkipHeight;
        var heightSkip, heightSkipPrev := GetSkipHeight(heightWalk), GetSkipHeight(heightWalk - 1);
        if walk.pskip != null &&
           (heightSkip == height || (heightSkip > height && !(heightSkipPrev < heightSkip - 2 && heightSkipPrev >= height))) {
          AncestorSteps(walk, heightSkip, height);
          SkipsBelow(walk, heightSkip);
          SetBelow(walk, heightSkip);
          walk, heightWalk := walk.pskip, heightSkip;
        } else {
          walk, heightWalk := walk.pprev, heightWalk - 1;
        }
      }
      return walk, steps;
    }

    /** Called once for a new block, whose predecessors all have their skip pointers. */
    method BuildSkip()
      requires Linked(this) && (pprev != null ==> SkipsOk(pprev)) && pskip == null
      modifies this`pskip
      ensures SkipsOk(this) && (old(pprev != null ==> Built(pprev)) ==> Built(this))
      ensures nHeight > 0 ==> pskip == Ancestor(this, GetSkipHeight(nHeight))
    {
      if pprev != null {
        var skip, _ := pprev.GetAncestor(GetSkipHeight(nHeight));
        NotOwnAncestor(pprev, this);
        pskip := skip;
      }
    }
  }

  /** Heights count the steps to the first block. */
  ghost predicate Linked(b: CBlockIndex)
    decreases b.nHeight
  {
    if b.pprev == null then b.nHeight == 0 else b.pprev.nHeight + 1 == b.nHeight && Linked(b.pprev)
  }

  /** The block at height `h` on the way back from `b`, one predecessor at a time. */
  ghost function Ancestor(b: CBlockIndex, h: nat): (r: CBlockIndex)
    requires Linked(b) && h <= b.nHeight
    ensures Linked(r) && r.nHeight == h
    decreases b.nHeight
  {
    if h == b.nHeight then b else Ancestor(b.pprev, h)
  }

  /** The block and all its predecessors. */
  ghost function Line(b: CBlockIndex): set<CBlockIndex>
    requires Linked(b)
    decreases b.nHeight
  {
    {b} + if b.pprev == null then {} else Line(b.pprev)
  }

  ghost predicate SkipsOk(b: CBlockIndex)
    requires Linked(b)
    reads Line(b)
    decreases b.nHeight
  {
    && (b.pskip != null ==> b.pskip == Ancestor(b, GetSkipHeight(b.nHeight)))
    && (b.pprev != null ==> SkipsOk(b.pprev))
  }

  /** Every block of the line above the first has its skip pointer. */
  ghost predicate SkipsSet(b: CBlockIndex)
    requires Linked(b)
    reads Line(b)
    decreases b.nHeight
  {
    b.pprev != null ==> b.pskip != null && SkipsSet(b.pprev)
  }

  ghost predicate Built(b: CBlockIndex)
    requires Linked(b)
    reads Line(b)
  {
    SkipsOk(b) && SkipsSet(b)
  }

  lemma {:induction false} SetBelow(b: CBlockIndex, h: nat)
    requires Linked(b) && h <= b.nHeight
    ensures SkipsSet(b) ==> SkipsSet(Ancestor(b, h))
    decreases b.nHeight
  {
    if h < b.nHeight {
      SetBelow(b.pprev, h);
    }
  }

  lemma {:induction false} AncestorSteps(b: CBlockIndex, k: nat, h: nat)
    requires Linked(b) && h <= k <= b.nHeight
    ensures Ancestor(Ancestor(b, k), h) == Ancestor(b, h)
    decreases b.nHeight
  {
    if k < b.nHeight {
      AncestorSteps(b.pprev, k, h);
    }
  }

  lemma {:induction false} SkipsBelow(b: CBlockIndex, h: nat)
    requires Linked(b) && SkipsOk(b) && h <= b.nHeight
    ensures SkipsOk(Ancestor(b, h))
    decreases b.nHeight
  {
    if h < b.nHeight {
      SkipsBelow(b.pprev, h);
    }
  }

  lemma {:induction false} NotOwnAncestor(b: CBlockIndex, c: CBlockIndex)
    requires Linked(b) && c.nHeight > b.nHeight
    ensures c !in Line(b)
    decreases b.nHeight
  {
    if b.pprev != null {
      NotOwnAncestor(b.pprev, c);
    }
  }

  ghost predicate IsAncestor(a: CBlockIndex, b: CBlockIndex)
    requires Linked(b)
  {
    a.nHeight <= b.nHeight && Ancestor(b, a.nHeight) == a
  }

  /** Two branches that meet stay together below. */
  lemma MeetBelow(a: CBlockIndex, b: CBlockIndex, k: nat, h: nat)
    requires Linked(a) && Linked(b) && h <= k <= a.nHeight && k <= b.nHeight && Ancestor(a, k) == Ancestor(b, k)
    ensures Ancestor(a, h) == Ancestor(b, h)
  {
    AncestorSteps(a, k, h);
    AncestorSteps(b, k, h);
  }

  // ----- The last common ancestor of two blocks

  method LastCommonAncestor(a: CBlockIndex, b: CBlockIndex) returns (r: CBlockIndex?)
    requires Linked(a) && Linked(b) && SkipsOk(a) && SkipsOk(b)
    ensures r != null ==> IsAncestor(r, a) && IsAncestor(r, b)
    ensures forall x: CBlockIndex :: IsAncestor(x, a) && IsAncestor(x, b) ==> r != null && IsAncestor(x, r)
  {
    var pa: CBlockIndex?, pb: CBlockIndex? := a, b;
    if pa.nHeight > pb.nHeight {
      var p, _ := pa.GetAncestor(pb.nHeight);
      pa := p;
    } else if pb.nHeight > pa.nHeight {
      var p, _ := pb.GetAncestor(pa.nHeight);
      pb := p;
    }
    var height: int := pa.nHeight;
    while pa != pb && pa != null && pb != null
      invariant -1 <= height <= a.nHeight && height <= b.nHeight
      invariant height >= 0 ==> pa == Ancestor(a, height) && pb == Ancestor(b, height)
      invariant height < 0 ==> pa == null && pb == null
      invariant forall k :: height < k <= a.nHeight && k <= b.nHeight ==> Ancestor(a, k) != Ancestor(b, k)
      decreases height
    {
      if height > 0 {
        PrevIsAncestor(a, height);
        PrevIsAncestor(b, height);
      }
      pa, pb := pa.pprev, pb.pprev;
      height := height - 1;
    }
    assert pa == pb;
    forall x: CBlockIndex | IsAncestor(x, a) && IsAncestor(x, b) ensures pa != null && IsAncestor(x, pa) {
      assert x.nHeight <= height;
      AncestorSteps(a, height, x.nHeight);
    }
    return pa;
  }

  lemma {:induction false} PrevIsAncestor(b: CBlockIndex, h: nat)
    requires Linked(b) && 0 < h <= b.nHeight
    ensures Ancestor(b, h).pprev == Ancestor(b, h - 1)
    decreases b.nHeight
  {
    if h < b.nHeight {
      PrevIsAncestor(b.pprev, h);
    } else {
      assert Ancestor(b.pprev, h - 1) == b.pprev;
    }
  }

  // ----- The block tree

  class BlockTree {
    var blocks: set<CBlockIndex>

    ghost predicate Valid()
      reads this, blocks
    {
      forall b :: b in blocks ==> Linked(b) && Line(b) <= blocks && Built(b)
    }

    constructor ()
      ensures Valid() && blocks == {}
    {
      blocks := {};
    }

    /** A new entry on top of a known one; all other entries keep their skip pointers. */
    method AddBlock(pprev: CBlockIndex?) returns (b: CBlockIndex)
      requires Valid() && (pprev != null ==> pprev in blocks)
      modifies this
      ensures Valid() && fresh(b) && blocks == old(blocks) + {b}
      ensures b.pprev == pprev && b.nHeight == if pprev == null then 0 else pprev.nHeight + 1
      ensures b.nHeight > 0 ==> b.pskip == Ancestor(b, GetSkipHeight(b.nHeight))
    {
      hide GetSkipHeight;
      hide Ancestor;
      var height := if pprev == null then 0 else pprev.nHeight + 1;
      b := new CBlockIndex(pprev, height);
      assert forall c :: c in blocks ==> b !in Line(c);
      assert Line(b) <= blocks + {b};
      assert pprev != null ==> SkipsOk(pprev);
      hide Built;
      hide SkipsOk;
      hide SkipsSet;
      hide Line;
      b.BuildSkip();
      blocks := blocks + {b};
    }
  }

  // ----- The active chain

  class CChain {
    var vChain: seq<CBlockIndex?>

    /** The entries are the ancestors of the last one. */
    ghost predicate Valid()
      reads this
    {
      && (forall h :: 0 <= h < |vChain| ==> vChain[h] != null)
      && (vChain != [] ==>
            var tip: CBlockIndex := vChain[|vChain| - 1];
            Linked(tip) && tip.nHeight == |vChain| - 1 && forall h :: 0 <= h < |vChain| ==> vChain[h] == Ancestor(tip, h))
    }

    constructor ()
      ensures Valid() && vChain == []
    {
      vChain := [];
    }

    function Tip(): CBlockIndex?
      reads this
    {
      if vChain == [] then null else vChain[|vChain| - 1]
    }

    function Height(): int
      reads this
    {
      |vChain| - 1
    }

    predicate Contains(b: CBlockIndex)
      reads this
    {
      b.nHeight < |vChain| && vChain[b.nHeight] == b
    }

    /** After any reorganisation the chain is exactly the new tip's ancestors. */
    method SetTip(pindex: CBlockIndex?)
      requires Valid() && (pindex != null ==> Linked(pindex))
      modifies this
      ensures Valid() && Tip() == pindex
      ensures pindex != null ==> |vChain| == pindex.nHeight + 1 && forall h :: 0 <= h < |vChain| ==> vChain[h] == Ancestor(pindex, h)
    {
      if pindex == null {
        vChain := [];
        return;
      }
      ghost var before := vChain;
      var size := pindex.nHeight + 1;
      vChain := if |vChain| >= size then vChain[..size] else vChain + seq(size - |vChain|, (i: nat) => null);
      ghost var resized := vChain;
      var p: CBlockIndex?, h: int := pindex, pindex.nHeight;
      while p != null && vChain[h] != p
        invariant -1 <= h < |vChain| == size
        invariant p != null <==> h >= 0
        invariant p != null ==> p == Ancestor(pindex, h)
        invariant forall k :: h < k < size ==> vChain[k] == Ancestor(pindex, k)
        invariant forall k :: 0 <= k <= h ==> vChain[k] == resized[k]
        decreases h
      {
        vChain := vChain[h := p];
        if h > 0 {
          PrevIsAncestor(pindex, h);
        }
        p := p.pprev;
        h := h - 1;
      }
      if p != null {
        assert h < |before| && before[h] == p;
        ghost var tip: CBlockIndex := before[|before| - 1];
        forall k | 0 <= k <= h ensures vChain[k] == Ancestor(pindex, k) {
          assert vChain[k] == before[k] == Ancestor(tip, k);
          MeetBelow(tip, pindex, h, k);
        }
      }
    }

    /** The highest block of the chain that is an ancestor of the given one. */
    method FindFork(pindex: CBlockIndex?) returns (r: CBlockIndex?)
      requires Valid() && (pindex != null ==> Linked(pindex) && SkipsOk(pindex))
      ensures pindex == null ==> r == null
      ensures pindex != null && r != null ==> Contains(r) && IsAncestor(r, pindex)
      ensures pindex != null ==> forall x: CBlockIndex :: Contains(x) && IsAncestor(x, pindex) ==> r != null && x.nHeight <= r.nHeight
    {
      if pindex == null {
        return null;
      }
      var p: CBlockIndex?, h: int := pindex, pindex.nHeight;
      if pindex.nHeight > Height() {
        var q, _ := pindex.GetAncestor(Height());
        p := q;
        h := Height();
      }
      while p != null && !Contains(p)
        invariant -1 <= h <= pindex.nHeight
        invariant p != null <==> h >= 0
        invariant p != null ==> p == Ancestor(pindex, h)
        invariant forall k :: h < k <= pindex.nHeight && k < |vChain| ==> vChain[k] != Ancestor(pindex, k)
        decreases h
      {
        if h > 0 {
          PrevIsAncestor(pindex, h);
        }
        p := p.pprev;
        h := h - 1;
      }
      assert forall x: CBlockIndex :: Contains(x) && IsAncestor(x, pindex) ==> x.nHeight <= h;
      return p;
    }

    /** The block at a lower height: by index on the active chain, along skip pointers off it. */
    method StepBack(p: CBlockIndex, height: nat) returns (r: CBlockIndex?)
      requires Valid() && Linked(p) && SkipsOk(p) && height <= p.nHeight
      ensures r == Ancestor(p, height) && SkipsOk(p)
    {
      if Contains(p) {
        ghost var tip: CBlockIndex := vChain[|vChain| - 1];
        AncestorSteps(tip, p.nHeight, height);
        r := vChain[height];
      } else {
        var q, _ := p.GetAncestor(height);
        r := q;
      }
    }

    /** The blocks whose hashes make up the locator: heights fall by ones ten times, then by doubling steps. */
    method GetLocator(pindex: CBlockIndex?) returns (vHave: seq<CBlockIndex>)
      requires Valid()
      requires var start := if pindex == null then Tip() else pindex; start != null ==> Linked(start) && SkipsOk(start)
      ensures var start := if pindex == null then Tip() else pindex;
              if start == null then vHave == [] else IsLocator(start, vHave)
    {
      var nStep := 1;
      vHave := [];
      ghost var start := if pindex == null then Tip() else pindex;
      var p := if pindex == null then Tip() else pindex;
      while p != null
        invariant p == null <==> start == null
        invariant start == null ==> vHave == []
        invariant p != null ==> LocatorAt(start, vHave, p) && Linked(p) && SkipsOk(p)
        invariant nStep == if |vHave| <= 10 then 1 else Pow2(|vHave| - 10)
        decreases if p == null then 0 else p.nHeight + 1
      {
        ghost var have := vHave;
        vHave := vHave + [p];
        if p.nHeight == 0 {
          LocatorEnds(start, have, p);
          break;
        }
        var nHeight: nat := if p.nHeight >= nStep then p.nHeight - nStep else 0;
        LocatorGoesOn(start, have, p, nStep, nHeight);
        SkipsBelow(p, nHeight);
        ghost var q := p;
        p := StepBack(p, nHeight);
        SkipsBelow(q, nHeight);
        if |vHave| > 10 {
          nStep := nStep * 2;
        }
      }
    }
  }

  // ----- Locators

  /** How far below the start the `n`-th entry lies, unless that is below the first block. */
  function Offset(n: nat): nat {
    if n <= 10 then n else 9 + Pow2(n - 10)
  }

  function LocatorHeight(height: nat, n: nat): (r: nat)
    ensures r <= height
  {
    if height >= Offset(n) then height - Offset(n) else 0
  }

  lemma NextLocatorHeight(height: nat, n: nat)
    ensures Offset(n + 1) == Offset(n) + if n < 10 then 1 else Pow2(n - 10)
  {
  }

  ghost predicate LocatorSoFar(start: CBlockIndex, have: seq<CBlockIndex>) {
    Linked(start) && forall i :: 0 <= i < |have| ==> have[i] == Ancestor(start, LocatorHeight(start.nHeight, i))
  }

  ghost predicate IsLocator(start: CBlockIndex, have: seq<CBlockIndex>) {
    && LocatorSoFar(start, have) && have != []
    && have[|have| - 1].nHeight == 0
    && (|have| > 1 ==> have[|have| - 2].nHeight > 0)
  }

  /** Before block `p` is listed. */
  ghost predicate LocatorAt(start: CBlockIndex, have: seq<CBlockIndex>, p: CBlockIndex) {
    && LocatorSoFar(start, have)
    && p == Ancestor(start, LocatorHeight(start.nHeight, |have|))
    && (|have| > 0 ==> LocatorHeight(start.nHeight, |have| - 1) > 0)
  }

  lemma LocatorEnds(start: CBlockIndex, have: seq<CBlockIndex>, p: CBlockIndex)
    requires LocatorAt(start, have, p) && p.nHeight == 0
    ensures IsLocator(start, have + [p])
  {
    hide Offset;
  }

  lemma LocatorGoesOn(start: CBlockIndex, have: seq<CBlockIndex>, p: CBlockIndex, step: nat, h: nat)
    requires LocatorAt(start, have, p) && p.nHeight > 0 && Linked(p)
    requires step == if |have| <= 10 then 1 else Pow2(|have| - 10)
    requires h == if p.nHeight >= step then p.nHeight - step else 0
    ensures LocatorAt(start, have + [p], Ancestor(p, h))
  {
    var n := |have|;
    assert |have + [p]| == n + 1;
    NextLocatorHeight(start.nHeight, n);
    assert n == 10 ==> Pow2(0) == 1;
    hide Offset;
    hide Pow2;
    AncestorSteps(start, p.nHeight, h);
    assert Ancestor(p, h) == Ancestor(start, LocatorHeight(start.nHeight, n + 1));
    hide Ancestor;
    hide Linked;
  }

  /** What a locator promises: heights strictly fall from the start to the first block, every entry is an
      ancestor, and there are at most 12 + floor(log2 height) of them. */
  lemma LocatorSpec(start: CBlockIndex, have: seq<CBlockIndex>, k: nat)
    requires IsLocator(start, have) && start.nHeight < Pow2(k + 1)
    ensures have[0] == start && have[|have| - 1].nHeight == 0
    ensures forall i :: 0 <= i < |have| ==> IsAncestor(have[i], start)
    ensures forall i, j :: 0 <= i < j < |have| ==> have[i].nHeight > have[j].nHeight
    ensures |have| <= 12 + k
  {
    var height, n := start.nHeight, |have|;
    forall i, j | 0 <= i < j < n ensures have[i].nHeight > have[j].nHeight {
      OffsetGrows(i, j);
      OffsetGrows(i, n - 2);
    }
    if n > 12 + k {
      OffsetGrows(11 + k, n - 2);
    }
  }

  lemma {:induction false} OffsetGrows(i: nat, j: nat)
    ensures i <= j ==> Offset(i) <= Offset(j)
    ensures i < j ==> Offset(i) < Offset(j)
    decreases j
  {
    if i < j {
      NextLocatorHeight(0, j - 1);
      OffsetGrows(i, j - 1);
    }
  }
}
