/** The signature cache: a set with eight places per element, lazy erasure and two epochs. */
module Cuckoo {
  import opened Basics
  import opened ByteBits

  type Hash32 = h: nat | h < 0x1_0000_0000

  /** Eight hash functions. */
  type Hasher<!E> = (nat, E) -> Hash32

  const INVALID: nat := 0xffff_ffff

  /** `collected[i]` means that the element in slot `i` may be overwritten. */
  datatype Cache<E> = Cache(
    table: seq<E>,
    collected: seq<bool>,
    epoch: seq<bool>,
    counter: nat,
    epochSize: nat,
    depthLimit: nat
  )

  predicate Wf<E>(c: Cache<E>) {
    |c.table| == |c.collected| == |c.epoch| > 0
  }

  lemma Shape<E>(c: Cache<E>)
    requires Wf(c)
    ensures |c.table| == |c.collected| == |c.epoch| > 0
  {
  }

  // ----- Places

  lemma ScaledBelow(h: Hash32, size: nat)
    requires size > 0
    ensures h * size / 0x1_0000_0000 < size
    ensures h * size / 0x1_0000_0000 * 0x1_0000_0000 <= h * size < (h * size / 0x1_0000_0000 + 1) * 0x1_0000_0000
  {
    assert h * size < 0x1_0000_0000 * size by {
      assert 0x1_0000_0000 * size == h * size + (0x1_0000_0000 - h) * size;
      assert (0x1_0000_0000 - h) * size > 0;
    }
  }

  /** The slots divide the range of the hash evenly. */
  function Slot<E>(hash: Hasher<E>, e: E, size: nat, k: nat): (r: nat)
    requires size > 0
    ensures r < size && r * 0x1_0000_0000 <= hash(k, e) * size < (r + 1) * 0x1_0000_0000
  {
    ScaledBelow(hash(k, e), size);
    hash(k, e) * size / 0x1_0000_0000
  }

  function Slots<E>(hash: Hasher<E>, e: E, size: nat): (r: seq<nat>)
    requires size > 0
    ensures |r| == 8 && forall k :: 0 <= k < 8 ==> r[k] < size
  {
    seq(8, (k: nat) => Slot(hash, e, size, k))
  }

  /** The first place from the `k`-th on that holds `e`, or 8. */
  function FindElement<E(==)>(table: seq<E>, locs: seq<nat>, e: E, k: nat): (r: nat)
    requires k <= |locs| == 8 && forall j :: 0 <= j < 8 ==> locs[j] < |table|
    ensures k <= r <= 8 && (r < 8 ==> table[locs[r]] == e)
    ensures forall j :: k <= j < r ==> table[locs[j]] != e
    decreases 8 - k
  {
    if k == 8 || table[locs[k]] == e then k else FindElement(table, locs, e, k + 1)
  }

  /** The first place from the `k`-th on that may be overwritten, or 8. */
  function FindOpen(collected: seq<bool>, locs: seq<nat>, k: nat): (r: nat)
    requires k <= |locs| == 8 && forall j :: 0 <= j < 8 ==> locs[j] < |collected|
    ensures k <= r <= 8 && (r < 8 ==> collected[locs[r]])
    ensures forall j :: k <= j < r ==> !collected[locs[j]]
    decreases 8 - k
  {
    if k == 8 || collected[locs[k]] then k else FindOpen(collected, locs, k + 1)
  }

  function IndexOf(locs: seq<nat>, x: nat, k: nat): (r: nat)
    requires k <= |locs|
    ensures k <= r <= |locs|
    decreases |locs| - k
  {
    if k == |locs| || locs[k] == x then k else IndexOf(locs, x, k + 1)
  }

  // ----- Epochs

  function Max(a: int, b: int): int {
    if a >= b then a else b
  }

  /** Slots below `n` that were filled in the current epoch and are not erased. */
  function Unused<E>(c: Cache<E>, n: nat): (r: nat)
    requires Wf(c) && n <= |c.table|
    ensures r <= n
  {
    if n == 0 then 0 else Unused(c, n - 1) + if c.epoch[n - 1] && !c.collected[n - 1] then 1 else 0
  }

  function Aged<E>(c: Cache<E>): Cache<E>
    requires Wf(c)
  {
    c.(epoch := seq(|c.epoch|, (i: nat) => false),
       collected := seq(|c.collected|, i requires 0 <= i < |c.collected| => c.collected[i] || !c.epoch[i]),
       counter := c.epochSize)
  }

  function AfterCheck<E>(c: Cache<E>): (d: Cache<E>)
    requires Wf(c)
    ensures Wf(d) && d.table == c.table
  {
    if c.counter != 0 then c.(counter := c.counter - 1) else
      var unused := Unused(c, |c.table|);
      if unused >= c.epochSize then Aged(c)
      else c.(counter := Max(1, Max(c.epochSize / 16, c.epochSize - unused)))
  }

  // ----- Insertion

  /** Put `e` into a slot and protect it. */
  function Store<E>(c: Cache<E>, loc: nat, e: E, recent: bool): (d: Cache<E>)
    requires Wf(c) && loc < |c.table|
    ensures Wf(d) && |d.table| == |c.table|
  {
    c.(table := c.table[loc := e], collected := c.collected[loc := false], epoch := c.epoch[loc := recent])
  }

  /** The slot from which the next element is moved on. */
  function NextLoc(locs: seq<nat>, lastLoc: nat): (r: nat)
    requires |locs| == 8
    ensures r in locs
  {
    locs[(1 + IndexOf(locs, lastLoc, 0)) % 8]
  }

  /** Find a place for `e`, moving others on, for at most `depth` moves; the last one moved may be left over. */
  function Displace<E>(hash: Hasher<E>, c: Cache<E>, e: E, lastLoc: nat, recent: bool, depth: nat): (r: (Cache<E>, Option<E>))
    requires Wf(c)
    ensures Wf(r.0) && |r.0.table| == |c.table|
    decreases depth
  {
    if depth == 0 then (c, Some(e)) else
      var locs := Slots(hash, e, |c.table|);
      var open := FindOpen(c.collected, locs, 0);
      if open < 8 then (Store(c, locs[open], e, recent), None) else
        var loc := NextLoc(locs, lastLoc);
        var moved := c.(table := c.table[loc := e], epoch := c.epoch[loc := recent]);
        Displace(hash, moved, c.table[loc], loc, c.epoch[loc], depth - 1)
  }

  function Inserted<E(==)>(hash: Hasher<E>, c: Cache<E>, e: E): (r: (Cache<E>, Option<E>))
    requires Wf(c)
    ensures Wf(r.0) && |r.0.table| == |c.table|
  {
    var a := AfterCheck(c);
    var locs := Slots(hash, e, |a.table|);
    var k := FindElement(a.table, locs, e, 0);
    if k < 8 then (Store(a, locs[k], e, true), None)
    else Displace(hash, a, e, INVALID, true, a.depthLimit)
  }

  predicate Holds<E(==)>(hash: Hasher<E>, c: Cache<E>, e: E)
    requires Wf(c)
  {
    FindElement(c.table, Slots(hash, e, |c.table|), e, 0) < 8
  }

  /** A lookup that may give the element up. */
  function Lookup<E(==)>(hash: Hasher<E>, c: Cache<E>, e: E, erase: bool): (r: Cache<E>)
    requires Wf(c)
    ensures Wf(r) && |r.table| == |c.table|
  {
    var locs := Slots(hash, e, |c.table|);
    var k := FindElement(c.table, locs, e, 0);
    if k < 8 && erase then c.(collected := c.collected[locs[k] := true]) else c
  }

  // ----- What is alive

  ghost predicate LiveAt<E(!new)>(c: Cache<E>, i: nat, x: E)
    requires Wf(c)
  {
    i < |c.table| && !c.collected[i] && c.table[i] == x
  }

  ghost predicate Live<E(!new)>(c: Cache<E>, x: E)
    requires Wf(c)
  {
    exists i: nat :: LiveAt(c, i, x)
  }

  /** Every live element is in one of its own eight slots. */
  ghost predicate Homed<E(!new)>(hash: Hasher<E>, c: Cache<E>) {
    Wf(c) && forall i :: 0 <= i < |c.table| && !c.collected[i] ==> i in Slots(hash, c.table[i], |c.table|)
  }

  /** The live elements of the first `n` slots with multiplicity. */
  function Bag<E>(c: Cache<E>, n: nat): multiset<E>
    requires Wf(c) && n <= |c.table|
  {
    if n == 0 then multiset{} else Bag(c, n - 1) + if c.collected[n - 1] then multiset{} else multiset{c.table[n - 1]}
  }

  function LiveBag<E>(c: Cache<E>): multiset<E>
    requires Wf(c)
  {
    Bag(c, |c.table|)
  }

  lemma {:induction false} BagHas<E(!new)>(c: Cache<E>, n: nat, x: E)
    requires Wf(c) && n <= |c.table|
    ensures x in Bag(c, n) <==> exists i: nat :: i < n && LiveAt(c, i, x)
  {
    if n > 0 {
      BagHas(c, n - 1, x);
      if x in Bag(c, n - 1) {
        var i: nat :| i < n - 1 && LiveAt(c, i, x);
        assert LiveAt(c, i, x);
      }
      if !c.collected[n - 1] && c.table[n - 1] == x {
        assert LiveAt(c, n - 1, x);
      }
    }
  }

  /** Live elements are found. */
  lemma LiveIsFound<E(!new)>(hash: Hasher<E>, c: Cache<E>, x: E)
    requires Homed(hash, c) && Live(c, x)
    ensures Holds(hash, c, x)
  {
    var i: nat :| LiveAt(c, i, x);
    var locs := Slots(hash, x, |c.table|);
    var k :| 0 <= k < 8 && locs[k] == i;
    assert c.table[locs[k]] == x;
  }

  lemma {:induction false} BagSame<E>(c: Cache<E>, d: Cache<E>, n: nat)
    requires Wf(c) && Wf(d) && n <= |c.table| == |d.table|
    requires forall i :: 0 <= i < n ==> c.table[i] == d.table[i] && c.collected[i] == d.collected[i]
    ensures Bag(c, n) == Bag(d, n)
  {
    if n > 0 {
      BagSame(c, d, n - 1);
    }
  }

  function Single<E>(live: bool, e: E): multiset<E> {
    if live then multiset{e} else multiset{}
  }

  function Left<E>(dropped: Option<E>): multiset<E> {
    if dropped.Some? then multiset{dropped.value} else multiset{}
  }

  lemma LastInBag<E>(c: Cache<E>, n: nat)
    requires Wf(c) && 0 < n <= |c.table|
    ensures Bag(c, n) == Bag(c, n - 1) + Single(!c.collected[n - 1], c.table[n - 1])
  {
  }

  lemma Exchange<E>(a: multiset<E>, last: multiset<E>, gone: multiset<E>, b: multiset<E>, come: multiset<E>)
    requires a + gone == b + come
    ensures (a + last) + gone == (b + last) + come
  {
    assert (a + last) + gone == (a + gone) + last;
    assert (b + last) + come == (b + come) + last;
  }

  /** What filling one slot does to the bag. */
  lemma {:induction false} BagStore<E>(c: Cache<E>, loc: nat, e: E, recent: bool, n: nat)
    requires Wf(c) && loc < n <= |c.table|
    ensures Bag(Store(c, loc, e, recent), n) + Single(!c.collected[loc], c.table[loc]) == Bag(c, n) + multiset{e}
    decreases n
  {
    var d := Store(c, loc, e, recent);
    StoreFills(c, loc, e, recent);
    hide *;
    Shape(c);
    Shape(d);
    LastInBag(c, n);
    LastInBag(d, n);
    var gone := Single(!c.collected[loc], c.table[loc]);
    if loc == n - 1 {
      BagSame(c, d, n - 1);
      AddTwo(Bag(c, n - 1), multiset{e}, gone);
    } else {
      BagStore(c, loc, e, recent, n - 1);
      Exchange(Bag(d, n - 1), Single(!c.collected[n - 1], c.table[n - 1]), gone, Bag(c, n - 1), multiset{e});
    }
  }

  lemma StoreFills<E>(c: Cache<E>, loc: nat, e: E, recent: bool)
    requires Wf(c) && loc < |c.table|
    ensures var d := Store(c, loc, e, recent);
            && d.table[loc] == e && !d.collected[loc] && d.epoch[loc] == recent
            && Single(!d.collected[loc], d.table[loc]) == multiset{e}
            && forall i :: 0 <= i < |c.table| && i != loc ==>
                 d.table[i] == c.table[i] && d.collected[i] == c.collected[i] && d.epoch[i] == c.epoch[i]
  {
  }

  lemma AddTwo<E>(a: multiset<E>, x: multiset<E>, y: multiset<E>)
    ensures (a + x) + y == (a + y) + x
  {
  }

  lemma LiveBagStore<E>(c: Cache<E>, loc: nat, e: E, recent: bool)
    requires Wf(c) && loc < |c.table|
    ensures c.collected[loc] ==> LiveBag(Store(c, loc, e, recent)) + Left<E>(None) == LiveBag(c) + multiset{e}
    ensures !c.collected[loc] ==> LiveBag(Store(c, loc, e, recent)) + multiset{c.table[loc]} == LiveBag(c) + multiset{e}
  {
    BagStore(c, loc, e, recent, |c.table|);
    hide Bag;
  }

  lemma DisplaceEnds<E>(hash: Hasher<E>, c: Cache<E>, e: E, lastLoc: nat, recent: bool)
    requires Wf(c)
    ensures Displace(hash, c, e, lastLoc, recent, 0) == (c, Some(e)) && Left(Some(e)) == multiset{e}
  {
  }

  lemma DisplaceStores<E>(hash: Hasher<E>, c: Cache<E>, e: E, lastLoc: nat, recent: bool, depth: nat)
    requires Wf(c) && depth > 0
    ensures var locs := Slots(hash, e, |c.table|);
            var open := FindOpen(c.collected, locs, 0);
            open < 8 ==> Displace(hash, c, e, lastLoc, recent, depth) == (Store(c, locs[open], e, recent), None)
  {
    hide FindOpen;
    hide Slots;
  }

  /** The first element moved on is the one in the second place. */
  lemma FirstDisplacement<E>(hash: Hasher<E>, e: E, size: nat)
    requires 0 < size <= INVALID
    ensures NextLoc(Slots(hash, e, size), INVALID) == Slots(hash, e, size)[1]
  {
    var locs := Slots(hash, e, size);
    hide Slots;
    NotAmong(locs, INVALID, 0);
  }

  lemma {:induction false} NotAmong(locs: seq<nat>, x: nat, k: nat)
    requires k <= |locs| && forall i :: 0 <= i < |locs| ==> locs[i] < x
    ensures IndexOf(locs, x, k) == |locs|
    decreases |locs| - k
  {
    if k < |locs| {
      NotAmong(locs, x, k + 1);
    }
  }

  /** Later ones go to the place after the first that is the last slot used, so with different places never back to it. */
  lemma NextDisplacement(locs: seq<nat>, j: nat)
    requires j < |locs| == 8 && forall i :: 0 <= i < j ==> locs[i] != locs[j]
    ensures NextLoc(locs, locs[j]) == locs[if j == 7 then 0 else j + 1]
  {
    FirstAmong(locs, j, 0);
    hide IndexOf;
  }

  lemma {:induction false} FirstAmong(locs: seq<nat>, j: nat, k: nat)
    requires k <= j < |locs| && forall i :: 0 <= i < j ==> locs[i] != locs[j]
    ensures IndexOf(locs, locs[j], k) == j
    decreases j - k
  {
    if k < j {
      FirstAmong(locs, j, k + 1);
    }
  }

  lemma DisplaceMoves<E>(hash: Hasher<E>, c: Cache<E>, e: E, lastLoc: nat, recent: bool, depth: nat)
    requires Wf(c) && depth > 0
    ensures var locs := Slots(hash, e, |c.table|);
            var loc := NextLoc(locs, lastLoc);
            FindOpen(c.collected, locs, 0) == 8 ==>
              && !c.collected[loc]
              && Displace(hash, c, e, lastLoc, recent, depth) ==
                   Displace(hash, Store(c, loc, e, recent), c.table[loc], loc, c.epoch[loc], depth - 1)
  {
    var locs := Slots(hash, e, |c.table|);
    var loc := NextLoc(locs, lastLoc);
    if FindOpen(c.collected, locs, 0) == 8 {
      assert c.collected[loc := false] == c.collected;
    }
    hide FindOpen;
    hide Slots;
    hide IndexOf;
  }

  /** Displacement keeps every live element and the new one, except the one it hands back. */
  lemma {:induction false} DisplaceConserves<E>(hash: Hasher<E>, c: Cache<E>, e: E, lastLoc: nat, recent: bool, depth: nat)
    requires Wf(c)
    ensures var (d, dropped) := Displace(hash, c, e, lastLoc, recent, depth);
            LiveBag(d) + Left(dropped) == LiveBag(c) + multiset{e}
    decreases depth
  {
    hide *;
    Shape(c);
    if depth == 0 {
      DisplaceEnds(hash, c, e, lastLoc, recent);
    } else {
      var locs := Slots(hash, e, |c.table|);
      var open := FindOpen(c.collected, locs, 0);
      if open < 8 {
        DisplaceStores(hash, c, e, lastLoc, recent, depth);
        LiveBagStore(c, locs[open], e, recent);
      } else {
        var loc := NextLoc(locs, lastLoc);
        DisplaceMoves(hash, c, e, lastLoc, recent, depth);
        LiveBagStore(c, loc, e, recent);
        DisplaceConserves(hash, Store(c, loc, e, recent), c.table[loc], loc, c.epoch[loc], depth - 1);
      }
    }
  }

  /** Insertion, after ageing: nothing is lost but at most one element, and nothing is invented. */
  lemma InsertConserves<E(!new)>(hash: Hasher<E>, c: Cache<E>, e: E)
    requires Homed(hash, c)
    ensures var a := AfterCheck(c);
            var (d, dropped) := Inserted(hash, c, e);
            || (dropped.None? && LiveBag(d) == LiveBag(a) && Live(a, e))
            || (LiveBag(d) + Left(dropped) == LiveBag(a) + multiset{e})
  {
    var a := AfterCheck(c);
    var locs := Slots(hash, e, |a.table|);
    var k := FindElement(a.table, locs, e, 0);
    hide AfterCheck;
    hide Slots;
    hide Bag;
    hide Displace;
    hide Homed;
    if k < 8 {
      var loc := locs[k];
      BagStore(a, loc, e, true, |a.table|);
      if !a.collected[loc] {
        assert LiveAt(a, loc, e);
        CancelOne(LiveBag(Store(a, loc, e, true)), LiveBag(a), e);
      }
    } else {
      DisplaceConserves(hash, a, e, INVALID, true, a.depthLimit);
    }
  }

  lemma CancelOne<E>(a: multiset<E>, b: multiset<E>, e: E)
    requires a + multiset{e} == b + multiset{e}
    ensures a == b
  {
    assert a == (a + multiset{e}) - multiset{e};
    assert b == (b + multiset{e}) - multiset{e};
  }

  /** The same for sets of live elements. */
  lemma InsertLosesAtMostOne<E(!new)>(hash: Hasher<E>, c: Cache<E>, e: E, x: E)
    requires Homed(hash, c)
    ensures var a := AfterCheck(c);
            var (d, dropped) := Inserted(hash, c, e);
            && (Live(d, x) ==> Live(a, x) || x == e)
            && (Live(a, x) || x == e ==> Live(d, x) || dropped == Some(x))
  {
    var a := AfterCheck(c);
    var (d, dropped) := Inserted(hash, c, e);
    InsertConserves(hash, c, e);
    BagHas(a, |a.table|, x);
    BagHas(d, |d.table|, x);
    LiveInBag(a, x);
    LiveInBag(d, x);
    hide Inserted;
    hide AfterCheck;
    hide Bag;
    hide Live;
    hide Homed;
    var out := Left(dropped);
    if LiveBag(d) == LiveBag(a) && Live(a, e) {
    } else {
      assert LiveBag(d) + out == LiveBag(a) + multiset{e};
      assert x in LiveBag(d) + out <==> x in LiveBag(d) || dropped == Some(x);
      assert x in LiveBag(a) + multiset{e} <==> x in LiveBag(a) || x == e;
    }
  }

  lemma LiveInBag<E(!new)>(c: Cache<E>, x: E)
    requires Wf(c)
    ensures Live(c, x) <==> x in LiveBag(c)
  {
    BagHas(c, |c.table|, x);
    if Live(c, x) {
      var i: nat :| LiveAt(c, i, x);
      assert i < |c.table| && LiveAt(c, i, x);
    }
  }

  // ----- Every live element stays at home

  lemma StoreHomed<E(!new)>(hash: Hasher<E>, c: Cache<E>, loc: nat, e: E, recent: bool)
    requires Homed(hash, c) && loc < |c.table| && loc in Slots(hash, e, |c.table|)
    ensures Homed(hash, Store(c, loc, e, recent))
  {
    hide Slots;
  }

  lemma {:induction false} DisplaceHomed<E(!new)>(hash: Hasher<E>, c: Cache<E>, e: E, lastLoc: nat, recent: bool, depth: nat)
    requires Homed(hash, c)
    ensures Homed(hash, Displace(hash, c, e, lastLoc, recent, depth).0)
    decreases depth
  {
    hide *;
    HomedWf(hash, c);
    Shape(c);
    if depth == 0 {
      DisplaceEnds(hash, c, e, lastLoc, recent);
    } else {
      var locs := Slots(hash, e, |c.table|);
      var open := FindOpen(c.collected, locs, 0);
      if open < 8 {
        DisplaceStores(hash, c, e, lastLoc, recent, depth);
        StoreHomed(hash, c, locs[open], e, recent);
      } else {
        var loc := NextLoc(locs, lastLoc);
        DisplaceMoves(hash, c, e, lastLoc, recent, depth);
        StoreHomed(hash, c, loc, e, recent);
        DisplaceHomed(hash, Store(c, loc, e, recent), c.table[loc], loc, c.epoch[loc], depth - 1);
      }
    }
  }

  lemma HomedWf<E(!new)>(hash: Hasher<E>, c: Cache<E>)
    requires Homed(hash, c)
    ensures Wf(c)
  {
  }

  lemma InsertHomed<E(!new)>(hash: Hasher<E>, c: Cache<E>, e: E)
    requires Homed(hash, c)
    ensures Homed(hash, AfterCheck(c)) && Homed(hash, Inserted(hash, c, e).0)
  {
    var a := AfterCheck(c);
    assert Homed(hash, a);
    var locs := Slots(hash, e, |a.table|);
    var k := FindElement(a.table, locs, e, 0);
    hide Homed;
    if k < 8 {
      StoreHomed(hash, a, locs[k], e, true);
    } else {
      DisplaceHomed(hash, a, e, INVALID, true, a.depthLimit);
    }
  }

  // ----- When nothing is lost

  ghost predicate InOwnSlot<E(!new)>(hash: Hasher<E>, c: Cache<E>, e: E)
    requires Wf(c)
  {
    exists k: nat :: k < 8 && c.table[Slot(hash, e, |c.table|, k)] == e
  }

  /** One of the eight slots of `e` may be overwritten. */
  ghost predicate HasOpen<E(!new)>(hash: Hasher<E>, c: Cache<E>, e: E)
    requires Wf(c)
  {
    exists k: nat :: k < 8 && c.collected[Slot(hash, e, |c.table|, k)]
  }

  lemma FoundIfThere<E(!new)>(hash: Hasher<E>, c: Cache<E>, e: E)
    requires Wf(c)
    ensures Holds(hash, c, e) <==> InOwnSlot(hash, c, e)
    ensures FindOpen(c.collected, Slots(hash, e, |c.table|), 0) < 8 <==> HasOpen(hash, c, e)
  {
    var locs := Slots(hash, e, |c.table|);
    assert forall k :: 0 <= k < 8 ==> locs[k] == Slot(hash, e, |c.table|, k);
    hide Slots;
    hide Slot;
    var k := FindElement(c.table, locs, e, 0);
    if k < 8 {
      assert c.table[Slot(hash, e, |c.table|, k)] == e;
    }
    var open := FindOpen(c.collected, locs, 0);
    if open < 8 {
      assert c.collected[Slot(hash, e, |c.table|, open)];
    }
    hide FindElement;
    hide FindOpen;
  }

  lemma StoreIntoOpen<E(!new)>(c: Cache<E>, loc: nat, e: E, x: E)
    requires Wf(c) && loc < |c.table| && (c.collected[loc] || c.table[loc] == e)
    ensures var d := Store(c, loc, e, true); d.table[loc] == e && Live(d, e) && (Live(c, x) ==> Live(d, x))
  {
    var d := Store(c, loc, e, true);
    StoreFills(c, loc, e, true);
    assert LiveAt(d, loc, e);
    if Live(c, x) {
      var i: nat :| LiveAt(c, i, x);
      assert LiveAt(d, i, x);
    }
  }

  /** An element that is already in one of its slots, or has an open one, goes in at nobody's expense. */
  lemma InsertFindsRoom<E(!new)>(hash: Hasher<E>, c: Cache<E>, e: E, x: E)
    requires Wf(c)
    requires var a := AfterCheck(c); InOwnSlot(hash, a, e) || (HasOpen(hash, a, e) && a.depthLimit > 0)
    ensures var a := AfterCheck(c);
            var (d, dropped) := Inserted(hash, c, e);
            dropped.None? && Live(d, e) && Holds(hash, d, e) && (Live(a, x) ==> Live(d, x))
  {
    var a := AfterCheck(c);
    hide AfterCheck;
    var locs := Slots(hash, e, |a.table|);
    hide Slots;
    hide Store;
    FoundIfThere(hash, a, e);
    hide InOwnSlot;
    hide HasOpen;
    var k := FindElement(a.table, locs, e, 0);
    var loc := if k < 8 then locs[k] else locs[FindOpen(a.collected, locs, 0)];
    hide FindElement;
    hide FindOpen;
    StoreIntoOpen(a, loc, e, x);
    StoredIsFound(hash, Store(a, loc, e, true), if k < 8 then k else FindOpen(a.collected, locs, 0), e);
    hide Live;
    hide Holds;
    if k == 8 {
      DisplaceStores(hash, a, e, INVALID, true, a.depthLimit);
    }
    hide Displace;
  }

  lemma StoredIsFound<E(!new)>(hash: Hasher<E>, c: Cache<E>, k: nat, e: E)
    requires Wf(c) && k < 8 && c.table[Slots(hash, e, |c.table|)[k]] == e
    ensures Holds(hash, c, e)
  {
  }

  /** The table with `e` in hand, which is recent or not, taken out of the slot `last`. */
  datatype Carry<E> = Carry(c: Cache<E>, e: E, recent: bool, last: nat)

  /** All slots of the element in hand are protected; it is exchanged for the one that follows the last slot. */
  ghost predicate Exchanged<E(!new)>(hash: Hasher<E>, s: Carry<E>, t: Carry<E>) {
    && Wf(s.c) && !HasOpen(hash, s.c, s.e) && t.last == NextLoc(Slots(hash, s.e, |s.c.table|), s.last)
    && t.e == s.c.table[t.last] && t.recent == s.c.epoch[t.last]
    && t.c == s.c.(table := s.c.table[t.last := s.e], epoch := s.c.epoch[t.last := s.recent])
  }

  ghost predicate Exchanges<E(!new)>(hash: Hasher<E>, states: seq<Carry<E>>) {
    states != [] && forall k, l :: 0 <= k < l < |states| && l == k + 1 ==> Exchanged(hash, states[k], states[l])
  }

  lemma MoreExchanges<E(!new)>(hash: Hasher<E>, s: Carry<E>, states: seq<Carry<E>>)
    requires Exchanges(hash, states) && Exchanged(hash, s, states[0])
    ensures Exchanges(hash, [s] + states)
  {
    hide Exchanged;
    var all := [s] + states;
    forall k, l | 0 <= k < l < |all| && l == k + 1 ensures Exchanged(hash, all[k], all[l]) {
      if k > 0 {
        assert all[k] == states[k - 1] && all[l] == states[l - 1];
      }
    }
  }

  lemma LessExchanges<E(!new)>(hash: Hasher<E>, states: seq<Carry<E>>)
    requires Exchanges(hash, states) && |states| > 1
    ensures Exchanges(hash, states[1..]) && Exchanged(hash, states[0], states[1])
  {
    hide Exchanged;
    var rest := states[1..];
    forall k, l | 0 <= k < l < |rest| && l == k + 1 ensures Exchanged(hash, rest[k], rest[l]) {
      assert rest[k] == states[k + 1] && rest[l] == states[l + 1];
    }
  }

  lemma DisplaceExchanges<E(!new)>(hash: Hasher<E>, s: Carry<E>, t: Carry<E>, depth: nat)
    requires Exchanged(hash, s, t) && depth > 0
    ensures Wf(t.c)
      && Displace(hash, s.c, s.e, s.last, s.recent, depth) == Displace(hash, t.c, t.e, t.last, t.recent, depth - 1)
  {
    FoundIfThere(hash, s.c, s.e);
    hide HasOpen;
    hide Slots;
    hide FindOpen;
    hide IndexOf;
  }

  lemma ExchangeOnce<E(!new)>(hash: Hasher<E>, s: Carry<E>) returns (t: Carry<E>)
    requires Wf(s.c) && !HasOpen(hash, s.c, s.e)
    ensures Exchanged(hash, s, t) && Wf(t.c)
  {
    hide HasOpen;
    hide Slots;
    var loc := NextLoc(Slots(hash, s.e, |s.c.table|), s.last);
    t := Carry(s.c.(table := s.c.table[loc := s.e], epoch := s.c.epoch[loc := s.recent]), s.c.table[loc], s.c.epoch[loc],
               loc);
    hide NextLoc;
  }

  lemma NoExchange<E(!new)>(hash: Hasher<E>, s: Carry<E>)
    ensures Exchanges(hash, [s])
  {
    hide Exchanged;
  }

  /** Displacement goes through exchanges, until a slot is open or the limit is reached. */
  lemma {:induction false} DisplaceRuns<E(!new)>(hash: Hasher<E>, s: Carry<E>, depth: nat) returns (states: seq<Carry<E>>)
    requires Wf(s.c)
    ensures states != [] && Exchanges(hash, states) && states[0] == s && |states| <= depth + 1
    ensures var (d, dropped) := Displace(hash, s.c, s.e, s.last, s.recent, depth);
            var end := states[|states| - 1];
            && (dropped.Some? ==> |states| == depth + 1 && d == end.c && dropped == Some(end.e))
            && (dropped.None? ==> |states| <= depth && Wf(end.c) && HasOpen(hash, end.c, end.e))
    decreases depth
  {
    hide *;
    states := [s];
    NoExchange(hash, s);
    FoundIfThere(hash, s.c, s.e);
    if depth == 0 {
      DisplaceEnds(hash, s.c, s.e, s.last, s.recent);
    } else if HasOpen(hash, s.c, s.e) {
      DisplaceStores(hash, s.c, s.e, s.last, s.recent, depth);
    } else {
      var t := ExchangeOnce(hash, s);
      var rest := DisplaceRuns(hash, t, depth - 1);
      DisplaceExchanges(hash, s, t, depth);
      MoreExchanges(hash, s, rest);
      states := [s] + rest;
      assert states[|states| - 1] == rest[|rest| - 1];
    }
  }

  lemma {:induction false} ExchangesLose<E(!new)>(hash: Hasher<E>, states: seq<Carry<E>>)
    requires Exchanges(hash, states) && Wf(states[0].c)
    ensures var s, end := states[0], states[|states| - 1];
            Displace(hash, s.c, s.e, s.last, s.recent, |states| - 1) == (end.c, Some(end.e))
    decreases |states|
  {
    hide Exchanged;
    if |states| == 1 {
      DisplaceEnds(hash, states[0].c, states[0].e, states[0].last, states[0].recent);
    } else {
      var rest := states[1..];
      LessExchanges(hash, states);
      DisplaceExchanges(hash, states[0], states[1], |states| - 1);
      ExchangesLose(hash, rest);
      assert rest[|rest| - 1] == states[|states| - 1];
    }
    hide Displace;
  }

  /** Something is handed back if and only if the new element is in none of its slots and as many exchanges as the limit
      allows met protected slots only. */
  lemma GivesUpExactly<E(!new)>(hash: Hasher<E>, c: Cache<E>, e: E)
    requires Wf(c)
    ensures var a := AfterCheck(c);
            Inserted(hash, c, e).1.Some? <==>
              && !InOwnSlot(hash, a, e)
              && exists states ::
                   Exchanges(hash, states) && |states| == a.depthLimit + 1 && states[0] == Carry(a, e, true, INVALID)
  {
    var a := AfterCheck(c);
    var s := Carry(a, e, true, INVALID);
    hide AfterCheck;
    FoundIfThere(hash, a, e);
    assert FindElement(a.table, Slots(hash, e, |a.table|), e, 0) == 8 ==>
        Inserted(hash, c, e) == Displace(hash, a, e, INVALID, true, a.depthLimit);
    var gaveUp := Inserted(hash, c, e).1.Some?;
    hide Inserted;
    hide Displace;
    hide InOwnSlot;
    hide HasOpen;
    hide FindElement;
    hide FindOpen;
    hide Slots;
    hide Exchanges;
    if !InOwnSlot(hash, a, e) {
      if gaveUp {
        var states := DisplaceRuns(hash, s, a.depthLimit);
      }
      forall states | Exchanges(hash, states) && |states| == a.depthLimit + 1 && states[0] == s ensures gaveUp {
        ExchangesLose(hash, states);
      }
    }
  }

  // ----- Ageing keeps room

  /** The protected elements of the older epoch among the first `n` slots. */
  function Older<E>(c: Cache<E>, n: nat): (r: nat)
    requires Wf(c) && n <= |c.table|
    ensures r <= n
  {
    if n == 0 then 0 else Older(c, n - 1) + if !c.epoch[n - 1] && !c.collected[n - 1] then 1 else 0
  }

  /** An epoch never holds more than this. */
  function EpochRoom(epochSize: nat): nat {
    epochSize + Max(1, epochSize / 16)
  }

  /** Neither epoch can outgrow its room before the next check. */
  ghost predicate Roomy<E(!new)>(c: Cache<E>, epochSize: nat) {
    && Wf(c) && c.epochSize == epochSize >= 1
    && Unused(c, |c.table|) + c.counter <= EpochRoom(c.epochSize) && Older(c, |c.table|) <= EpochRoom(c.epochSize)
  }

  function Mark(b: bool): nat {
    if b then 1 else 0
  }

  lemma {:induction false} CountsSame<E>(c: Cache<E>, d: Cache<E>, n: nat)
    requires Wf(c) && Wf(d) && n <= |c.table| == |d.table|
    requires forall i :: 0 <= i < n ==> c.epoch[i] == d.epoch[i] && c.collected[i] == d.collected[i]
    ensures Unused(c, n) == Unused(d, n) && Older(c, n) == Older(d, n)
  {
    if n > 0 {
      CountsSame(c, d, n - 1);
    }
  }

  lemma {:induction false} CountsStore<E>(c: Cache<E>, loc: nat, e: E, recent: bool, n: nat)
    requires Wf(c) && loc < n <= |c.table|
    ensures var d := Store(c, loc, e, recent);
            && Unused(d, n) + Mark(c.epoch[loc] && !c.collected[loc]) == Unused(c, n) + Mark(recent)
            && Older(d, n) + Mark(!c.epoch[loc] && !c.collected[loc]) == Older(c, n) + Mark(!recent)
    decreases n
  {
    var d := Store(c, loc, e, recent);
    StoreFills(c, loc, e, recent);
    hide Store;
    if loc == n - 1 {
      CountsSame(c, d, n - 1);
    } else {
      CountsStore(c, loc, e, recent, n - 1);
    }
  }

  /** Displacement adds one to the epoch of the element it starts with, at most. */
  lemma {:induction false} DisplaceCounts<E>(hash: Hasher<E>, c: Cache<E>, e: E, lastLoc: nat, recent: bool, depth: nat)
    requires Wf(c)
    ensures var d := Displace(hash, c, e, lastLoc, recent, depth).0;
            && Unused(d, |d.table|) <= Unused(c, |c.table|) + Mark(recent)
            && Older(d, |d.table|) <= Older(c, |c.table|) + Mark(!recent)
    decreases depth
  {
    hide *;
    Shape(c);
    if depth == 0 {
      DisplaceEnds(hash, c, e, lastLoc, recent);
    } else {
      var locs := Slots(hash, e, |c.table|);
      var open := FindOpen(c.collected, locs, 0);
      if open < 8 {
        DisplaceStores(hash, c, e, lastLoc, recent, depth);
        CountsStore(c, locs[open], e, recent, |c.table|);
      } else {
        var loc := NextLoc(locs, lastLoc);
        DisplaceMoves(hash, c, e, lastLoc, recent, depth);
        CountsStore(c, loc, e, recent, |c.table|);
        Marks(c.epoch[loc], c.collected[loc]);
        DisplaceCounts(hash, Store(c, loc, e, recent), c.table[loc], loc, c.epoch[loc], depth - 1);
      }
    }
  }

  lemma Marks(recent: bool, collected: bool)
    ensures !collected ==> Mark(recent && !collected) == Mark(recent) && Mark(!recent && !collected) == Mark(!recent)
  {
  }

  lemma {:induction false} AgedCounts<E>(c: Cache<E>, n: nat)
    requires Wf(c) && n <= |c.table|
    ensures Unused(Aged(c), n) == 0 && Older(Aged(c), n) == Unused(c, n)
  {
    if n > 0 {
      AgedCounts(c, n - 1);
    }
  }

  lemma CheckRoomy<E(!new)>(c: Cache<E>, epochSize: nat)
    requires Roomy(c, epochSize)
    ensures var a := AfterCheck(c);
            Roomy(a, epochSize) && Unused(a, |a.table|) + a.counter + 1 <= EpochRoom(a.epochSize)
  {
    var a := AfterCheck(c);
    AgedCounts(c, |c.table|);
    if a.epoch == c.epoch && a.collected == c.collected {
      CountsSame(c, a, |c.table|);
    }
    hide Unused;
    hide Older;
  }

  lemma InsertRoomy<E(!new)>(hash: Hasher<E>, c: Cache<E>, e: E, epochSize: nat)
    requires Roomy(c, epochSize)
    ensures Roomy(Inserted(hash, c, e).0, epochSize)
  {
    var a := AfterCheck(c);
    CheckRoomy(c, epochSize);
    hide AfterCheck;
    var locs := Slots(hash, e, |a.table|);
    hide Slots;
    var k := FindElement(a.table, locs, e, 0);
    hide FindElement;
    if k < 8 {
      CountsStore(a, locs[k], e, true, |a.table|);
      StoreSame(a, locs[k], e, true);
    } else {
      DisplaceCounts(hash, a, e, INVALID, true, a.depthLimit);
      DisplaceSame(hash, a, e, INVALID, true, a.depthLimit);
    }
    hide Unused;
    hide Older;
    hide Store;
    hide Displace;
    hide EpochRoom;
  }

  lemma {:induction false} DisplaceSame<E>(hash: Hasher<E>, c: Cache<E>, e: E, lastLoc: nat, recent: bool, depth: nat)
    requires Wf(c)
    ensures var d := Displace(hash, c, e, lastLoc, recent, depth).0; d.epochSize == c.epochSize && d.counter == c.counter
    decreases depth
  {
    hide *;
    Shape(c);
    if depth == 0 {
      DisplaceEnds(hash, c, e, lastLoc, recent);
    } else {
      var locs := Slots(hash, e, |c.table|);
      var open := FindOpen(c.collected, locs, 0);
      if open < 8 {
        DisplaceStores(hash, c, e, lastLoc, recent, depth);
        StoreSame(c, locs[open], e, recent);
      } else {
        var loc := NextLoc(locs, lastLoc);
        DisplaceMoves(hash, c, e, lastLoc, recent, depth);
        StoreSame(c, loc, e, recent);
        DisplaceSame(hash, Store(c, loc, e, recent), c.table[loc], loc, c.epoch[loc], depth - 1);
      }
    }
  }

  lemma {:induction false} CountsGivenUp<E>(c: Cache<E>, loc: nat, n: nat)
    requires Wf(c) && loc < |c.table| && n <= |c.table|
    ensures var d := c.(collected := c.collected[loc := true]);
            Unused(d, n) <= Unused(c, n) && Older(d, n) <= Older(c, n)
  {
    if n > 0 {
      CountsGivenUp(c, loc, n - 1);
    }
  }

  lemma LookupRoomy<E(!new)>(hash: Hasher<E>, c: Cache<E>, e: E, erase: bool, epochSize: nat)
    requires Roomy(c, epochSize)
    ensures Roomy(Lookup(hash, c, e, erase), epochSize)
  {
    var locs := Slots(hash, e, |c.table|);
    hide Slots;
    var k := FindElement(c.table, locs, e, 0);
    hide FindElement;
    if k < 8 {
      CountsGivenUp(c, locs[k], |c.table|);
    }
    hide Unused;
    hide Older;
  }

  // ----- Ageing spares recent elements

  /** `x` is live in slot `i`, and ageing cannot mark it during the next `n` insertions. */
  ghost predicate SafeAt<E(!new)>(c: Cache<E>, i: nat, x: E, n: nat)
    requires Wf(c)
  {
    LiveAt(c, i, x) && (c.epoch[i] || c.counter >= n)
  }

  ghost predicate Safe<E(!new)>(c: Cache<E>, x: E, n: nat)
    requires Wf(c)
  {
    exists i: nat :: SafeAt(c, i, x, n)
  }

  lemma EpochCheckSafe<E(!new)>(c: Cache<E>, x: E, n: nat)
    requires Wf(c) && Safe(c, x, n + 1) && n <= c.epochSize
    ensures Safe(AfterCheck(c), x, n)
  {
    var i: nat :| SafeAt(c, i, x, n + 1);
    assert SafeAt(AfterCheck(c), i, x, n);
  }

  lemma StoreSafe<E(!new)>(c: Cache<E>, loc: nat, e: E, recent: bool, x: E, n: nat)
    requires Wf(c) && loc < |c.table|
    ensures e == x && (recent || c.counter >= n) ==> Safe(Store(c, loc, e, recent), x, n)
    ensures Safe(c, x, n) ==>
              || Safe(Store(c, loc, e, recent), x, n)
              || (c.table[loc] == x && !c.collected[loc] && (c.epoch[loc] || c.counter >= n))
  {
    var d := Store(c, loc, e, recent);
    if e == x && (recent || c.counter >= n) {
      assert SafeAt(d, loc, x, n);
    }
    if Safe(c, x, n) {
      var i: nat :| SafeAt(c, i, x, n);
      if i != loc {
        assert SafeAt(d, i, x, n);
      }
    }
  }

  lemma {:induction false} DisplaceSafe<E(!new)>(hash: Hasher<E>, c: Cache<E>, e: E, lastLoc: nat, recent: bool, depth: nat, x: E, n: nat)
    requires Wf(c)
    requires Safe(c, x, n) || (e == x && (recent || c.counter >= n))
    ensures var (d, dropped) := Displace(hash, c, e, lastLoc, recent, depth);
            && d.epochSize == c.epochSize
            && (Safe(d, x, n) || dropped == Some(x))
    decreases depth
  {
    hide *;
    Shape(c);
    if depth == 0 {
      DisplaceEnds(hash, c, e, lastLoc, recent);
    } else {
      var locs := Slots(hash, e, |c.table|);
      var open := FindOpen(c.collected, locs, 0);
      if open < 8 {
        DisplaceStores(hash, c, e, lastLoc, recent, depth);
        StoreSafe(c, locs[open], e, recent, x, n);
        StoreSame(c, locs[open], e, recent);
      } else {
        var loc := NextLoc(locs, lastLoc);
        DisplaceMoves(hash, c, e, lastLoc, recent, depth);
        StoreSafe(c, loc, e, recent, x, n);
        StoreSame(c, loc, e, recent);
        DisplaceSafe(hash, Store(c, loc, e, recent), c.table[loc], loc, c.epoch[loc], depth - 1, x, n);
      }
    }
  }

  lemma StoreSame<E>(c: Cache<E>, loc: nat, e: E, recent: bool)
    requires Wf(c) && loc < |c.table|
    ensures Store(c, loc, e, recent).epochSize == c.epochSize && Store(c, loc, e, recent).counter == c.counter
  {
  }

  /** One insertion: safe for one insertion less, or pushed out. The inserted element is safe for any number
      up to an epoch and one more, or pushed out. */
  lemma InsertSafe<E(!new)>(hash: Hasher<E>, c: Cache<E>, e: E, x: E, n: nat)
    requires Wf(c) && n <= c.epochSize + 1
    requires (Safe(c, x, n + 1) && n <= c.epochSize) || e == x
    ensures var (d, dropped) := Inserted(hash, c, e);
            && d.epochSize == c.epochSize
            && (Safe(d, x, n) || dropped == Some(x))
  {
    var a := AfterCheck(c);
    if e != x {
      EpochCheckSafe(c, x, n);
    }
    var locs := Slots(hash, e, |a.table|);
    var k := FindElement(a.table, locs, e, 0);
    hide Slots;
    hide AfterCheck;
    hide Safe;
    hide Displace;
    assert a.epochSize == c.epochSize by {
      EpochCheckSame(c);
    }
    if k < 8 {
      StoreSafe(a, locs[k], e, true, x, n);
      StoreSame(a, locs[k], e, true);
    } else {
      DisplaceSafe(hash, a, e, INVALID, true, a.depthLimit, x, n);
    }
  }

  lemma EpochCheckSame<E>(c: Cache<E>)
    requires Wf(c)
    ensures AfterCheck(c).epochSize == c.epochSize
  {
  }

  // ----- Runs

  datatype Op<E> = Inserting(e: E) | LookingUp(e: E, erase: bool)

  function Do<E(==)>(hash: Hasher<E>, c: Cache<E>, op: Op<E>): (r: Cache<E>)
    requires Wf(c)
    ensures Wf(r)
  {
    match op
    case Inserting(e) => Inserted(hash, c, e).0
    case LookingUp(e, erase) => Lookup(hash, c, e, erase)
  }

  function Run<E(==)>(hash: Hasher<E>, c: Cache<E>, ops: seq<Op<E>>): (r: Cache<E>)
    requires Wf(c)
    ensures Wf(r)
    decreases |ops|
  {
    if ops == [] then c else Run(hash, Do(hash, c, ops[0]), ops[1..])
  }

  /** Whether the step pushes `x` out for lack of room, or is a caller giving `x` up. */
  predicate Loses<E(==)>(hash: Hasher<E>, c: Cache<E>, op: Op<E>, x: E)
    requires Wf(c)
  {
    match op
    case Inserting(e) => Inserted(hash, c, e).1 == Some(x)
    case LookingUp(e, erase) => erase && e == x
  }

  predicate EverLoses<E(==)>(hash: Hasher<E>, c: Cache<E>, ops: seq<Op<E>>, x: E)
    requires Wf(c)
    decreases |ops|
  {
    ops != [] && (Loses(hash, c, ops[0], x) || EverLoses(hash, Do(hash, c, ops[0]), ops[1..], x))
  }

  function Insertions<E>(ops: seq<Op<E>>): nat {
    if ops == [] then 0 else (if ops[0].Inserting? then 1 else 0) + Insertions(ops[1..])
  }

  lemma LookupKeeps<E(!new)>(hash: Hasher<E>, c: Cache<E>, e: E, erase: bool)
    requires Homed(hash, c)
    ensures Homed(hash, Lookup(hash, c, e, erase)) && Lookup(hash, c, e, erase).epochSize == c.epochSize
    ensures forall x, n: nat :: Safe(c, x, n) && !(erase && e == x) ==> Safe(Lookup(hash, c, e, erase), x, n)
  {
    var d := Lookup(hash, c, e, erase);
    hide Slots;
    forall x, n: nat | Safe(c, x, n) && !(erase && e == x) ensures Safe(d, x, n) {
      var i: nat :| SafeAt(c, i, x, n);
      assert SafeAt(d, i, x, n);
    }
  }

  /** The empty cache. */
  function Start<E>(blank: E, size: nat, epochSize: nat, depthLimit: nat): Cache<E> {
    Cache(seq(size, (i: nat) => blank), seq(size, (i: nat) => true), seq(size, (i: nat) => false), epochSize, epochSize, depthLimit)
  }

  /** In every run from the empty cache every live element is where a lookup finds it. */
  lemma {:induction false} RunHomed<E(!new)>(hash: Hasher<E>, c: Cache<E>, ops: seq<Op<E>>)
    requires Homed(hash, c)
    ensures Homed(hash, Run(hash, c, ops))
    decreases |ops|
  {
    if ops != [] {
      match ops[0] {
        case Inserting(e) => InsertHomed(hash, c, e);
        case LookingUp(e, erase) => LookupKeeps(hash, c, e, erase);
      }
      hide Homed;
      hide Inserted;
      hide Lookup;
      RunHomed(hash, Do(hash, c, ops[0]), ops[1..]);
    }
  }

  lemma {:induction false} RunRoomy<E(!new)>(hash: Hasher<E>, c: Cache<E>, ops: seq<Op<E>>, epochSize: nat)
    requires Roomy(c, epochSize)
    ensures Roomy(Run(hash, c, ops), epochSize)
    decreases |ops|
  {
    if ops != [] {
      match ops[0] {
        case Inserting(e) => InsertRoomy(hash, c, e, epochSize);
        case LookingUp(e, erase) => LookupRoomy(hash, c, e, erase, epochSize);
      }
      hide Roomy;
      hide Inserted;
      hide Lookup;
      RunRoomy(hash, Do(hash, c, ops[0]), ops[1..], epochSize);
    }
  }

  /** In every run from the empty cache, neither epoch holds more than the epoch size and a sixteenth, and at least one. */
  lemma RunsKeepRoom<E(!new)>(hash: Hasher<E>, blank: E, size: nat, epochSize: nat, depthLimit: nat, ops: seq<Op<E>>)
    requires size > 0 && epochSize >= 1
    ensures var c := Run(hash, Start(blank, size, epochSize, depthLimit), ops);
            Unused(c, |c.table|) <= EpochRoom(epochSize) && Older(c, |c.table|) <= EpochRoom(epochSize)
  {
    var c := Start(blank, size, epochSize, depthLimit);
    NothingThere(c, size);
    RunRoomy(hash, c, ops, epochSize);
    hide Start;
    hide Unused;
    hide Older;
    hide EpochRoom;
  }

  lemma {:induction false} NothingThere<E>(c: Cache<E>, n: nat)
    requires Wf(c) && n <= |c.table| && forall i :: 0 <= i < n ==> c.collected[i]
    ensures Unused(c, n) == 0 && Older(c, n) == 0
  {
    if n > 0 {
      NothingThere(c, n - 1);
    }
  }

  /** A lookup that gives an element up frees its only slot; nothing else changes, and it is still found until overwritten. */
  lemma LookupGivesUp<E(!new)>(hash: Hasher<E>, c: Cache<E>, e: E, erase: bool, x: E)
    requires Wf(c) && forall i, j :: 0 <= i < |c.table| && 0 <= j < |c.table| && c.table[i] == e == c.table[j] ==> i == j
    ensures var d := Lookup(hash, c, e, erase);
            && (Live(d, x) <==> Live(c, x) && !(erase && x == e && Holds(hash, c, e)))
            && (Holds(hash, d, x) <==> Holds(hash, c, x))
  {
    var d := Lookup(hash, c, e, erase);
    hide Slots;
    assert d.table == c.table;
    if Live(c, x) && !(erase && x == e && Holds(hash, c, e)) {
      var i: nat :| LiveAt(c, i, x);
      assert LiveAt(d, i, x);
    }
    if Live(d, x) {
      var i: nat :| LiveAt(d, i, x);
      assert LiveAt(c, i, x);
    }
  }

  lemma RunsFindLive<E(!new)>(hash: Hasher<E>, blank: E, size: nat, epochSize: nat, depthLimit: nat, ops: seq<Op<E>>, x: E)
    requires size > 0
    ensures var c := Run(hash, Start(blank, size, epochSize, depthLimit), ops); Live(c, x) ==> Holds(hash, c, x)
  {
    var c := Start(blank, size, epochSize, depthLimit);
    RunHomed(hash, c, ops);
    hide Homed;
    hide Holds;
    hide Live;
    hide Start;
    if Live(Run(hash, c, ops), x) {
      LiveIsFound(hash, Run(hash, c, ops), x);
    }
  }

  lemma {:induction false} RunSafe<E(!new)>(hash: Hasher<E>, c: Cache<E>, ops: seq<Op<E>>, x: E, n: nat)
    requires Homed(hash, c) && Insertions(ops) <= n <= c.epochSize + 1
    requires Safe(c, x, n) && !EverLoses(hash, c, ops, x)
    ensures Live(Run(hash, c, ops), x)
    decreases |ops|
  {
    hide *;
    HomedWf(hash, c);
    RunCases(hash, c, ops, x);
    if ops == [] {
      SafeIsLive(c, x, n);
    } else {
      match ops[0] {
        case Inserting(e) =>
          InsertSafe(hash, c, e, x, n - 1);
          InsertHomed(hash, c, e);
          RunSafe(hash, Inserted(hash, c, e).0, ops[1..], x, n - 1);
        case LookingUp(e, erase) =>
          LookupKeeps(hash, c, e, erase);
          RunSafe(hash, Lookup(hash, c, e, erase), ops[1..], x, n);
      }
    }
  }

  lemma SafeIsLive<E(!new)>(c: Cache<E>, x: E, n: nat)
    requires Wf(c) && Safe(c, x, n)
    ensures Live(c, x)
  {
    var i: nat :| SafeAt(c, i, x, n);
    assert LiveAt(c, i, x);
  }

  lemma RunCases<E(!new)>(hash: Hasher<E>, c: Cache<E>, ops: seq<Op<E>>, x: E)
    requires Wf(c)
    ensures ops == [] ==> Run(hash, c, ops) == c
    ensures ops != [] ==>
              var d := match ops[0] case Inserting(e) => Inserted(hash, c, e).0 case LookingUp(e, erase) => Lookup(hash, c,
                                                   e, erase);
              && Run(hash, c, ops) == Run(hash, d, ops[1..])
              && (!EverLoses(hash, c, ops, x) ==> !EverLoses(hash, d, ops[1..], x))
    ensures ops != [] && ops[0].Inserting? ==>
              && Insertions(ops) == 1 + Insertions(ops[1..])
              && (!EverLoses(hash, c, ops, x) ==> Inserted(hash, c, ops[0].e).1 != Some(x))
    ensures ops != [] && ops[0].LookingUp? ==>
              && Insertions(ops) == Insertions(ops[1..])
              && (!EverLoses(hash, c, ops, x) ==> !(ops[0].erase && ops[0].e == x))
  {
    hide Inserted;
    hide Lookup;
  }

  /** An inserted element that found room is found again after any run with at most one epoch of further
      insertions (and one), unless some insertion pushed it out or a caller gave it up: ageing never does. */
  lemma AgeingSparesRecent<E(!new)>(hash: Hasher<E>, c: Cache<E>, x: E, ops: seq<Op<E>>)
    requires Homed(hash, c) && Insertions(ops) <= c.epochSize + 1
    requires var (d, dropped) := Inserted(hash, c, x); dropped != Some(x) && !EverLoses(hash, d, ops, x)
    ensures var e := Run(hash, Inserted(hash, c, x).0, ops); Live(e, x) && Holds(hash, e, x)
  {
    hide Slots;
    hide Safe;
    hide Holds;
    hide Live;
    InsertSafe(hash, c, x, x, c.epochSize + 1);
    InsertHomed(hash, c, x);
    hide Inserted;
    hide Homed;
    var d := Inserted(hash, c, x).0;
    RunSafe(hash, d, ops, x, c.epochSize + 1);
    RunHomed(hash, d, ops);
    LiveIsFound(hash, Run(hash, d, ops), x);
  }

  // ----- The object

  function Flags(mem: seq<bv8>, n: nat): (r: seq<bool>)
    requires n <= 8 * |mem|
    ensures |r| == n && forall i :: 0 <= i < n ==> r[i] == FlagAt(mem, i)
  {
    seq(n, i requires 0 <= i < n => FlagAt(mem, i))
  }

  lemma FlagsSet(mem: seq<bv8>, n: nat, p: nat)
    requires p < n <= 8 * |mem|
    ensures Flags(SetFlag(mem, p, true), n) == Flags(mem, n)[p := true]
    ensures Flags(ClearFlag(mem, p), n) == Flags(mem, n)[p := false]
  {
    forall q | 0 <= q < n
      ensures FlagAt(SetFlag(mem, p, true), q) == (q == p || FlagAt(mem, q))
      ensures FlagAt(ClearFlag(mem, p), q) == (q != p && FlagAt(mem, q))
    {
      SetFlagSpec(mem, p, true, q);
      ClearFlagSpec(mem, p, q);
    }
    hide FlagAt;
    hide SetFlag;
    hide ClearFlag;
  }

  /** The number of elements of an epoch, computed in 32 bits. */
  function EpochSizeFor(size: nat): (r: nat)
    ensures r >= 1
  {
    Max(1, 45 * size % 0x1_0000_0000 / 100)
  }

  /** It is 45 percent of the size, as intended, exactly while that product fits in 32 bits. */
  lemma EpochSizeExact(size: nat)
    requires 2 <= size < 0x1_0000_0000
    ensures EpochSizeFor(size) == Max(1, 45 * size / 100) <==> 45 * size < 0x1_0000_0000
  {
    var n := 45 * size;
    if n >= 0x1_0000_0000 {
      assert n % 0x1_0000_0000 <= n - 0x1_0000_0000;
      assert n / 100 >= (n - 0x1_0000_0000) / 100 + 1;
    }
  }

  lemma {:induction false} SomeOpen<E>(c: Cache<E>, n: nat)
    requires Wf(c) && n <= |c.table| && Unused(c, n) + Older(c, n) < n
    ensures exists i :: 0 <= i < n && c.collected[i]
  {
    if !c.collected[n - 1] {
      SomeOpen(c, n - 1);
      var i :| 0 <= i < n - 1 && c.collected[i];
      assert 0 <= i < n && c.collected[i];
    }
  }

  lemma {:induction false} RunSize<E>(hash: Hasher<E>, c: Cache<E>, ops: seq<Op<E>>)
    requires Wf(c)
    ensures |Run(hash, c, ops).table| == |c.table|
    decreases |ops|
  {
    if ops != [] {
      hide Inserted;
      hide Lookup;
      RunSize(hash, Do(hash, c, ops[0]), ops[1..]);
    }
  }

  lemma TwoEpochsFit(size: nat)
    requires 20 < size
    ensures 2 * EpochRoom(EpochSizeFor(size)) < size
  {
    var n := 45 * size;
    assert n % 0x1_0000_0000 <= n;
    assert EpochSizeFor(size) <= n / 100;
  }

  /** A cache of more than twenty slots, set up as the source does, always has an open slot. */
  lemma RunsLeaveRoom<E(!new)>(hash: Hasher<E>, blank: E, size: nat, depthLimit: nat, ops: seq<Op<E>>)
    requires 20 < size
    ensures var c := Run(hash, Start(blank, size, EpochSizeFor(size), depthLimit), ops);
            |c.table| == size && exists i :: 0 <= i < size && c.collected[i]
  {
    var start := Start(blank, size, EpochSizeFor(size), depthLimit);
    RunSize(hash, start, ops);
    RunsKeepRoom(hash, blank, size, EpochSizeFor(size), depthLimit, ops);
    TwoEpochsFit(size);
    assert |start.table| == size;
    hide *;
    Shape(Run(hash, start, ops));
    SomeOpen(Run(hash, start, ops), size);
  }

  class CuckooCache<E(==)> {
    const hash: Hasher<E>
    var table: seq<E>
    var collectionFlags: seq<bv8>
    var epochFlags: seq<bool>
    var epochHeuristicCounter: nat
    var epochSize: nat
    var depthLimit: nat

    ghost predicate Valid()
      reads this
    {
      |table| == |epochFlags| > 0 && |collectionFlags| == (|table| + 7) / 8
    }

    ghost function Contents(): (c: Cache<E>)
      requires Valid()
      reads this
      ensures Wf(c)
    {
      Cache(table, Flags(collectionFlags, |table|), epochFlags, epochHeuristicCounter, epochSize, depthLimit)
    }

    /** The number of levels comes from a logarithm in floating point and is a parameter here. */
    constructor Setup(hash: Hasher<E>, blank: E, newSize: Hash32, depth: nat)
      ensures this.hash == hash && Valid()
      ensures |table| == Max(2, newSize) && epochSize == EpochSizeFor(|table|)
      ensures Contents() == Start(blank, |table|, epochSize, depth)
    {
      this.hash := hash;
      var size := Max(2, newSize);
      table := seq(size, (i: nat) => blank);
      collectionFlags := seq((size + 7) / 8, (i: nat) => 0xff);
      epochFlags := seq(size, (i: nat) => false);
      epochSize := EpochSizeFor(size);
      epochHeuristicCounter := epochSize;
      depthLimit := depth;
      new;
      forall i | 0 <= i < size ensures FlagAt(collectionFlags, i) {
        NoBits(i % 8);
      }
    }

    method AllowErase(n: nat)
      requires Valid() && n < |table|
      modifies this`collectionFlags
      ensures Valid() && Contents() == old(Contents()).(collected := old(Contents()).collected[n := true])
    {
      FlagsSet(collectionFlags, |table|, n);
      hide Flags;
      collectionFlags := SetFlag(collectionFlags, n, true);
    }

    method PleaseKeep(n: nat)
      requires Valid() && n < |table|
      modifies this`collectionFlags
      ensures Valid() && Contents() == old(Contents()).(collected := old(Contents()).collected[n := false])
    {
      FlagsSet(collectionFlags, |table|, n);
      hide Flags;
      collectionFlags := ClearFlag(collectionFlags, n);
    }

    method EpochCheck()
      requires Valid()
      modifies this`epochHeuristicCounter, this`epochFlags, this`collectionFlags
      ensures Valid() && Contents() == AfterCheck(old(Contents()))
    {
      if epochHeuristicCounter != 0 {
        epochHeuristicCounter := epochHeuristicCounter - 1;
        return;
      }
      hide Flags;
      hide Aged;
      hide Unused;
      var unused := CountUnused();
      if unused >= epochSize {
        AgeAll();
      } else {
        epochHeuristicCounter := Max(1, Max(epochSize / 16, epochSize - unused));
      }
    }

    method CountUnused() returns (unused: nat)
      requires Valid()
      ensures unused == Unused(Contents(), |table|)
    {
      hide FlagAt;
      unused := 0;
      ghost var c := Contents();
      var i := 0;
      while i < |table|
        invariant i <= |table| && unused == Unused(c, i)
      {
        unused := unused + if epochFlags[i] && !FlagAt(collectionFlags, i) then 1 else 0;
        i := i + 1;
      }
    }

    method AgeAll()
      requires Valid()
      modifies this`epochHeuristicCounter, this`epochFlags, this`collectionFlags
      ensures Valid() && Contents() == Aged(old(Contents()))
    {
      ghost var c := Contents();
      var i := 0;
      while i < |table|
        invariant i <= |table| && Valid()
        invariant |epochFlags| == |c.epoch|
        invariant forall k :: 0 <= k < |table| ==> Contents().collected[k] == (c.collected[k] || (k < i && !c.epoch[k]))
        invariant forall k :: 0 <= k < |table| ==> epochFlags[k] == (k >= i && c.epoch[k])
      {
        if epochFlags[i] {
          epochFlags := epochFlags[i := false];
        } else {
          AllowErase(i);
        }
        i := i + 1;
      }
      epochHeuristicCounter := epochSize;
      assert Contents().collected == Aged(c).collected;
      assert epochFlags == Aged(c).epoch;
    }

    method ComputeHashes(e: E) returns (locs: seq<nat>)
      requires Valid()
      ensures locs == Slots(hash, e, |table|)
    {
      locs := Slots(hash, e, |table|);
    }

    /** The first of the places that holds the element. */
    method Find(e: E, locs: seq<nat>) returns (k: nat)
      requires Valid() && locs == Slots(hash, e, |table|)
      ensures k == FindElement(table, locs, e, 0)
    {
      hide Slots;
      k := 0;
      while k < 8 && table[locs[k]] != e
        invariant k <= 8 && FindElement(table, locs, e, 0) == FindElement(table, locs, e, k)
      {
        k := k + 1;
      }
    }

    method Insert(element: E)
      requires Valid()
      modifies this`table, this`epochHeuristicCounter, this`epochFlags, this`collectionFlags
      ensures Valid() && Contents() == Inserted(hash, old(Contents()), element).0
    {
      EpochCheck();
      ghost var a := Contents();
      hide AfterCheck;
      hide Slots;
      var locs := ComputeHashes(element);
      var k := Find(element, locs);
      hide FindElement;
      if k < 8 {
        PleaseKeep(locs[k]);
        epochFlags := epochFlags[locs[k] := true];
        assert table[locs[k] := element] == table;
        return;
      }
      ghost var target := Displace(hash, a, element, INVALID, true, depthLimit).0;
      Settle(element, target);
    }

    /** The first of the places that may be overwritten. */
    method FirstOpen(locs: seq<nat>) returns (open: nat)
      requires Valid() && |locs| == 8 && forall k :: 0 <= k < 8 ==> locs[k] < |table|
      ensures open == FindOpen(Contents().collected, locs, 0)
    {
      hide FlagAt;
      ghost var c := Contents();
      open := 0;
      while open < 8 && !FlagAt(collectionFlags, locs[open])
        invariant open <= 8 && FindOpen(c.collected, locs, 0) == FindOpen(c.collected, locs, open)
      {
        open := open + 1;
      }
    }

    /** The place after the one looked at last. */
    method PlaceAfter(locs: seq<nat>, lastLoc: nat) returns (loc: nat)
      requires |locs| == 8
      ensures loc == NextLoc(locs, lastLoc)
    {
      var at := 0;
      while at < 8 && locs[at] != lastLoc
        invariant at <= 8 && IndexOf(locs, lastLoc, 0) == IndexOf(locs, lastLoc, at)
      {
        at := at + 1;
      }
      loc := locs[(1 + at) % 8];
    }

    method StoreAt(loc: nat, e: E, recent: bool)
      requires Valid() && loc < |table|
      modifies this`table, this`epochFlags, this`collectionFlags
      ensures Valid() && Contents() == Store(old(Contents()), loc, e, recent)
    {
      hide Flags;
      table := table[loc := e];
      PleaseKeep(loc);
      epochFlags := epochFlags[loc := recent];
    }

    /** Exchange an element with the one in a slot that is in use. */
    method SwapAt(loc: nat, e: E, recent: bool) returns (moved: E, wasRecent: bool)
      requires Valid() && loc < |table| && !Contents().collected[loc]
      modifies this`table, this`epochFlags
      ensures Valid() && Contents() == Store(old(Contents()), loc, e, recent)
      ensures moved == old(table)[loc] && wasRecent == old(epochFlags)[loc]
    {
      hide Flags;
      ghost var c := Contents();
      assert c.collected[loc := false] == c.collected;
      moved, wasRecent := table[loc], epochFlags[loc];
      table := table[loc := e];
      epochFlags := epochFlags[loc := recent];
    }

    /** The displacement loop. */
    method Settle(element: E, ghost target: Cache<E>)
      requires Valid() && target == Displace(hash, Contents(), element, INVALID, true, depthLimit).0
      modifies this`table, this`epochFlags, this`collectionFlags
      ensures Valid() && Contents() == target
    {
      var e, lastLoc, lastEpoch := element, INVALID, true;
      var depth := 0;
      hide Slots;
      hide Flags;
      hide Displace;
      hide Store;
      hide FindOpen;
      hide NextLoc;
      while depth < depthLimit
        invariant Valid() && depth <= depthLimit
        invariant Displace(hash, Contents(), e, lastLoc, lastEpoch, depthLimit - depth).0 == target
      {
        ghost var c := Contents();
        var locs := ComputeHashes(e);
        var open := FirstOpen(locs);
        if open < 8 {
          DisplaceStores(hash, c, e, lastLoc, lastEpoch, depthLimit - depth);
          StoreAt(locs[open], e, lastEpoch);
          return;
        }
        DisplaceMoves(hash, c, e, lastLoc, lastEpoch, depthLimit - depth);
        lastLoc := PlaceAfter(locs, lastLoc);
        e, lastEpoch := SwapAt(lastLoc, e, lastEpoch);
        depth := depth + 1;
      }
      DisplaceEnds(hash, Contents(), e, lastLoc, lastEpoch);
    }

    method Contains(e: E, erase: bool) returns (found: bool)
      requires Valid()
      modifies this`collectionFlags
      ensures Valid() && found == Holds(hash, old(Contents()), e)
      ensures Contents() == Lookup(hash, old(Contents()), e, erase)
    {
      hide Slots;
      var locs := ComputeHashes(e);
      var k := Find(e, locs);
      hide FindElement;
      if k < 8 && erase {
        AllowErase(locs[k]);
      }
      found := k < 8;
    }
  }
}
