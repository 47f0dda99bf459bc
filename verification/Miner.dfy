/** Block assembly: packages of a transaction with its unconfirmed ancestors, taken while they fit. */
module Miner {
  import opened Mempool

  const MAX_BLOCK_SIGOPS_COST: nat := 80000
  const WITNESS_SCALE_FACTOR: nat := 4
  const MAX_CONSECUTIVE_FAILURES := 1000
  const COINBASE_WEIGHT: nat := 4000
  const COINBASE_SIGOPS: nat := 400

  /** An entry of `mapModifiedTx`: sums over a transaction and its ancestors outside the block. */
  datatype Mod = Mod(size: int, sigOps: int, modFees: int)

  type Mods = map<Tx, Mod>

  function ModOf(e: Entry): Mod {
    Mod(e.sizeWithAncestors, e.sigOpsWithAncestors, e.modFeesWithAncestors)
  }

  // ----- The invariants

  /** With a transaction, the block has everything it depends on. */
  ghost predicate Closed(p: Pool, block: set<Tx>)
    requires Dag(p)
  {
    forall t :: t in block ==> t in p.entries && Ancestors(p, t) <= block
  }

  /** The part of a transaction's package that is not in the block yet. */
  ghost function Missing(p: Pool, block: set<Tx>, t: Tx): set<Tx>
    requires Dag(p) && t in p.entries
  {
    Package(p, t) - block
  }

  /** The modified sums never fall short, and are exact unless the transaction failed before. */
  ghost predicate Covered(p: Pool, block: set<Tx>, failed: set<Tx>, t: Tx, m: Mod)
    requires Dag(p) && t in p.entries
  {
    && m.size >= Sum(SizeOf(p), Missing(p, block, t)) && m.sigOps >= Sum(SigOpsOf(p), Missing(p, block, t))
    && (t !in failed ==>
          m.size == Sum(SizeOf(p), Missing(p, block, t)) && m.sigOps == Sum(SigOpsOf(p), Missing(p, block, t)))
  }

  ghost predicate ModsOk(p: Pool, block: set<Tx>, failed: set<Tx>, mods: Mods)
    requires Dag(p)
  {
    && (forall t :: t in mods ==> t in p.entries && t !in block && Covered(p, block, failed, t, mods[t]))
    && (forall t :: t in p.entries && t !in block && t !in mods && t !in failed ==> Ancestors(p, t) !! block)
  }

  function Start(p: Pool, mods: Mods, d: Tx): Mod
    requires d in p.entries
  {
    if d in mods then mods[d] else ModOf(p.entries[d])
  }

  function FeeOf(p: Pool, t: Tx): int {
    if t in p.entries then p.entries[t].fee else 0
  }

  ghost function FeesIn(p: Pool, s: set<Tx>): int {
    if s == {} then 0 else
      var x :| x in s;
      FeeOf(p, x) + FeesIn(p, s - {x})
  }

  lemma {:induction false} FeesRemove(p: Pool, s: set<Tx>, x: Tx)
    requires x in s
    ensures FeesIn(p, s) == FeeOf(p, x) + FeesIn(p, s - {x})
  {
    hide FeeOf;
    var y :| y in s && FeesIn(p, s) == FeeOf(p, y) + FeesIn(p, s - {y});
    if y != x {
      FeesRemove(p, s - {y}, x);
      FeesRemove(p, s - {x}, y);
      assert s - {y} - {x} == s - {x} - {y};
    }
  }

  lemma FeesEmpty(p: Pool)
    ensures FeesIn(p, {}) == 0
  {
  }

  lemma {:induction false} FeesTogether(p: Pool, a: set<Tx>, b: set<Tx>)
    requires a !! b
    ensures FeesIn(p, a + b) == FeesIn(p, a) + FeesIn(p, b)
  {
    if b == {} {
      assert a + b == a;
    } else {
      var x :| x in b;
      hide FeesIn;
      FeesRemove(p, a + b, x);
      FeesRemove(p, b, x);
      FeesTogether(p, a, b - {x});
      assert a + b - {x} == a + (b - {x});
    }
  }

  /** What a first touch takes off beyond the plain fee. */
  function Excess(p: Pool, t: Tx): int {
    if t in p.entries then p.entries[t].modFee - p.entries[t].fee else 0
  }

  /** The fees left of `fees` when `hits` are taken off, `f` first. */
  ghost predicate FirstTouched(p: Pool, fees: int, hits: set<Tx>, f: Tx, left: int) {
    f in hits && left == fees - FeesIn(p, hits) - Excess(p, f)
  }

  /** The entry of `d` was made if need be, and has lost the shares of `hits`. */
  ghost predicate Reduced(p: Pool, hits: set<Tx>, d: Tx, before: Mods, after: Mods)
    requires d in p.entries
  {
    && (d in after <==> d in before || hits != {})
    && (d in after ==>
          && after[d].size == Start(p, before, d).size - Sum(SizeOf(p), hits)
          && after[d].sigOps == Start(p, before, d).sigOps - Sum(SigOpsOf(p), hits))
    && (d in before ==> after[d].modFees == before[d].modFees - FeesIn(p, hits))
    && (d in after && d !in before ==>
          exists f :: FirstTouched(p, p.entries[d].modFeesWithAncestors, hits, f, after[d].modFees))
  }

  /** What `UpdatePackagesForAdded` has done once the links from `done`, and from `it` to `reached`, are followed. */
  ghost predicate Updated(p: Pool, added: set<Tx>, done: set<Tx>, it: Tx, reached: set<Tx>, before: Mods, after: Mods)
    requires Dag(p)
  {
    && (forall d :: d in p.entries ==> Reduced(p, Hits(p, added, done, it, reached, d), d, before, after))
    && (forall d :: d !in p.entries ==> (d in after <==> d in before))
  }

  ghost function Hits(p: Pool, added: set<Tx>, done: set<Tx>, it: Tx, reached: set<Tx>, d: Tx): set<Tx>
    requires Dag(p) && d in p.entries
  {
    if d in added then {} else Ancestors(p, d) * (if d in reached then done + {it} else done)
  }

  /** The relation established by the whole of `UpdatePackagesForAdded`. */
  ghost predicate UpdatedFor(p: Pool, added: set<Tx>, before: Mods, after: Mods)
    requires Dag(p)
  {
    && (forall d :: d in p.entries ==>
          Reduced(p, if d in added then {} else Ancestors(p, d) * added, d, before, after))
    && (forall d :: d !in p.entries ==> (d in after <==> d in before))
  }

  /** Subtract the included transaction `it` from an entry: the fee of a first touch is the modified
      one, later touches take the plain fee. */
  function Deduct(p: Pool, m: Mod, e: Entry, first: bool): Mod {
    Mod(m.size - Size(p, e), m.sigOps - e.sigOps, m.modFees - (if first then e.modFee else e.fee))
  }

  /** One link: the entry of `d` loses the share of `it`. */
  function Touch(p: Pool, mods: Mods, it: Tx, d: Tx): Mods
    requires it in p.entries && d in p.entries
  {
    if d in mods then mods[d := Deduct(p, mods[d], p.entries[it], false)]
    else mods[d := Deduct(p, ModOf(p.entries[d]), p.entries[it], true)]
  }

  lemma HitsGrow(p: Pool, added: set<Tx>, done: set<Tx>, it: Tx, reached: set<Tx>, d: Tx)
    requires Dag(p) && d in Descendants(p, it) && it in added && it !in done && d !in added && d !in reached
    ensures Hits(p, added, done, it, reached + {d}, d) == Hits(p, added, done, it, reached, d) + {it}
    ensures it !in Hits(p, added, done, it, reached, d)
  {
    hide Dag;
    assert it in Ancestors(p, d);
    hide Ancestors;
  }

  lemma SumEmpty(f: Tx -> nat)
    ensures Sum(f, {}) == 0
  {
  }

  lemma TouchReduces(p: Pool, hits: set<Tx>, it: Tx, d: Tx, before: Mods, mods: Mods)
    requires d in p.entries && it in p.entries && it !in hits && Reduced(p, hits, d, before, mods)
    ensures Reduced(p, hits + {it}, d, before, Touch(p, mods, it, d))
  {
    hide Size;
    SumEmpty(SizeOf(p));
    SumEmpty(SigOpsOf(p));
    SumRemove(SizeOf(p), hits + {it}, it);
    SumRemove(SigOpsOf(p), hits + {it}, it);
    FeesEmpty(p);
    FeesRemove(p, hits + {it}, it);
    assert hits + {it} - {it} == hits;
    hide Sum;
    hide FeesIn;
    var fees, after := p.entries[d].modFeesWithAncestors, Touch(p, mods, it, d);
    if d !in before {
      if hits == {} {
        assert FirstTouched(p, fees, hits + {it}, it, after[d].modFees);
      } else {
        var f :| FirstTouched(p, fees, hits, f, mods[d].modFees);
        assert FirstTouched(p, fees, hits + {it}, f, after[d].modFees);
      }
    }
  }

  lemma OthersReduced(p: Pool, hits: set<Tx>, x: Tx, before: Mods, mods: Mods, after: Mods)
    requires x in p.entries && Reduced(p, hits, x, before, mods)
    requires (x in after <==> x in mods) && (x in mods ==> after[x] == mods[x])
    ensures Reduced(p, hits, x, before, after)
  {
    hide Sum;
  }

  lemma TouchUpdates(p: Pool, added: set<Tx>, done: set<Tx>, it: Tx, reached: set<Tx>, d: Tx, before: Mods, mods: Mods)
    requires Dag(p) && it in p.entries && it in added && it !in done && d !in added && d !in reached
    requires d in Descendants(p, it) && Updated(p, added, done, it, reached, before, mods)
    ensures Updated(p, added, done, it, reached + {d}, before, Touch(p, mods, it, d))
  {
    hide Sum;
    hide Ancestors;
    hide Dag;
    hide Reduced;
    assert d in p.entries;
    hide Descendants;
    HitsGrow(p, added, done, it, reached, d);
    var after := Touch(p, mods, it, d);
    forall x | x in p.entries ensures Reduced(p, Hits(p, added, done, it, reached + {d}, x), x, before, after) {
      if x == d {
        TouchReduces(p, Hits(p, added, done, it, reached, d), it, d, before, mods);
      } else {
        assert Hits(p, added, done, it, reached + {d}, x) == Hits(p, added, done, it, reached, x);
        OthersReduced(p, Hits(p, added, done, it, reached, x), x, before, mods, after);
      }
    }
  }

  lemma SkipUpdates(p: Pool, added: set<Tx>, done: set<Tx>, it: Tx, reached: set<Tx>, d: Tx, before: Mods, mods: Mods)
    requires Dag(p) && d in added && Updated(p, added, done, it, reached, before, mods)
    ensures Updated(p, added, done, it, reached + {d}, before, mods)
  {
    hide Ancestors;
    hide Dag;
    hide Reduced;
    forall x | x in p.entries
      ensures Hits(p, added, done, it, reached + {d}, x) == Hits(p, added, done, it, reached, x)
    {
    }
    hide Hits;
  }

  /** All links of `it` followed: `it` is done. */
  lemma AllReached(p: Pool, added: set<Tx>, done: set<Tx>, it: Tx, next: Tx, before: Mods, mods: Mods)
    requires Dag(p) && it in added && Updated(p, added, done, it, Descendants(p, it), before, mods)
    ensures Updated(p, added, done + {it}, next, {}, before, mods)
  {
    hide Ancestors;
    hide Dag;
    hide Reduced;
    forall d | d in p.entries
      ensures Hits(p, added, done + {it}, next, {}, d) == Hits(p, added, done, it, Descendants(p, it), d)
    {
      if d !in Descendants(p, it) {
        assert it !in Ancestors(p, d);
      }
    }
    hide Hits;
    hide Descendants;
  }

  lemma NothingReached(p: Pool, added: set<Tx>, mods: Mods)
    requires Dag(p)
    ensures forall it :: Updated(p, added, {}, it, {}, mods, mods)
  {
    hide Ancestors;
    hide Dag;
    hide Sum;
    hide SizeOf;
    hide SigOpsOf;
    SumEmpty(SizeOf(p));
    SumEmpty(SigOpsOf(p));
    FeesEmpty(p);
    hide FeesIn;
    forall it, d | d in p.entries ensures Reduced(p, Hits(p, added, {}, it, {}, d), d, mods, mods) {
      assert Hits(p, added, {}, it, {}, d) == {};
    }
    hide Reduced;
  }

  lemma AllDone(p: Pool, added: set<Tx>, it: Tx, before: Mods, mods: Mods)
    requires Dag(p) && Updated(p, added, added, it, {}, before, mods)
    ensures UpdatedFor(p, added, before, mods)
  {
    hide Ancestors;
    hide Dag;
    hide Reduced;
    forall d | d in p.entries
      ensures Hits(p, added, added, it, {}, d) == if d in added then {} else Ancestors(p, d) * added
    {
    }
    hide Hits;
  }

  // ----- One package into the block

  lemma MissingShrinks(p: Pool, block: set<Tx>, added: set<Tx>, d: Tx)
    requires Dag(p) && d in p.entries && d !in added && added !! block
    ensures var hit := Ancestors(p, d) * added;
            && Missing(p, block + added, d) == Missing(p, block, d) - hit && hit <= Missing(p, block, d)
            && Sum(SizeOf(p), Missing(p, block + added, d)) == Sum(SizeOf(p), Missing(p, block, d)) - Sum(SizeOf(p), hit)
            && Sum(SigOpsOf(p), Missing(p, block + added, d)) == Sum(SigOpsOf(p), Missing(p, block, d)) - Sum(SigOpsOf(p), hit)
  {
    var hit := Ancestors(p, d) * added;
    hide Ancestors;
    assert Missing(p, block + added, d) == Missing(p, block, d) - hit;
    SumSplit(SizeOf(p), Missing(p, block, d), hit);
    SumSplit(SigOpsOf(p), Missing(p, block, d), hit);
  }

  lemma CachedSums(p: Pool, t: Tx)
    requires Exact(p) && t in p.entries
    ensures Dag(p)
    ensures ModOf(p.entries[t]).size == Sum(SizeOf(p), Package(p, t))
    ensures ModOf(p.entries[t]).sigOps == Sum(SigOpsOf(p), Package(p, t))
  {
    hide Sum;
    hide Ancestors;
    hide Package;
  }

  /** A transaction with no ancestor in the block misses its whole package. */
  lemma NothingThere(p: Pool, block: set<Tx>, d: Tx)
    requires Dag(p) && Exact(p) && d in p.entries && d !in block && Ancestors(p, d) !! block
    ensures Missing(p, block, d) == Package(p, d)
    ensures ModOf(p.entries[d]).size == Sum(SizeOf(p), Missing(p, block, d))
    ensures ModOf(p.entries[d]).sigOps == Sum(SigOpsOf(p), Missing(p, block, d))
  {
    hide Sum;
    hide Ancestors;
    hide Dag;
    hide SizeOf;
    hide SigOpsOf;
    CachedSums(p, d);
    hide Exact;
    assert Missing(p, block, d) == Package(p, d);
  }

  /** The cached sums of a whole package never fall short of the missing part. */
  lemma WholeCovers(p: Pool, block: set<Tx>, d: Tx)
    requires Dag(p) && Exact(p) && d in p.entries
    ensures ModOf(p.entries[d]).size >= Sum(SizeOf(p), Missing(p, block, d))
    ensures ModOf(p.entries[d]).sigOps >= Sum(SigOpsOf(p), Missing(p, block, d))
  {
    hide Sum;
    hide Ancestors;
    hide Dag;
    hide SizeOf;
    hide SigOpsOf;
    CachedSums(p, d);
    hide Exact;
    SumSplit(SizeOf(p), Package(p, d), Missing(p, block, d));
    SumSplit(SigOpsOf(p), Package(p, d), Missing(p, block, d));
  }

  lemma ModAfterPackage(p: Pool, block: set<Tx>, failed: set<Tx>, mods: Mods, added: set<Tx>, after: Mods, d: Tx)
    requires Dag(p) && Exact(p) && Closed(p, block) && ModsOk(p, block, failed, mods) && added !! block
    requires UpdatedFor(p, added, mods - added, after) && d in after
    ensures d in p.entries && d !in block && d !in added && Covered(p, block + added, failed, d, after[d])
  {
    SumEmpty(SizeOf(p));
    hide Exact;
    hide Sum;
    hide Ancestors;
    hide Dag;
    hide SizeOf;
    hide SigOpsOf;
    assert d in p.entries && d !in added by {
      hide Closed;
      hide Covered;
    }
    assert Reduced(p, Ancestors(p, d) * added, d, mods - added, after);
    hide UpdatedFor;
    MissingShrinks(p, block, added, d);
    hide Missing;
    if d !in mods {
      assert d !in block;
      WholeCovers(p, block, d);
      if d !in failed {
        NothingThere(p, block, d);
      }
    }
  }

  lemma PackageCloses(p: Pool, block: set<Tx>, t: Tx)
    requires Dag(p) && Closed(p, block) && t in p.entries
    ensures Closed(p, block + Missing(p, block, t))
  {
    forall x | x in Missing(p, block, t) ensures x in p.entries && Ancestors(p, x) <= block + Missing(p, block, t) {
      if x != t {
        AncestorsBelow(p, t, x);
        forall a | a in Ancestors(p, x) ensures a in Package(p, t) {
          AncestorsTransitive(p, t, x, a);
        }
      }
    }
    hide Ancestors;
  }

  lemma StillUntouched(p: Pool, block: set<Tx>, failed: set<Tx>, mods: Mods, added: set<Tx>, after: Mods, d: Tx)
    requires Dag(p) && ModsOk(p, block, failed, mods) && UpdatedFor(p, added, mods - added, after)
    requires d in p.entries && d !in block + added && d !in after && d !in failed
    ensures Ancestors(p, d) !! block + added
  {
    hide Ancestors;
    hide Dag;
    hide Covered;
    hide Sum;
    assert Reduced(p, Ancestors(p, d) * added, d, mods - added, after);
    assert d !in mods && Ancestors(p, d) * added == {};
    forall a | a in Ancestors(p, d) ensures a !in block + added {
      assert a !in Ancestors(p, d) * added;
    }
  }

  lemma FoldModsOk(p: Pool, block: set<Tx>, failed: set<Tx>, mods: Mods)
    requires Dag(p)
    requires forall t :: t in mods ==> t in p.entries && t !in block && Covered(p, block, failed, t, mods[t])
    requires forall t :: t in p.entries && t !in block && t !in mods && t !in failed ==> Ancestors(p, t) !! block
    ensures ModsOk(p, block, failed, mods)
  {
  }

  /** Including a package, erasing its members and updating their descendants keeps the sums right. */
  lemma PackageKeepsMods(p: Pool, block: set<Tx>, failed: set<Tx>, mods: Mods, t: Tx, after: Mods)
    requires Dag(p) && Exact(p) && Closed(p, block) && ModsOk(p, block, failed, mods) && t in p.entries
    requires UpdatedFor(p, Missing(p, block, t), mods - Missing(p, block, t), after)
    ensures ModsOk(p, block + Missing(p, block, t), failed, after)
  {
    var added := Missing(p, block, t);
    assert added !! block;
    hide *;
    forall d | d in after
      ensures d in p.entries && d !in block + added && Covered(p, block + added, failed, d, after[d])
    {
      ModAfterPackage(p, block, failed, mods, added, after, d);
    }
    forall d | d in p.entries && d !in block + added && d !in after && d !in failed
      ensures Ancestors(p, d) !! block + added
    {
      StillUntouched(p, block, failed, mods, added, after, d);
    }
    FoldModsOk(p, block + added, failed, after);
  }

  /** A package that passed the size test weighs no more than it was tested for. */
  lemma PackageWeighs(p: Pool, block: set<Tx>, t: Tx, size: int)
    requires Dag(p) && t in p.entries && size >= Sum(SizeOf(p), Missing(p, block, t))
    ensures Sum(WeightOf(p), Missing(p, block, t)) <= WITNESS_SCALE_FACTOR * size
  {
    SumBound(WeightOf(p), SizeOf(p), Missing(p, block, t), WITNESS_SCALE_FACTOR);
  }

  // ----- What a package is judged by

  /** The sums of `t` with the shares of `hits` taken off, `f` first. */
  ghost function Offer(p: Pool, t: Tx, hits: set<Tx>, f: Tx): Mod
    requires t in p.entries
  {
    var m := ModOf(p.entries[t]);
    Mod(m.size - Sum(SizeOf(p), hits), m.sigOps - Sum(SigOpsOf(p), hits),
        if hits == {} then m.modFees else m.modFees - FeesIn(p, hits) - Excess(p, f))
  }

  /** An entry is judged by its own sums less those of some of its ancestors in the block. */
  ghost predicate Judged(p: Pool, block: set<Tx>, t: Tx, m: Mod, hits: set<Tx>, f: Tx)
    requires Dag(p)
  {
    t in p.entries && hits <= Ancestors(p, t) * block && (hits != {} ==> f in hits) && m == Offer(p, t, hits, f)
  }

  ghost predicate Priced(p: Pool, block: set<Tx>, mods: Mods)
    requires Dag(p)
  {
    forall t :: t in mods ==> exists hits, f :: hits != {} && Judged(p, block, t, mods[t], hits, f)
  }

  lemma OfferWhole(p: Pool, block: set<Tx>, t: Tx)
    requires Dag(p) && t in p.entries
    ensures Judged(p, block, t, ModOf(p.entries[t]), {}, t)
  {
    SumEmpty(SizeOf(p));
    SumEmpty(SigOpsOf(p));
    hide Sum;
    hide Ancestors;
  }

  lemma OfferLess(p: Pool, t: Tx, hits: set<Tx>, more: set<Tx>, f: Tx)
    requires t in p.entries && hits !! more && hits != {}
    ensures var m, n := Offer(p, t, hits, f), Offer(p, t, hits + more, f);
            && n.size == m.size - Sum(SizeOf(p), more) && n.sigOps == m.sigOps - Sum(SigOpsOf(p), more)
            && n.modFees == m.modFees - FeesIn(p, more)
  {
    SumTogether(SizeOf(p), hits, more);
    SumTogether(SigOpsOf(p), hits, more);
    FeesTogether(p, hits, more);
    hide Sum;
    hide FeesIn;
  }

  lemma JudgedAfter(p: Pool, block: set<Tx>, mods: Mods, added: set<Tx>, after: Mods, d: Tx) returns (hits: set<Tx>, f: Tx)
    requires Dag(p) && Priced(p, block, mods) && added !! block && UpdatedFor(p, added, mods - added, after) && d in after
    ensures hits != {} && Judged(p, block + added, d, after[d], hits, f)
  {
    hide Sum;
    hide FeesIn;
    hide Ancestors;
    hide Dag;
    hide SizeOf;
    hide SigOpsOf;
    assert d in p.entries && d !in added;
    var hit := Ancestors(p, d) * added;
    assert Reduced(p, hit, d, mods - added, after);
    hide UpdatedFor;
    if d in mods {
      hits, f :| hits != {} && Judged(p, block, d, mods[d], hits, f);
      OfferLess(p, d, hits, hit, f);
      hits := hits + hit;
    } else {
      hits := hit;
      f :| FirstTouched(p, p.entries[d].modFeesWithAncestors, hit, f, after[d].modFees);
    }
  }

  lemma PackageKeepsPriced(p: Pool, block: set<Tx>, mods: Mods, added: set<Tx>, after: Mods)
    requires Dag(p) && Priced(p, block, mods) && added !! block && UpdatedFor(p, added, mods - added, after)
    ensures Priced(p, block + added, after)
  {
    hide UpdatedFor;
    hide Judged;
    hide Dag;
    forall d | d in after ensures exists hits, f :: hits != {} && Judged(p, block + added, d, after[d], hits, f) {
      var hits, f := JudgedAfter(p, block, mods, added, after, d);
    }
  }

  lemma InitialPriced(p: Pool, block: set<Tx>, mods: Mods)
    requires Dag(p) && UpdatedFor(p, block, map[], mods)
    ensures Priced(p, block, mods)
  {
    var none: Mods := map[];
    assert none - block == none;
    assert {} + block == block;
    assert Priced(p, {}, none);
    hide *;
    PackageKeepsPriced(p, {}, none, block, mods);
  }

  // ----- What must be taken

  /** Final, and without a witness where none is wanted. */
  predicate MayInclude(p: Pool, segwit: bool, t: Tx) {
    t in p.entries && p.entries[t].isFinal && (segwit || !p.entries[t].hasWitness)
  }

  /** Room is left in the block for something of this size and these signature operations. */
  ghost predicate Room(p: Pool, limit: nat, block: set<Tx>, size: int, sigOps: int) {
    && COINBASE_WEIGHT + Sum(WeightOf(p), block) + WITNESS_SCALE_FACTOR * size < limit
    && COINBASE_SIGOPS + Sum(SigOpsOf(p), block) + sigOps < MAX_BLOCK_SIGOPS_COST
  }

  /** What `t` misses does not fit beside `block`, or may not be included. */
  ghost predicate TurnedDown(p: Pool, limit: nat, segwit: bool, block: set<Tx>, t: Tx)
    requires Dag(p)
  {
    && t in p.entries && t !in block
    && var missing := Missing(p, block, t);
       || !Room(p, limit, block, Sum(SizeOf(p), missing), Sum(SigOpsOf(p), missing))
       || exists x :: x in missing && !MayInclude(p, segwit, x)
  }

  /** `t` was turned down at a block from which `block` has grown. */
  ghost predicate PassedOver(p: Pool, limit: nat, segwit: bool, block: set<Tx>, t: Tx)
    requires Dag(p)
  {
    exists then_ :: then_ <= block && TurnedDown(p, limit, segwit, then_, t)
  }

  lemma PassedGrows(p: Pool, limit: nat, segwit: bool, block: set<Tx>, more: set<Tx>, t: Tx)
    requires Dag(p) && PassedOver(p, limit, segwit, block, t) && block <= more
    ensures PassedOver(p, limit, segwit, more, t)
  {
    hide TurnedDown;
    var then_ :| then_ <= block && TurnedDown(p, limit, segwit, then_, t);
    assert then_ <= more;
  }

  lemma PassedNow(p: Pool, limit: nat, segwit: bool, block: set<Tx>, t: Tx)
    requires Dag(p) && TurnedDown(p, limit, segwit, block, t)
    ensures PassedOver(p, limit, segwit, block, t)
  {
    hide TurnedDown;
  }

  /** The first failure of a transaction is judged by exactly what it misses. */
  lemma FirstFailure(p: Pool, limit: nat, segwit: bool, block: set<Tx>, failed: set<Tx>, t: Tx, m: Mod)
    requires Dag(p) && t in p.entries && t !in block && t !in failed && Covered(p, block, failed, t, m)
    requires !Room(p, limit, block, m.size, m.sigOps)
    ensures PassedOver(p, limit, segwit, block, t)
  {
    hide Sum;
    hide Missing;
    hide Room;
    hide MayInclude;
    assert TurnedDown(p, limit, segwit, block, t);
    PassedNow(p, limit, segwit, block, t);
  }

  lemma MemberFailure(p: Pool, limit: nat, segwit: bool, block: set<Tx>, t: Tx, missing: set<Tx>)
    requires Dag(p) && t in p.entries && t !in block && missing == Missing(p, block, t)
    requires !forall x :: x in missing ==> MayInclude(p, segwit, x)
    ensures PassedOver(p, limit, segwit, block, t)
  {
    hide Sum;
    hide Missing;
    hide Room;
    hide MayInclude;
    PassedNow(p, limit, segwit, block, t);
  }

  /** What was looked at is in the block, waits among the modified entries, or was refused; what failed was refused. */
  ghost predicate Decided(p: Pool, limit: nat, segwit: bool, block: set<Tx>, mods: Mods, failed: set<Tx>, order: seq<Tx>, mi: nat)
    requires Dag(p)
  {
    && mi <= |order|
    && (forall t :: t in failed ==> PassedOver(p, limit, segwit, block, t))
    && (forall i :: 0 <= i < mi ==> order[i] in block || order[i] in mods || PassedOver(p, limit, segwit, block, order[i]))
  }

  lemma DecidedNext(p: Pool, limit: nat, segwit: bool, block: set<Tx>, mods: Mods, failed: set<Tx>, order: seq<Tx>, mi: nat)
    requires Dag(p) && Decided(p, limit, segwit, block, mods, failed, order, mi) && mi < |order|
    requires order[mi] in block || order[mi] in mods || order[mi] in failed || PassedOver(p, limit, segwit, block, order[mi])
    ensures Decided(p, limit, segwit, block, mods, failed, order, mi + 1)
  {
    hide PassedOver;
  }

  lemma DecidedFails(p: Pool, limit: nat, segwit: bool, block: set<Tx>, mods: Mods, failed: set<Tx>, order: seq<Tx>, mi: nat, t: Tx)
    requires Dag(p) && Decided(p, limit, segwit, block, mods, failed, order, mi) && PassedOver(p, limit, segwit, block, t)
    ensures Decided(p, limit, segwit, block, mods - {t}, failed + {t}, order, mi)
  {
    hide PassedOver;
  }

  lemma DecidedTakes(p: Pool, limit: nat, segwit: bool, block: set<Tx>, mods: Mods, failed: set<Tx>, order: seq<Tx>, mi: nat,
                     added: set<Tx>, after: Mods)
    requires Dag(p) && Decided(p, limit, segwit, block, mods, failed, order, mi)
    requires UpdatedFor(p, added, mods - added, after)
    ensures Decided(p, limit, segwit, block + added, after, failed, order, mi)
  {
    hide PassedOver;
    hide Sum;
    hide FeesIn;
    hide Ancestors;
    hide Dag;
    forall t | PassedOver(p, limit, segwit, block, t) ensures PassedOver(p, limit, segwit, block + added, t) {
      PassedGrows(p, limit, segwit, block, block + added, t);
    }
    forall d | d in mods && d !in added ensures d in after {
      assert d in p.entries ==> Reduced(p, Ancestors(p, d) * added, d, mods - added, after);
    }
  }

  /** The block when the packages of `chosen` have been added one after the other. */
  ghost function Fill(p: Pool, block: set<Tx>, chosen: seq<Tx>): set<Tx>
    requires Dag(p) && forall t :: t in chosen ==> t in p.entries
  {
    if chosen == [] then block else
      var n := |chosen| - 1;
      var b := Fill(p, block, chosen[..n]);
      b + Missing(p, b, chosen[n])
  }

  /** Each package is chosen for a transaction outside the block. */
  ghost predicate Fills(p: Pool, before: set<Tx>, chosen: seq<Tx>, block: set<Tx>)
    requires Dag(p)
  {
    && (forall t :: t in chosen ==> t in p.entries) && block == Fill(p, before, chosen)
    && forall i :: 0 <= i < |chosen| ==> chosen[i] !in Fill(p, before, chosen[..i])
  }

  lemma FillsMore(p: Pool, before: set<Tx>, chosen: seq<Tx>, block: set<Tx>, t: Tx)
    requires Dag(p) && Fills(p, before, chosen, block) && t in p.entries && t !in block
    ensures Fills(p, before, chosen + [t], block + Missing(p, block, t))
  {
    hide Dag;
    hide Missing;
    var all := chosen + [t];
    assert all[..|chosen|] == chosen;
    forall i | 0 <= i < |all| ensures all[i] !in Fill(p, before, all[..i]) {
      if i < |chosen| {
        assert all[..i] == chosen[..i];
      }
    }
  }

  /** Why the selection ended. */
  datatype Ending = Exhausted | LowFee | GaveUp

  /** `t` is outside the block and its package, judged with `hits` taken off, pays too little. */
  ghost predicate Underpaid(p: Pool, minFee: int -> int, block: set<Tx>, t: Tx, hits: set<Tx>, f: Tx)
    requires Dag(p)
  {
    && t in p.entries && t !in block && Judged(p, block, t, Offer(p, t, hits, f), hits, f)
    && Offer(p, t, hits, f).modFees < minFee(Offer(p, t, hits, f).size)
  }

  /** `t` is outside the block and its package, judged with `hits` taken off, does not fit. */
  ghost predicate Unfit(p: Pool, limit: nat, block: set<Tx>, t: Tx, hits: set<Tx>, f: Tx)
    requires Dag(p)
  {
    && t in p.entries && t !in block && Judged(p, block, t, Offer(p, t, hits, f), hits, f)
    && !Room(p, limit, block, Offer(p, t, hits, f).size, Offer(p, t, hits, f).sigOps)
  }

  /** Everything in the pool may be included and fits. */
  ghost predicate Roomy(p: Pool, limit: nat, segwit: bool) {
    && COINBASE_WEIGHT + WITNESS_SCALE_FACTOR * Sum(SizeOf(p), p.entries.Keys) < limit
    && COINBASE_SIGOPS + Sum(SigOpsOf(p), p.entries.Keys) < MAX_BLOCK_SIGOPS_COST
    && forall t :: t in p.entries ==> MayInclude(p, segwit, t)
  }

  /** No package pays too little, whichever of its ancestors are taken off. */
  ghost predicate AllPaid(p: Pool, minFee: int -> int)
    requires Dag(p)
  {
    forall t, hits, f :: t in p.entries && hits <= Ancestors(p, t) && (hits != {} ==> f in hits) ==>
      Offer(p, t, hits, f).modFees >= minFee(Offer(p, t, hits, f).size)
  }

  /** Everything listed is in the block or was passed over. */
  ghost predicate Complete(p: Pool, limit: nat, segwit: bool, block: set<Tx>, order: seq<Tx>)
    requires Dag(p)
  {
    forall i :: 0 <= i < |order| ==> order[i] in block || PassedOver(p, limit, segwit, block, order[i])
  }

  ghost predicate SomeUnderpaid(p: Pool, minFee: int -> int, block: set<Tx>)
    requires Dag(p)
  {
    exists t, hits, f :: Underpaid(p, minFee, block, t, hits, f)
  }

  ghost predicate NoFit(p: Pool, limit: nat, block: set<Tx>, t: Tx)
    requires Dag(p)
  {
    exists hits, f :: Unfit(p, limit, block, t, hits, f)
  }

  /** None of these fits beside the block, and some transaction was passed over. */
  ghost predicate Streak(p: Pool, limit: nat, segwit: bool, block: set<Tx>, failures: seq<Tx>)
    requires Dag(p)
  {
    && (forall i :: 0 <= i < |failures| ==> NoFit(p, limit, block, failures[i]))
    && (failures != [] ==> exists t :: PassedOver(p, limit, segwit, block, t))
  }

  lemma StreakGrows(p: Pool, limit: nat, segwit: bool, block: set<Tx>, failures: seq<Tx>, t: Tx, m: Mod, hits: set<Tx>, f: Tx)
    requires Dag(p) && Streak(p, limit, segwit, block, failures) && t in p.entries && t !in block
    requires Judged(p, block, t, m, hits, f) && !Room(p, limit, block, m.size, m.sigOps)
    requires PassedOver(p, limit, segwit, block, t)
    ensures Streak(p, limit, segwit, block, failures + [t])
  {
    hide Room;
    hide Offer;
    hide PassedOver;
    assert Unfit(p, limit, block, t, hits, f);
    hide Unfit;
    assert NoFit(p, limit, block, t);
    hide NoFit;
  }

  lemma CheapIsUnderpaid(p: Pool, minFee: int -> int, block: set<Tx>, t: Tx, m: Mod, hits: set<Tx>, f: Tx)
    requires Dag(p) && t in p.entries && t !in block && Judged(p, block, t, m, hits, f) && m.modFees < minFee(m.size)
    ensures SomeUnderpaid(p, minFee, block)
  {
    hide Offer;
    assert Underpaid(p, minFee, block, t, hits, f);
  }

  lemma FitsBeside(p: Pool, limit: nat, segwit: bool, block: set<Tx>, missing: set<Tx>)
    requires Roomy(p, limit, segwit) && block !! missing && block <= p.entries.Keys && missing <= p.entries.Keys
    ensures Room(p, limit, block, Sum(SizeOf(p), missing), Sum(SigOpsOf(p), missing))
  {
    hide Sum;
    SumBound(WeightOf(p), SizeOf(p), block, WITNESS_SCALE_FACTOR);
    SumTogether(SizeOf(p), block, missing);
    SumTogether(SigOpsOf(p), block, missing);
    SumGrows(SizeOf(p), block + missing, p.entries.Keys);
    SumGrows(SigOpsOf(p), block + missing, p.entries.Keys);
  }

  lemma NothingTurnedDown(p: Pool, limit: nat, segwit: bool, block: set<Tx>, t: Tx)
    requires Dag(p) && Roomy(p, limit, segwit) && block <= p.entries.Keys
    ensures !TurnedDown(p, limit, segwit, block, t)
  {
    if t in p.entries && t !in block {
      MissingOutside(p, block, t);
      hide Missing;
      FitsBeside(p, limit, segwit, block, Missing(p, block, t));
    }
    hide Missing;
    hide Room;
    hide Sum;
  }

  /** Where everything fits, may be included and pays enough, nothing is refused and no offer is too low. */
  lemma NothingStops(p: Pool, limit: nat, segwit: bool, minFee: int -> int, block: set<Tx>)
    requires Dag(p) && Roomy(p, limit, segwit) && AllPaid(p, minFee) && block <= p.entries.Keys
    ensures forall t :: !PassedOver(p, limit, segwit, block, t)
    ensures forall t, hits, f :: !Underpaid(p, minFee, block, t, hits, f)
  {
    hide Roomy;
    hide Offer;
    hide TurnedDown;
    forall then_, t | then_ <= block ensures !TurnedDown(p, limit, segwit, then_, t) {
      NothingTurnedDown(p, limit, segwit, then_, t);
    }
  }

  // ----- One turn of the selection

  lemma CoveredSums(p: Pool, block: set<Tx>, failed: set<Tx>, t: Tx, m: Mod)
    requires Dag(p) && t in p.entries && Covered(p, block, failed, t, m)
    ensures m.size >= Sum(SizeOf(p), Missing(p, block, t)) && m.sigOps >= Sum(SigOpsOf(p), Missing(p, block, t))
  {
    hide Sum;
    hide Missing;
  }

  /** Whether the whole package or a modified entry is considered, it is judged as described. */
  lemma JudgedNow(p: Pool, block: set<Tx>, mods: Mods, t: Tx, m: Mod) returns (hits: set<Tx>, f: Tx)
    requires Dag(p) && Priced(p, block, mods) && t in p.entries
    requires m == if t in mods then mods[t] else ModOf(p.entries[t])
    ensures Judged(p, block, t, m, hits, f)
  {
    hide Judged;
    if t in mods {
      hits, f :| hits != {} && Judged(p, block, t, mods[t], hits, f);
    } else {
      hits, f := {}, t;
      OfferWhole(p, block, t);
    }
  }

  lemma TooBigPasses(p: Pool, limit: nat, segwit: bool, block: set<Tx>, mods: Mods, failed: set<Tx>, order: seq<Tx>, mi: nat,
                     t: Tx, m: Mod)
    requires Dag(p) && Decided(p, limit, segwit, block, mods, failed, order, mi) && t in p.entries && t !in block
    requires Covered(p, block, failed, t, m) && !Room(p, limit, block, m.size, m.sigOps)
    ensures PassedOver(p, limit, segwit, block, t)
  {
    hide Covered;
    hide Room;
    hide PassedOver;
    if t !in failed {
      FirstFailure(p, limit, segwit, block, failed, t, m);
    }
  }

  lemma NotAllowedPasses(p: Pool, limit: nat, segwit: bool, block: set<Tx>, t: Tx)
    requires Dag(p) && t in p.entries && t !in block
    requires exists x :: x in Missing(p, block, t) && !MayInclude(p, segwit, x)
    ensures PassedOver(p, limit, segwit, block, t)
  {
    hide PassedOver;
    hide Missing;
    hide MayInclude;
    MemberFailure(p, limit, segwit, block, t, Missing(p, block, t));
  }

  lemma ErasePriced(p: Pool, block: set<Tx>, mods: Mods, t: Tx)
    requires Dag(p) && Priced(p, block, mods)
    ensures Priced(p, block, mods - {t})
  {
    hide Judged;
    hide Dag;
    var left := mods - {t};
    forall x | x in left ensures exists hits, f :: hits != {} && Judged(p, block, x, left[x], hits, f) {
      assert left[x] == mods[x];
    }
  }

  lemma AllDecided(p: Pool, limit: nat, segwit: bool, block: set<Tx>, failed: set<Tx>, order: seq<Tx>)
    requires Dag(p) && Decided(p, limit, segwit, block, map[], failed, order, |order|)
    ensures Complete(p, limit, segwit, block, order)
  {
    hide PassedOver;
    hide Dag;
  }

  lemma StreakStarts(p: Pool, limit: nat, segwit: bool, block: set<Tx>)
    requires Dag(p)
    ensures Streak(p, limit, segwit, block, [])
  {
  }

  lemma NothingChosen(p: Pool, limit: nat, segwit: bool, block: set<Tx>, mods: Mods, order: seq<Tx>)
    requires Dag(p)
    ensures Fills(p, block, [], block) && Decided(p, limit, segwit, block, mods, {}, order, 0)
  {
    hide PassedOver;
    hide Dag;
  }

  /** What holds between two turns: `chosen` were taken since `before`, `failures` were not since the last of them. */
  ghost predicate Selecting(p: Pool, limit: nat, segwit: bool, before: set<Tx>, block: set<Tx>, mods: Mods, failed: set<Tx>,
                            order: seq<Tx>, mi: nat, chosen: seq<Tx>, failures: seq<Tx>)
    requires Dag(p)
  {
    && ModsOk(p, block, failed, mods) && Priced(p, block, mods) && before <= block
    && Decided(p, limit, segwit, block, mods, failed, order, mi)
    && Fills(p, before, chosen, block) && Streak(p, limit, segwit, block, failures)
  }

  lemma SelectsFirst(p: Pool, limit: nat, segwit: bool, block: set<Tx>, mods: Mods, order: seq<Tx>)
    requires Dag(p) && Exact(p) && Closed(p, block) && UpdatedFor(p, block, map[], mods)
    ensures Selecting(p, limit, segwit, block, block, mods, {}, order, 0, [], [])
  {
    hide Closed;
    hide Exact;
    hide Dag;
    hide UpdatedFor;
    hide ModsOk;
    hide Priced;
    hide Decided;
    hide Fills;
    hide Streak;
    InitialMods(p, block, mods);
    InitialPriced(p, block, mods);
    NothingChosen(p, limit, segwit, block, mods, order);
    StreakStarts(p, limit, segwit, block);
  }

  /** The next of the order needs no second look. */
  lemma SelectsNext(p: Pool, limit: nat, segwit: bool, before: set<Tx>, block: set<Tx>, mods: Mods, failed: set<Tx>,
                    order: seq<Tx>, mi: nat, chosen: seq<Tx>, failures: seq<Tx>)
    requires Dag(p) && Selecting(p, limit, segwit, before, block, mods, failed, order, mi, chosen, failures) && mi < |order|
    requires order[mi] in block || order[mi] in mods || order[mi] in failed || PassedOver(p, limit, segwit, block, order[mi])
    ensures Selecting(p, limit, segwit, before, block, mods, failed, order, mi + 1, chosen, failures)
  {
    hide ModsOk;
    hide Priced;
    hide Decided;
    hide Fills;
    hide Streak;
    hide PassedOver;
    hide Dag;
    DecidedNext(p, limit, segwit, block, mods, failed, order, mi);
  }

  /** A candidate is outside the block, its sums cover what it misses, and it is judged as described. */
  lemma Candidate(p: Pool, limit: nat, segwit: bool, before: set<Tx>, block: set<Tx>, mods: Mods, failed: set<Tx>,
                  order: seq<Tx>, mi: nat, chosen: seq<Tx>, failures: seq<Tx>, t: Tx, m: Mod) returns (hits: set<Tx>, f: Tx)
    requires Dag(p) && Exact(p) && Selecting(p, limit, segwit, before, block, mods, failed, order, mi, chosen, failures)
    requires t in mods || (t in p.entries && t !in block && t !in failed)
    requires t in mods ==> m == mods[t]
    requires t in p.entries && t !in mods ==> m == ModOf(p.entries[t])
    ensures t in p.entries && t !in block && ModsOk(p, block, failed, mods)
    ensures Covered(p, block, failed, t, m) && Judged(p, block, t, m, hits, f)
    ensures m.size >= Sum(SizeOf(p), Missing(p, block, t)) && m.sigOps >= Sum(SigOpsOf(p), Missing(p, block, t))
  {
    hide ModsOk;
    hide Priced;
    hide Decided;
    hide Fills;
    hide Streak;
    hide Covered;
    hide Dag;
    hide Exact;
    hide Sum;
    hide Missing;
    hide Judged;
    SumsSuffice(p, block, failed, mods, t);
    CoveredSums(p, block, failed, t, m);
    hits, f := JudgedNow(p, block, mods, t, m);
  }

  /** One package was taken. */
  lemma SelectsTaken(p: Pool, limit: nat, segwit: bool, before: set<Tx>, block: set<Tx>, mods: Mods, failed: set<Tx>,
                     order: seq<Tx>, mi: nat, chosen: seq<Tx>, failures: seq<Tx>, t: Tx, grown: set<Tx>, after: Mods)
    requires Dag(p) && Selecting(p, limit, segwit, before, block, mods, failed, order, mi, chosen, failures)
    requires t in p.entries && t !in block && grown == block + Missing(p, block, t) && ModsOk(p, grown, failed, after)
    requires UpdatedFor(p, Missing(p, block, t), mods - Missing(p, block, t), after)
    ensures Selecting(p, limit, segwit, before, grown, after, failed, order, mi, chosen + [t], [])
    ensures t in grown && block <= grown
  {
    hide ModsOk;
    hide Priced;
    hide Decided;
    hide Fills;
    hide Streak;
    hide UpdatedFor;
    hide Dag;
    hide Ancestors;
    MissingOutside(p, block, t);
    var added := Missing(p, block, t);
    assert t in added;
    hide Missing;
    PackageKeepsPriced(p, block, mods, added, after);
    DecidedTakes(p, limit, segwit, block, mods, failed, order, mi, added, after);
    FillsMore(p, before, chosen, block, t);
    StreakStarts(p, limit, segwit, grown);
  }

  /** One package did not fit. */
  lemma SelectsTooBig(p: Pool, limit: nat, segwit: bool, before: set<Tx>, block: set<Tx>, mods: Mods, failed: set<Tx>,
                      order: seq<Tx>, mi: nat, chosen: seq<Tx>, failures: seq<Tx>, t: Tx, m: Mod, hits: set<Tx>, f: Tx)
    requires Dag(p) && Selecting(p, limit, segwit, before, block, mods, failed, order, mi, chosen, failures)
    requires t in p.entries && t !in block && Covered(p, block, failed, t, m) && Judged(p, block, t, m, hits, f)
    requires !Room(p, limit, block, m.size, m.sigOps)
    ensures PassedOver(p, limit, segwit, block, t)
    ensures Selecting(p, limit, segwit, before, block, mods, failed, order, mi, chosen, failures + [t])
  {
    hide ModsOk;
    hide Priced;
    hide Decided;
    hide Fills;
    hide Streak;
    hide Covered;
    hide Judged;
    hide Room;
    hide PassedOver;
    hide Dag;
    TooBigPasses(p, limit, segwit, block, mods, failed, order, mi, t, m);
    StreakGrows(p, limit, segwit, block, failures, t, m, hits, f);
  }

  /** A modified entry that failed is erased and remembered. */
  lemma SelectsErased(p: Pool, limit: nat, segwit: bool, before: set<Tx>, block: set<Tx>, mods: Mods, failed: set<Tx>,
                      order: seq<Tx>, mi: nat, chosen: seq<Tx>, failures: seq<Tx>, t: Tx)
    requires Dag(p) && Selecting(p, limit, segwit, before, block, mods, failed, order, mi, chosen, failures)
    requires t in mods && PassedOver(p, limit, segwit, block, t)
    ensures Selecting(p, limit, segwit, before, block, mods - {t}, failed + {t}, order, mi, chosen, failures)
    ensures |mods - {t}| < |mods|
  {
    hide ModsOk;
    hide Priced;
    hide Decided;
    hide Fills;
    hide Streak;
    hide PassedOver;
    hide Dag;
    FailureKeeps(p, block, failed, mods, t);
    ErasePriced(p, block, mods, t);
    DecidedFails(p, limit, segwit, block, mods, failed, order, mi, t);
    EraseShrinks(mods, t);
  }

  /** What the outcome of the whole selection says. */
  ghost predicate Outcome(p: Pool, limit: nat, segwit: bool, minFee: int -> int, before: set<Tx>, block: set<Tx>, order: seq<Tx>,
                          chosen: seq<Tx>, failures: seq<Tx>, ending: Ending)
    requires Dag(p)
  {
    && before <= block && Fills(p, before, chosen, block)
    && (ending.Exhausted? ==> Complete(p, limit, segwit, block, order))
    && (ending.LowFee? ==> SomeUnderpaid(p, minFee, block))
    && (ending.GaveUp? ==> |failures| > MAX_CONSECUTIVE_FAILURES && Streak(p, limit, segwit, block, failures))
  }

  lemma SelectsLast(p: Pool, limit: nat, segwit: bool, minFee: int -> int, before: set<Tx>, block: set<Tx>, mods: Mods,
                    failed: set<Tx>, order: seq<Tx>, mi: nat, chosen: seq<Tx>, failures: seq<Tx>, ending: Ending)
    requires Dag(p) && Selecting(p, limit, segwit, before, block, mods, failed, order, mi, chosen, failures)
    requires ending.Exhausted? ==> mods == map[] && mi == |order|
    requires ending.LowFee? ==> SomeUnderpaid(p, minFee, block)
    requires ending.GaveUp? ==> |failures| > MAX_CONSECUTIVE_FAILURES
    ensures Outcome(p, limit, segwit, minFee, before, block, order, chosen, failures, ending)
  {
    hide ModsOk;
    hide Priced;
    hide Decided;
    hide Fills;
    hide Streak;
    hide Complete;
    hide SomeUnderpaid;
    hide Dag;
    if mods == map[] && mi == |order| {
      AllDecided(p, limit, segwit, block, failed, order);
    }
  }

  /** Where everything fits, may be included and pays enough, the selection takes the whole pool. */
  lemma TakesAll(p: Pool, limit: nat, segwit: bool, minFee: int -> int, before: set<Tx>, block: set<Tx>, order: seq<Tx>,
                 chosen: seq<Tx>, failures: seq<Tx>, ending: Ending)
    requires Dag(p) && Closed(p, block) && Outcome(p, limit, segwit, minFee, before, block, order, chosen, failures, ending)
    requires Roomy(p, limit, segwit) && AllPaid(p, minFee) && forall t :: t in p.entries ==> t in order
    ensures ending.Exhausted? && block == p.entries.Keys
  {
    assert block <= p.entries.Keys;
    hide Closed;
    hide Roomy;
    hide AllPaid;
    hide PassedOver;
    hide Underpaid;
    hide Unfit;
    hide Fills;
    hide NoFit;
    NothingStops(p, limit, segwit, minFee, block);
  }

  // ----- The order of the transactions in the block

  ghost function Members(vtx: seq<Tx>): set<Tx> {
    set x | x in vtx
  }

  /** Nothing twice, and every transaction after all it depends on. */
  ghost predicate Ordered(p: Pool, vtx: seq<Tx>)
    requires Dag(p)
  {
    && (forall i, j :: 0 <= i < j < |vtx| ==> vtx[i] != vtx[j])
    && (forall i :: 0 <= i < |vtx| ==> vtx[i] in p.entries && forall a :: a in Ancestors(p, vtx[i]) ==> a in vtx[..i])
  }

  predicate Precedes(p: Pool, a: Tx, b: Tx)
    requires a in p.entries && b in p.entries
  {
    var m, n := p.entries[a].countWithAncestors, p.entries[b].countWithAncestors;
    if m != n then m < n else a < b
  }

  ghost predicate SortedFor(p: Pool, package: set<Tx>, sorted: seq<Tx>) {
    && (forall x :: x in sorted <==> x in package)
    && (forall i :: 0 <= i < |sorted| ==> sorted[i] in p.entries)
    && (forall i, j :: 0 <= i < j < |sorted| ==> Precedes(p, sorted[i], sorted[j]))
  }

  /** The least member of a set in the order by ancestor count. */
  method Least(p: Pool, s: set<Tx>) returns (x: Tx)
    requires s != {} && forall y :: y in s ==> y in p.entries
    ensures x in s && forall y :: y in s && y != x ==> Precedes(p, x, y)
  {
    x :| x in s;
    var rest := s - {x};
    while rest != {}
      invariant x in s && rest <= s
      invariant forall y :: y in s && y !in rest && y != x ==> Precedes(p, x, y)
      decreases rest
    {
      var y :| y in rest;
      if Precedes(p, y, x) {
        x := y;
      }
      rest := rest - {y};
    }
  }

  /** The package in the order of ancestor counts. */
  method SortForBlock(p: Pool, package: set<Tx>) returns (sorted: seq<Tx>)
    requires forall y :: y in package ==> y in p.entries
    ensures SortedFor(p, package, sorted)
  {
    sorted := [];
    var rest := package;
    while rest != {}
      invariant rest <= package && forall x :: x in sorted <==> x in package && x !in rest
      invariant forall i :: 0 <= i < |sorted| ==> sorted[i] in p.entries
      invariant forall i, j :: 0 <= i < j < |sorted| ==> Precedes(p, sorted[i], sorted[j])
      invariant forall i, y :: 0 <= i < |sorted| && y in rest ==> Precedes(p, sorted[i], y)
      decreases rest
    {
      var x := Least(p, rest);
      sorted := sorted + [x];
      rest := rest - {x};
    }
  }

  /** Appending a sorted package keeps the order, because an ancestor has a smaller count. */
  lemma AppendPackage(p: Pool, vtx: seq<Tx>, t: Tx, sorted: seq<Tx>)
    requires Dag(p) && Exact(p) && Ordered(p, vtx) && t in p.entries
    requires SortedFor(p, Missing(p, Members(vtx), t), sorted)
    ensures Ordered(p, vtx + sorted)
  {
    hide Ancestors;
    hide Exact;
    hide Dag;
    var all := vtx + sorted;
    forall i, j | 0 <= i < j < |all| ensures all[i] != all[j] {
      if i < |vtx| <= j {
        assert all[j] in sorted;
      }
    }
    forall i, a | 0 <= i < |all| && a in Ancestors(p, all[i]) ensures a in all[..i] {
      if i < |vtx| {
        assert all[..i] == vtx[..i];
      } else {
        AppendedAfter(p, vtx, t, sorted, i - |vtx|, a);
        assert all[..i] == vtx + sorted[..i - |vtx|];
      }
    }
  }

  lemma AppendedAfter(p: Pool, vtx: seq<Tx>, t: Tx, sorted: seq<Tx>, i: int, a: Tx)
    requires Dag(p) && Exact(p) && t in p.entries && SortedFor(p, Missing(p, Members(vtx), t), sorted)
    requires 0 <= i < |sorted| && a in Ancestors(p, sorted[i])
    ensures a in vtx || a in sorted[..i]
  {
    hide Ancestors;
    hide Exact;
    hide Dag;
    var x := sorted[i];
    assert x in sorted;
    assert x in Package(p, t);
    if x != t {
      AncestorsTransitive(p, t, x, a);
    }
    assert a in Package(p, t);
    if a !in vtx {
      assert a in sorted;
      var j :| 0 <= j < |sorted| && sorted[j] == a;
      AncestorCounts(p, x, a);
      if j == i {
        AncestorsBelow(p, x, a);
      }
    }
  }

  lemma MembersAppend(vtx: seq<Tx>, x: Tx)
    ensures Members(vtx + [x]) == Members(vtx) + {x}
  {
  }

  lemma SumTogether(f: Tx -> nat, a: set<Tx>, b: set<Tx>)
    requires a !! b
    ensures Sum(f, a + b) == Sum(f, a) + Sum(f, b)
  {
    SumSplit(f, a + b, b);
    assert a + b - b == a;
  }

  /** A transaction under consideration is outside the block, and the sums by which it is judged do not fall short. */
  lemma SumsSuffice(p: Pool, block: set<Tx>, failed: set<Tx>, mods: Mods, t: Tx)
    requires Dag(p) && Exact(p) && ModsOk(p, block, failed, mods) && t in mods.Keys + (p.entries.Keys - block)
    ensures t in p.entries && t !in block
    ensures t in mods ==> Covered(p, block, failed, t, mods[t])
    ensures ModOf(p.entries[t]).size >= Sum(SizeOf(p), Missing(p, block, t))
    ensures ModOf(p.entries[t]).sigOps >= Sum(SigOpsOf(p), Missing(p, block, t))
    ensures t !in mods && t !in failed ==> Covered(p, block, failed, t, ModOf(p.entries[t]))
  {
    hide Exact;
    hide Sum;
    hide Ancestors;
    hide Dag;
    hide SizeOf;
    hide SigOpsOf;
    WholeCovers(p, block, t);
    if t !in mods && t !in failed {
      NothingThere(p, block, t);
    }
  }

  lemma FailureKeeps(p: Pool, block: set<Tx>, failed: set<Tx>, mods: Mods, t: Tx)
    requires Dag(p) && ModsOk(p, block, failed, mods)
    ensures ModsOk(p, block, failed + {t}, mods - {t})
  {
    hide Sum;
    hide Ancestors;
    hide Dag;
    hide SizeOf;
    hide SigOpsOf;
  }

  lemma NothingMods(p: Pool)
    requires Dag(p)
    ensures Closed(p, {}) && ModsOk(p, {}, {}, map[])
  {
    hide Ancestors;
    hide Dag;
  }

  lemma InitialMods(p: Pool, block: set<Tx>, mods: Mods)
    requires Dag(p) && Exact(p) && Closed(p, block) && UpdatedFor(p, block, map[], mods)
    ensures ModsOk(p, block, {}, mods)
  {
    hide *;
    var none: Mods := map[];
    NothingMods(p);
    assert none - block == none;
    assert {} + block == block;
    forall d | d in mods ensures d in p.entries && d !in block && Covered(p, block, {}, d, mods[d]) {
      ModAfterPackage(p, {}, {}, none, block, mods, d);
    }
    forall d | d in p.entries && d !in block && d !in mods ensures Ancestors(p, d) !! block {
      StillUntouched(p, {}, {}, none, block, mods, d);
    }
    FoldModsOk(p, block, {}, mods);
  }

  lemma EraseShrinks(mods: Mods, t: Tx)
    ensures t in mods ==> |mods - {t}| < |mods|
  {
    if t in mods {
      assert (mods - {t}).Keys == mods.Keys - {t};
    }
  }

  lemma MissingOutside(p: Pool, block: set<Tx>, t: Tx)
    requires Dag(p) && t in p.entries && t !in block
    ensures Missing(p, block, t) !! block && forall x :: x in Missing(p, block, t) ==> x in p.entries
  {
    forall x | x in Ancestors(p, t) ensures x in p.entries {
      AncestorsBelow(p, t, x);
    }
    hide Ancestors;
  }

  lemma MissingIs(p: Pool, block: set<Tx>, t: Tx, s: set<Tx>)
    requires Dag(p) && t in p.entries && t !in block && s == Ancestors(p, t) - block + {t}
    ensures s == Missing(p, block, t)
  {
    hide Ancestors;
  }

  /** The fees that the listed transactions pay. */
  function FeesOf(p: Pool, vtx: seq<Tx>): int {
    if vtx == [] then 0 else
      var last := vtx[|vtx| - 1];
      FeesOf(p, vtx[..|vtx| - 1]) + if last in p.entries then p.entries[last].fee else 0
  }

  lemma FeesAppend(p: Pool, vtx: seq<Tx>, t: Tx)
    requires t in p.entries
    ensures FeesOf(p, vtx + [t]) == FeesOf(p, vtx) + p.entries[t].fee
  {
    assert (vtx + [t])[..|vtx|] == vtx;
  }

  class BlockAssembler {
    const pool: Pool
    const nBlockMaxWeight: nat
    /** `blockMinFeeRate.GetFee`. */
    const minFee: int -> int
    var fIncludeWitness: bool
    var nBlockWeight: nat
    var nBlockSigOpsCost: nat
    var nBlockTx: nat
    var nFees: int
    var inBlock: set<Tx>
    var vtx: seq<Tx>

    /** The counters describe exactly the transactions of the block. */
    ghost predicate Counted()
      reads this
    {
      && Dag(pool) && Exact(pool)
      && inBlock == Members(vtx) && nBlockTx == |vtx|
      && nBlockWeight == COINBASE_WEIGHT + Sum(WeightOf(pool), inBlock)
      && nBlockSigOpsCost == COINBASE_SIGOPS + Sum(SigOpsOf(pool), inBlock)
      && nFees == FeesOf(pool, vtx)
    }

    /** A block template that validation can accept as far as order, size and signature operations go. */
    ghost predicate Valid()
      reads this
    {
      && Counted()
      && Closed(pool, inBlock) && Ordered(pool, vtx)
      && nBlockWeight <= nBlockMaxWeight && nBlockSigOpsCost < MAX_BLOCK_SIGOPS_COST
      && forall t :: t in inBlock ==> Includable(t)
    }

    predicate Includable(t: Tx)
      reads this
    {
      MayInclude(pool, fIncludeWitness, t)
    }

    /** The maximal weight is clamped between 4000 and the consensus limit less 4000. */
    constructor (pool: Pool, maxBlockWeight: nat, wantedWeight: nat, minFee: int -> int, fIncludeWitness: bool)
      requires Dag(pool) && Exact(pool)
      ensures Valid() && this.pool == pool && vtx == [] && this.fIncludeWitness == fIncludeWitness
      ensures nBlockMaxWeight >= COINBASE_WEIGHT
      ensures maxBlockWeight >= 8000 ==> nBlockMaxWeight <= maxBlockWeight - 4000
      ensures 4000 <= wantedWeight && wantedWeight + 4000 <= maxBlockWeight ==> nBlockMaxWeight == wantedWeight
    {
      this.pool := pool;
      this.minFee := minFee;
      this.fIncludeWitness := fIncludeWitness;
      var cap := if maxBlockWeight < 4000 then 0 else maxBlockWeight - 4000;
      var weight := if wantedWeight < cap then wantedWeight else cap;
      nBlockMaxWeight := if weight < 4000 then 4000 else weight;
      inBlock, vtx := {}, [];
      nBlockWeight, nBlockSigOpsCost, nBlockTx, nFees := 4000, 400, 0, 0;
    }

    method AddToBlock(iter: Tx)
      requires Counted() && iter in pool.entries && iter !in inBlock
      modifies this
      ensures Counted() && fIncludeWitness == old(fIncludeWitness)
      ensures vtx == old(vtx) + [iter] && inBlock == old(inBlock) + {iter}
    {
      hide FeesOf;
      hide Exact;
      hide Dag;
      hide Sum;
      hide Members;
      SumRemove(WeightOf(pool), inBlock + {iter}, iter);
      SumRemove(SigOpsOf(pool), inBlock + {iter}, iter);
      assert inBlock + {iter} - {iter} == inBlock;
      MembersAppend(vtx, iter);
      FeesAppend(pool, vtx, iter);
      vtx := vtx + [iter];
      nBlockWeight := nBlockWeight + pool.entries[iter].weight;
      nBlockTx := nBlockTx + 1;
      nBlockSigOpsCost := nBlockSigOpsCost + pool.entries[iter].sigOps;
      nFees := nFees + pool.entries[iter].fee;
      inBlock := inBlock + {iter};
    }

    predicate TestPackage(packageSize: int, packageSigOpsCost: int)
      reads this
    {
      && nBlockWeight + WITNESS_SCALE_FACTOR * packageSize < nBlockMaxWeight
      && nBlockSigOpsCost + packageSigOpsCost < MAX_BLOCK_SIGOPS_COST
    }

    /** The inner loop of `UpdatePackagesForAdded`: every descendant of `it` outside `alreadyAdded`. */
    method UpdateDescendants(alreadyAdded: set<Tx>, it: Tx, ghost done: set<Tx>, ghost before: Mods, mods: Mods)
      returns (after: Mods)
      requires Dag(pool) && it in pool.entries && it in alreadyAdded && it !in done
      requires Updated(pool, alreadyAdded, done, it, {}, before, mods)
      ensures Updated(pool, alreadyAdded, done, it, Descendants(pool, it), before, after)
    {
      hide Updated;
      hide Dag;
      after := mods;
      var descendants := CalculateDescendants(pool, it, {});
      assert {} + Descendants(pool, it) == Descendants(pool, it);
      var todo := descendants;
      ghost var reached := {};
      while todo != {}
        invariant todo <= descendants && reached == descendants - todo
        invariant Updated(pool, alreadyAdded, done, it, reached, before, after)
        decreases todo
      {
        var desc :| desc in todo;
        assert desc in pool.entries;
        if desc in alreadyAdded {
          SkipUpdates(pool, alreadyAdded, done, it, reached, desc, before, after);
        } else {
          TouchUpdates(pool, alreadyAdded, done, it, reached, desc, before, after);
          after := Touch(pool, after, it, desc);
        }
        todo := todo - {desc};
        assert descendants - todo == reached + {desc};
        reached := reached + {desc};
      }
      assert reached == descendants;
    }

    method UpdatePackagesForAdded(alreadyAdded: set<Tx>, mods: Mods) returns (after: Mods)
      requires Dag(pool) && forall t :: t in alreadyAdded ==> t in pool.entries
      ensures UpdatedFor(pool, alreadyAdded, mods, after)
    {
      hide Updated;
      hide UpdatedFor;
      hide Dag;
      after := mods;
      var todo := alreadyAdded;
      ghost var done := {};
      NothingReached(pool, alreadyAdded, mods);
      while todo != {}
        invariant todo <= alreadyAdded && done == alreadyAdded - todo
        invariant forall it :: Updated(pool, alreadyAdded, done, it, {}, mods, after)
        decreases todo
      {
        var it :| it in todo;
        after := UpdateDescendants(alreadyAdded, it, done, mods, after);
        forall next ensures Updated(pool, alreadyAdded, done + {it}, next, {}, mods, after) {
          AllReached(pool, alreadyAdded, done, it, next, mods, after);
        }
        todo := todo - {it};
        done := done + {it};
      }
      assert done == alreadyAdded;
      AllDone(pool, alreadyAdded, 0, mods, after);
    }

    /** Append the package, erasing its members from the modified set. */
    method IncludePackage(package: set<Tx>, sorted: seq<Tx>, mods: Mods) returns (after: Mods)
      requires Counted() && package !! inBlock && SortedFor(pool, package, sorted)
      modifies this
      ensures Counted() && fIncludeWitness == old(fIncludeWitness)
      ensures vtx == old(vtx) + sorted && inBlock == old(inBlock) + package
      ensures after == mods - package
    {
      hide FeesOf;
      hide Dag;
      hide Exact;
      hide WeightOf;
      hide SigOpsOf;
      hide Sum;
      after := mods;
      for i := 0 to |sorted|
        invariant Counted() && fIncludeWitness == old(fIncludeWitness)
        invariant vtx == old(vtx) + sorted[..i] && inBlock == old(inBlock) + Members(sorted[..i])
        invariant after == mods - Members(sorted[..i])
      {
        assert sorted[i] in sorted;
        assert sorted[i] !in sorted[..i] by {
          assert forall k :: 0 <= k < i ==> Precedes(pool, sorted[k], sorted[i]);
        }
        assert sorted[..i + 1] == sorted[..i] + [sorted[i]];
        MembersAppend(sorted[..i], sorted[i]);
        AddToBlock(sorted[i]);
        after := after - {sorted[i]};
      }
      assert sorted[..|sorted|] == sorted;
      assert Members(sorted) == package;
    }

    /** One accepted package: it goes into the block and its descendants are updated. */
    method AddPackage(iter: Tx, ancestors: set<Tx>, mods: Mods, ghost failed: set<Tx>, ghost size: int, ghost sigOps: int)
      returns (after: Mods)
      requires Valid() && ModsOk(pool, inBlock, failed, mods) && iter in pool.entries && iter !in inBlock
      requires ancestors == Missing(pool, inBlock, iter)
      requires size >= Sum(SizeOf(pool), ancestors) && sigOps >= Sum(SigOpsOf(pool), ancestors)
      requires TestPackage(size, sigOps) && forall t :: t in ancestors ==> Includable(t)
      modifies this
      ensures Valid() && ModsOk(pool, inBlock, failed, after)
      ensures fIncludeWitness == old(fIncludeWitness) && inBlock == old(inBlock) + ancestors
      ensures UpdatedFor(pool, ancestors, mods - ancestors, after)
    {
      hide FeesOf;
      hide Dag;
      hide Exact;
      hide Sum;
      hide Closed;
      hide ModsOk;
      hide Ancestors;
      hide Ordered;
      hide WeightOf;
      hide SigOpsOf;
      hide SizeOf;
      ghost var block := inBlock;
      MissingOutside(pool, block, iter);
      PackageWeighs(pool, block, iter, size);
      PackageCloses(pool, block, iter);
      hide Missing;
      var sorted := SortForBlock(pool, ancestors);
      AppendPackage(pool, vtx, iter, sorted);
      SumTogether(WeightOf(pool), block, ancestors);
      SumTogether(SigOpsOf(pool), block, ancestors);
      after := IncludePackage(ancestors, sorted, mods);
      hide SortedFor;
      after := UpdatePackagesForAdded(ancestors, after);
      PackageKeepsMods(pool, block, failed, mods, iter, after);
    }

    /** The tests on one candidate, and its package added if they are passed. */
    method Consider(iter: Tx, package: Mod, mods: Mods, ghost failed: set<Tx>) returns (v: Verdict, after: Mods)
      requires Valid() && ModsOk(pool, inBlock, failed, mods) && iter in pool.entries && iter !in inBlock
      requires package.size >= Sum(SizeOf(pool), Missing(pool, inBlock, iter))
      requires package.sigOps >= Sum(SigOpsOf(pool), Missing(pool, inBlock, iter))
      modifies this
      ensures Valid() && ModsOk(pool, inBlock, failed, after) && fIncludeWitness == old(fIncludeWitness)
      ensures v.Cheap? <==> package.modFees < minFee(package.size)
      ensures v.TooBig? <==> !v.Cheap? && !Room(pool, nBlockMaxWeight, old(inBlock), package.size, package.sigOps)
      ensures !v.Cheap? && !v.TooBig? ==>
                (v.NotAllowed? <==> exists x :: x in Missing(pool, old(inBlock), iter) && !MayInclude(pool, fIncludeWitness, x))
      ensures v.Taken? ==> inBlock == old(inBlock) + Missing(pool, old(inBlock), iter)
                           && UpdatedFor(pool, Missing(pool, old(inBlock), iter), mods - Missing(pool, old(inBlock), iter), after)
      ensures !v.Taken? ==> inBlock == old(inBlock) && nBlockWeight == old(nBlockWeight) && after == mods
    {
      hide FeesOf;
      hide Dag;
      hide Exact;
      hide Sum;
      hide ModsOk;
      hide Closed;
      hide Ordered;
      hide Ancestors;
      hide SizeOf;
      hide SigOpsOf;
      hide WeightOf;
      hide Members;
      hide UpdatedFor;
      if package.modFees < minFee(package.size) {
        return Cheap, mods;
      }
      if !TestPackage(package.size, package.sigOps) {
        return TooBig, mods;
      }
      var size := Size(pool, pool.entries[iter]);
      NothingRefused(pool, size, iter);
      var found := CalculateAncestors(pool, size, Linked(iter), NO_LIMITS);
      var ancestors := found.ancestors - inBlock;
      ancestors := ancestors + {iter};
      MissingIs(pool, inBlock, iter, ancestors);
      hide Missing;
      if !forall t :: t in ancestors ==> Includable(t) {
        return NotAllowed, mods;
      }
      after := AddPackage(iter, ancestors, mods, failed, package.size, package.sigOps);
      v := Taken;
    }

    /** One candidate, from the modified entries or the next of the order, judged and dealt with. */
    method Turn(iter: Tx, fUsingModified: bool, mods: Mods, failedTx: set<Tx>, ghost before: set<Tx>, ghost order: seq<Tx>,
                ghost mi: nat, ghost chosen: seq<Tx>, ghost failures: seq<Tx>)
      returns (v: Verdict, after: Mods, nowFailed: set<Tx>)
      requires Valid() && if fUsingModified then iter in mods else iter !in mods && iter !in inBlock && iter !in failedTx
      requires Selecting(pool, nBlockMaxWeight, fIncludeWitness, before, inBlock, mods, failedTx, order, mi, chosen, failures)
      requires !fUsingModified ==> mi < |order| && iter == order[mi] && iter in pool.entries
      modifies this
      ensures Valid() && fIncludeWitness == old(fIncludeWitness)
      ensures !v.Taken? ==> inBlock == old(inBlock)
      ensures v.Taken? ==> old(inBlock) <= inBlock && iter in inBlock && iter !in old(inBlock) && iter in pool.entries
      ensures v.Cheap? ==> SomeUnderpaid(pool, minFee, inBlock)
      ensures !v.Taken? && fUsingModified ==> v.Cheap? || |after| < |mods|
      ensures !v.Taken? && !fUsingModified ==> after == mods
      ensures Selecting(pool, nBlockMaxWeight, fIncludeWitness, before, inBlock, after, nowFailed, order,
                        if v.Cheap? || fUsingModified then mi else mi + 1,
                        if v.Taken? then chosen + [iter] else chosen,
                        if v.Taken? then [] else if v.TooBig? then failures + [iter] else failures)
    {
      hide FeesOf;
      hide Dag;
      hide Exact;
      hide Sum;
      hide ModsOk;
      hide Closed;
      hide Ordered;
      hide Ancestors;
      hide SizeOf;
      hide SigOpsOf;
      hide WeightOf;
      hide Members;
      hide Judged;
      hide Room;
      hide MayInclude;
      hide UpdatedFor;
      hide Covered;
      hide PassedOver;
      hide Missing;
      hide Selecting;
      hide SomeUnderpaid;
      nowFailed := failedTx;
      ghost var block, list := inBlock, failures;
      var package := if fUsingModified then mods[iter] else ModOf(pool.entries[iter]);
      ghost var hits, f := Candidate(pool, nBlockMaxWeight, fIncludeWitness, before, block, mods, failedTx, order, mi,
                                     chosen, failures, iter, package);
      v, after := Consider(iter, package, mods, failedTx);
      if v.Cheap? {
        CheapIsUnderpaid(pool, minFee, block, iter, package, hits, f);
        return;
      }
      if v.Taken? {
        SelectsTaken(pool, nBlockMaxWeight, fIncludeWitness, before, block, mods, failedTx, order, mi, chosen, failures,
                     iter, inBlock, after);
        if !fUsingModified {
          SelectsNext(pool, nBlockMaxWeight, fIncludeWitness, before, inBlock, after, failedTx, order, mi, chosen + [iter],
                      []);
        }
        return;
      }
      if v.TooBig? {
        SelectsTooBig(pool, nBlockMaxWeight, fIncludeWitness, before, block, mods, failedTx, order, mi, chosen, failures,
                      iter, package, hits, f);
        list := failures + [iter];
      } else {
        NotAllowedPasses(pool, nBlockMaxWeight, fIncludeWitness, block, iter);
      }
      if fUsingModified {
        SelectsErased(pool, nBlockMaxWeight, fIncludeWitness, before, block, mods, failedTx, order, mi, chosen, list, iter);
        after := after - {iter};
        nowFailed := nowFailed + {iter};
      } else {
        SelectsNext(pool, nBlockMaxWeight, fIncludeWitness, before, block, mods, failedTx, order, mi, chosen, list);
      }
    }

    /** The next of the order, unless it is exhausted or a modified entry scores better. */
    method NextCandidate(order: seq<Tx>, mi: nat, mods: Mods) returns (iter: Tx, fUsingModified: bool, next: nat)
      requires mi < |order| || (mi == |order| && mods != map[])
      ensures fUsingModified ==> iter in mods && next == mi
      ensures !fUsingModified ==> mi < |order| && iter == order[mi] && next == mi + 1
    {
      if mi == |order| {
        iter :| iter in mods;
        return iter, true, mi;
      }
      var modifiedScoresBetter: bool := *;
      if mods != map[] && modifiedScoresBetter {
        iter :| iter in mods;
        return iter, true, mi;
      }
      return order[mi], false, mi + 1;
    }

    /** `addPackageTxs`: walk the pool in the given order, or the modified entries, whichever scores better; the scores
        themselves are left open. If the pool is exhausted, everything listed is in the block or was turned down by what
        it missed at a part of the block. */
    method AddPackageTxs(order: seq<Tx>)
      returns (nPackagesSelected: nat, ghost chosen: seq<Tx>, ghost ending: Ending, ghost failures: seq<Tx>)
      requires Valid() && forall i :: 0 <= i < |order| ==> order[i] in pool.entries
      modifies this
      ensures Valid() && old(inBlock) <= inBlock && fIncludeWitness == old(fIncludeWitness)
      ensures inBlock == Members(vtx) && Closed(pool, inBlock) && Ordered(pool, vtx)
      ensures COINBASE_WEIGHT + Sum(WeightOf(pool), inBlock) <= nBlockMaxWeight
      ensures COINBASE_SIGOPS + Sum(SigOpsOf(pool), inBlock) < MAX_BLOCK_SIGOPS_COST
      ensures Outcome(pool, nBlockMaxWeight, fIncludeWitness, minFee, old(inBlock), inBlock, order, chosen, failures, ending)
      ensures nPackagesSelected == |chosen| && (ending.GaveUp? ==> nBlockWeight > nBlockMaxWeight - 4000)
    {
      hide FeesOf;
      hide Dag;
      hide Sum;
      hide ModsOk;
      hide Closed;
      hide Ordered;
      hide Ancestors;
      hide SizeOf;
      hide SigOpsOf;
      hide WeightOf;
      hide Members;
      hide Priced;
      hide Judged;
      hide Room;
      hide UpdatedFor;
      hide Outcome;
      hide Covered;
      hide PassedOver;
      hide Missing;
      hide Selecting;
      hide SomeUnderpaid;
      hide Exact;
      ghost var before := inBlock;
      var mapModifiedTx: Mods := map[];
      var failedTx: set<Tx> := {};
      nPackagesSelected, chosen, failures, ending := 0, [], [], Exhausted;
      mapModifiedTx := UpdatePackagesForAdded(inBlock, mapModifiedTx);
      hide MayInclude;
      SelectsFirst(pool, nBlockMaxWeight, fIncludeWitness, inBlock, mapModifiedTx, order);
      var mi := 0;
      ghost var looked := mi;
      var nConsecutiveFailed := 0;
      while mi < |order| || mapModifiedTx != map[]
        invariant 0 <= mi <= |order| && looked == mi && ending.Exhausted?
        invariant Valid() && fIncludeWitness == old(fIncludeWitness)
        invariant Selecting(pool, nBlockMaxWeight, fIncludeWitness, before, inBlock, mapModifiedTx, failedTx, order, mi, chosen, failures)
        invariant nPackagesSelected == |chosen| && nConsecutiveFailed == |failures|
        decreases pool.entries.Keys - inBlock, |order| - mi + |mapModifiedTx|
      {
        if mi < |order| && (order[mi] in mapModifiedTx || order[mi] in inBlock || order[mi] in failedTx) {
          SelectsNext(pool, nBlockMaxWeight, fIncludeWitness, before, inBlock, mapModifiedTx, failedTx, order, looked,
                      chosen, failures);
          mi := mi + 1;
          looked := mi;
          continue;
        }
        var iter, fUsingModified, next := NextCandidate(order, mi, mapModifiedTx);
        mi := next;
        var v: Verdict;
        v, mapModifiedTx, failedTx := Turn(iter, fUsingModified, mapModifiedTx, failedTx, before, order, looked, chosen,
                                           failures);
        if v.Cheap? {
          ending := LowFee;
          break;
        }
        if v.Taken? {
          chosen, failures, nConsecutiveFailed := chosen + [iter], [], 0;
          nPackagesSelected := nPackagesSelected + 1;
        } else if v.TooBig? {
          failures, nConsecutiveFailed := failures + [iter], nConsecutiveFailed + 1;
          if nConsecutiveFailed > MAX_CONSECUTIVE_FAILURES && nBlockWeight > nBlockMaxWeight - 4000 {
            ending := GaveUp;
            looked := mi;
            break;
          }
        }
        looked := mi;
      }
      SelectsLast(pool, nBlockMaxWeight, fIncludeWitness, minFee, before, inBlock, mapModifiedTx, failedTx, order, looked,
                  chosen, failures, ending);
    }
  }

  /** What becomes of one candidate. */
  datatype Verdict = Cheap | TooBig | NotAllowed | Taken
}
