/** The memory pool as the block assembler sees it: a finite directed acyclic graph of transactions. */
module Mempool {

  /** A transaction, by its place in the order of transaction hashes. */
  type Tx = nat

  /** The last six fields are the cached sums over the transaction and its ancestors, or its descendants. */
  datatype Entry = Entry(
    weight: nat, sigOps: nat, fee: int, modFee: int, isFinal: bool, hasWitness: bool,
    countWithAncestors: nat, sizeWithAncestors: nat, sigOpsWithAncestors: nat, modFeesWithAncestors: int,
    countWithDescendants: nat, sizeWithDescendants: nat)

  /** `depth` witnesses that the parent relation has no cycle. */
  datatype Pool = Pool(entries: map<Tx, Entry>, parents: map<Tx, set<Tx>>, depth: map<Tx, nat>, bytesPerSigOp: nat)

  ghost predicate Dag(p: Pool) {
    && p.parents.Keys == p.entries.Keys && p.depth.Keys == p.entries.Keys
    && forall t, q :: t in p.entries && q in p.parents[t] ==> q in p.entries && p.depth[q] < p.depth[t]
  }

  /** The virtual size: a quarter of the weight, or of the weight its signature operations count for, rounded up. */
  function Size(p: Pool, e: Entry): (size: nat)
    ensures e.weight <= 4 * size && e.sigOps * p.bytesPerSigOp <= 4 * size
    ensures 4 * size < e.weight + 4 || 4 * size < e.sigOps * p.bytesPerSigOp + 4
  {
    var sigWeight := e.sigOps * p.bytesPerSigOp;
    ((if e.weight < sigWeight then sigWeight else e.weight) + 3) / 4
  }

  /** All transactions that `t` depends on. */
  ghost function Ancestors(p: Pool, t: Tx): set<Tx>
    requires Dag(p) && t in p.entries
    decreases p.depth[t]
  {
    set q, a | q in p.parents[t] && a in {q} + Ancestors(p, q) :: a
  }

  ghost function Descendants(p: Pool, t: Tx): set<Tx>
    requires Dag(p)
  {
    set d | d in p.entries && (d == t || t in Ancestors(p, d))
  }

  /** A transaction with everything it depends on. */
  ghost function Package(p: Pool, t: Tx): set<Tx>
    requires Dag(p) && t in p.entries
  {
    Ancestors(p, t) + {t}
  }

  lemma {:induction false} AncestorsBelow(p: Pool, t: Tx, a: Tx)
    requires Dag(p) && t in p.entries && a in Ancestors(p, t)
    ensures a in p.entries && p.depth[a] < p.depth[t]
    decreases p.depth[t]
  {
    var q :| q in p.parents[t] && a in {q} + Ancestors(p, q);
    if a != q {
      AncestorsBelow(p, q, a);
    }
  }

  lemma ParentIsAncestor(p: Pool, t: Tx, q: Tx)
    requires Dag(p) && t in p.entries && q in p.parents[t]
    ensures q in Ancestors(p, t)
  {
    assert q in {q} + Ancestors(p, q);
  }

  lemma ParentsAreAncestors(p: Pool, t: Tx)
    requires Dag(p) && t in p.entries
    ensures p.parents[t] <= Ancestors(p, t)
  {
    hide Ancestors;
    forall q | q in p.parents[t] ensures q in Ancestors(p, t) {
      ParentIsAncestor(p, t, q);
    }
  }

  lemma {:induction false} AncestorsTransitive(p: Pool, t: Tx, a: Tx, b: Tx)
    requires Dag(p) && t in p.entries && a in Ancestors(p, t) && a in p.entries && b in Ancestors(p, a)
    ensures b in Ancestors(p, t)
    decreases p.depth[t]
  {
    var q :| q in p.parents[t] && a in {q} + Ancestors(p, q);
    if a != q {
      AncestorsTransitive(p, q, a, b);
    }
    assert b in {q} + Ancestors(p, q);
  }

  /** The members of `s` and everything they depend on. */
  ghost function Above(p: Pool, s: set<Tx>): set<Tx>
    requires Dag(p) && s <= p.entries.Keys
  {
    set a | a in p.entries && (a in s || exists q :: q in s && a in Ancestors(p, q))
  }

  lemma AboveParents(p: Pool, t: Tx)
    requires Dag(p) && t in p.entries
    ensures Above(p, p.parents[t]) == Ancestors(p, t)
  {
    forall a ensures a in Above(p, p.parents[t]) <==> a in Ancestors(p, t) {
      if a in Ancestors(p, t) {
        AncestorsBelow(p, t, a);
        var q :| q in p.parents[t] && a in {q} + Ancestors(p, q);
      } else if a in p.parents[t] {
        ParentsAreAncestors(p, t);
      } else if a in Above(p, p.parents[t]) {
        var q :| q in p.parents[t] && a in Ancestors(p, q);
        assert a in {q} + Ancestors(p, q);
      }
    }
  }

  lemma AboveClosed(p: Pool, s: set<Tx>, a: Tx, b: Tx)
    requires Dag(p) && s <= p.entries.Keys && a in Above(p, s) && b in p.parents[a]
    ensures b in Above(p, s)
  {
    hide Ancestors;
    ParentsAreAncestors(p, a);
    if a !in s {
      var q :| q in s && a in Ancestors(p, q);
      AncestorsTransitive(p, q, a, b);
    }
  }

  /** A set that holds the parents of each of its members holds every ancestor of each of them. */
  lemma {:induction false} ClosedHoldsAncestors(p: Pool, t: Tx, s: set<Tx>, a: Tx)
    requires Dag(p) && t in p.entries && p.parents[t] <= s && a in Ancestors(p, t)
    requires forall x :: x in s ==> x in p.entries && p.parents[x] <= s
    ensures a in s
    decreases p.depth[t]
  {
    var q :| q in p.parents[t] && a in {q} + Ancestors(p, q);
    if a != q {
      ClosedHoldsAncestors(p, q, s, a);
    }
  }

  lemma ClosedHoldsAbove(p: Pool, s: set<Tx>, c: set<Tx>)
    requires Dag(p) && s <= c <= p.entries.Keys
    requires forall x :: x in c ==> p.parents[x] <= c
    ensures Above(p, s) <= c
  {
    hide Ancestors;
    forall a | a in Above(p, s) ensures a in c {
      if a !in s {
        var q :| q in s && a in Ancestors(p, q);
        ClosedHoldsAncestors(p, q, c, a);
      }
    }
  }

  lemma {:induction false} ClosedHoldsDescendants(p: Pool, t: Tx, d: Tx, s: set<Tx>)
    requires Dag(p) && d in p.entries && t in Ancestors(p, d) && t in s
    requires forall x, c :: x in s && c in p.entries && x in p.parents[c] ==> c in s
    ensures d in s
    decreases p.depth[d]
  {
    var q :| q in p.parents[d] && t in {q} + Ancestors(p, q);
    if t != q {
      ClosedHoldsDescendants(p, t, q, s);
    }
  }

  /** Adds the descendants of `t`, itself among them, to a set that already holds the children of its members: a
      worklist over the child links that does not walk those again. */
  method CalculateDescendants(p: Pool, t: Tx, known: set<Tx>) returns (descendants: set<Tx>)
    requires Dag(p) && t in p.entries
    requires forall x, c :: x in known && c in p.entries && x in p.parents[c] ==> c in known
    ensures descendants == known + Descendants(p, t)
  {
    hide Ancestors;
    hide Descendants;
    descendants := known;
    DescendantCases(p, t, t);
    var stage := if t in descendants then {} else {t};
    while stage != {}
      invariant descendants !! stage && t in descendants + stage && known <= descendants
      invariant forall x :: x in descendants + stage ==> x in known || x in Descendants(p, t)
      invariant forall x :: x in stage ==> x in p.entries && x !in known
      invariant forall x, c :: x in descendants && c in p.entries && x in p.parents[c] ==> c in descendants + stage
      decreases p.entries.Keys - descendants
    {
      var x :| x in stage;
      var children := set c | c in p.entries && x in p.parents[c];
      forall c | c in children ensures c in known || c in Descendants(p, t) {
        if x !in known {
          ChildDescends(p, t, x, c);
        }
      }
      descendants := descendants + {x};
      stage := stage - {x} + (children - descendants);
    }
    forall d | d in Descendants(p, t) ensures d in descendants {
      DescendantCases(p, t, d);
      if d != t {
        ClosedHoldsDescendants(p, t, d, descendants);
      }
    }
  }

  lemma ChildDescends(p: Pool, t: Tx, x: Tx, c: Tx)
    requires Dag(p) && x in Descendants(p, t) && c in p.entries && x in p.parents[c]
    ensures c in Descendants(p, t)
  {
    assert t in {x} + Ancestors(p, x);
  }

  lemma DescendantCases(p: Pool, t: Tx, d: Tx)
    requires Dag(p) && t in p.entries
    ensures d in Descendants(p, t) <==> d in p.entries && (d == t || t in Ancestors(p, d))
  {
    hide Ancestors;
  }

  // ----- Sums over sets of transactions

  ghost function Sum(f: Tx -> nat, s: set<Tx>): nat
  {
    if s == {} then 0 else
      var x :| x in s;
      f(x) + Sum(f, s - {x})
  }

  lemma {:induction false} SumRemove(f: Tx -> nat, s: set<Tx>, x: Tx)
    requires x in s
    ensures Sum(f, s) == f(x) + Sum(f, s - {x})
  {
    var y :| y in s && Sum(f, s) == f(y) + Sum(f, s - {y});
    if y != x {
      SumRemove(f, s - {y}, x);
      SumRemove(f, s - {x}, y);
      assert s - {y} - {x} == s - {x} - {y};
    }
  }

  lemma {:induction false} SumSplit(f: Tx -> nat, s: set<Tx>, part: set<Tx>)
    requires part <= s
    ensures Sum(f, s) == Sum(f, s - part) + Sum(f, part)
  {
    if part == {} {
      assert s - part == s;
    } else {
      var x :| x in part;
      SumSplit(f, s - {x}, part - {x});
      SumRemove(f, s, x);
      SumRemove(f, part, x);
      assert s - {x} - (part - {x}) == s - part;
    }
  }

  lemma {:induction false} SumBound(f: Tx -> nat, g: Tx -> nat, s: set<Tx>, k: nat)
    requires forall x :: x in s ==> f(x) <= k * g(x)
    ensures Sum(f, s) <= k * Sum(g, s)
  {
    if s != {} {
      var x :| x in s;
      SumBound(f, g, s - {x}, k);
      SumRemove(f, s, x);
      SumRemove(g, s, x);
      assert k * (g(x) + Sum(g, s - {x})) == k * g(x) + k * Sum(g, s - {x});
    }
  }

  function SizeOf(p: Pool): Tx -> nat {
    t => if t in p.entries then Size(p, p.entries[t]) else 0
  }

  function SigOpsOf(p: Pool): Tx -> nat {
    t => if t in p.entries then p.entries[t].sigOps else 0
  }

  function WeightOf(p: Pool): Tx -> nat {
    t => if t in p.entries then p.entries[t].weight else 0
  }

  /** The pool's cached counts and sums are right. */
  ghost predicate Exact(p: Pool) {
    && Dag(p)
    && forall t :: t in p.entries ==>
         && p.entries[t].countWithAncestors == |Ancestors(p, t)| + 1
         && p.entries[t].sizeWithAncestors == Sum(SizeOf(p), Package(p, t))
         && p.entries[t].sigOpsWithAncestors == Sum(SigOpsOf(p), Package(p, t))
  }

  /** An ancestor has a smaller ancestor count. */
  lemma AncestorCounts(p: Pool, t: Tx, a: Tx)
    requires Exact(p) && t in p.entries && a in Ancestors(p, t)
    ensures a in p.entries && p.entries[a].countWithAncestors < p.entries[t].countWithAncestors
  {
    AncestorsBelow(p, t, a);
    forall b | b in Ancestors(p, a) ensures b in Ancestors(p, t) {
      AncestorsTransitive(p, t, a, b);
    }
    if a in Ancestors(p, a) {
      AncestorsBelow(p, a, a);
    }
    ProperSubset(Ancestors(p, a), Ancestors(p, t), a);
  }

  lemma ProperSubset(a: set<Tx>, b: set<Tx>, x: Tx)
    requires a <= b && x in b && x !in a
    ensures |a| < |b|
  {
    assert b == a + (b - a);
    assert x in b - a;
  }

  // ----- The ancestors of an entry, within limits

  /** The largest 64-bit number stands for no limit at all. */
  datatype Limit = AtMost(n: nat) | Unlimited

  predicate Exceeds(n: nat, limit: Limit) {
    limit.AtMost? && n > limit.n
  }

  datatype Limits = Limits(ancestorCount: Limit, ancestorSize: Limit, descendantCount: Limit, descendantSize: Limit)

  const NO_LIMITS := Limits(Unlimited, Unlimited, Unlimited, Unlimited)

  /** Where the parents come from: the inputs of a transaction, or the links of an entry of the pool. */
  datatype Origin = Inputs(vin: seq<Tx>) | Linked(t: Tx)

  datatype Refusal =
    | TooManyParents
    | DescendantSize(t: Tx)
    | TooManyDescendants(t: Tx)
    | AncestorSize
    | TooManyAncestors

  datatype Search = Within(ancestors: set<Tx>) | Refused(reason: Refusal)

  ghost predicate Known(p: Pool, o: Origin) {
    o.Linked? ==> o.t in p.entries
  }

  ghost function Direct(p: Pool, o: Origin): (s: set<Tx>)
    requires Dag(p) && Known(p, o)
    ensures s <= p.entries.Keys
  {
    match o
    case Inputs(vin) => set t | t in vin && t in p.entries
    case Linked(t) => p.parents[t]
  }

  ghost function AllAbove(p: Pool, o: Origin): (s: set<Tx>)
    requires Dag(p) && Known(p, o)
    ensures Direct(p, o) <= s <= p.entries.Keys
  {
    Above(p, Direct(p, o))
  }

  predicate Burdened(p: Pool, size: nat, limits: Limits, a: Tx)
    requires a in p.entries
  {
    || Exceeds(p.entries[a].sizeWithDescendants + size, limits.descendantSize)
    || Exceeds(p.entries[a].countWithDescendants + 1, limits.descendantCount)
  }

  /** No member of `s` gets too many descendants. */
  ghost predicate NoneBurdened(p: Pool, size: nat, limits: Limits, s: set<Tx>) {
    forall a :: a in s && a in p.entries ==> !Burdened(p, size, limits, a)
  }

  /** Some member of `s` has parents. */
  ghost predicate HasParents(p: Pool, s: set<Tx>) {
    exists a :: a in s && a in p.parents && p.parents[a] != {}
  }

  /** Whether the number of ancestors is ever compared with its limit. */
  ghost predicate CountTested(p: Pool, o: Origin)
    requires Dag(p) && Known(p, o)
  {
    (o.Inputs? && Direct(p, o) != {}) || HasParents(p, AllAbove(p, o))
  }

  /** What the limits are documented to mean; the transaction itself counts among its ancestors. */
  ghost predicate WithinLimits(p: Pool, size: nat, o: Origin, limits: Limits)
    requires Dag(p) && Known(p, o)
  {
    Fits(p, size, limits, AllAbove(p, o))
  }

  ghost predicate Fits(p: Pool, size: nat, limits: Limits, all: set<Tx>) {
    && NoneBurdened(p, size, limits, all)
    && !Exceeds(size + Sum(SizeOf(p), all), limits.ancestorSize)
    && !Exceeds(|all| + 1, limits.ancestorCount)
  }

  /** What the code tests: without ancestors nothing, and the count only where `CountTested` says so. */
  ghost predicate Admitted(p: Pool, size: nat, o: Origin, limits: Limits)
    requires Dag(p) && Known(p, o)
  {
    Passes(p, size, limits, AllAbove(p, o), CountTested(p, o))
  }

  ghost predicate Passes(p: Pool, size: nat, limits: Limits, all: set<Tx>, tested: bool) {
    && NoneBurdened(p, size, limits, all)
    && (all != {} ==> !Exceeds(size + Sum(SizeOf(p), all), limits.ancestorSize))
    && (tested ==> !Exceeds(|all| + 1, limits.ancestorCount))
  }

  /** The reason given for a refusal is true. */
  ghost predicate Justified(p: Pool, size: nat, o: Origin, limits: Limits, reason: Refusal)
    requires Dag(p) && Known(p, o)
  {
    var all := AllAbove(p, o);
    match reason
    case TooManyParents => o.Inputs? && Direct(p, o) != {} && Exceeds(|Direct(p, o)| + 1, limits.ancestorCount)
    case DescendantSize(a) => a in all && Exceeds(p.entries[a].sizeWithDescendants + size, limits.descendantSize)
    case TooManyDescendants(a) => a in all && Exceeds(p.entries[a].countWithDescendants + 1, limits.descendantCount)
    case AncestorSize => all != {} && Exceeds(size + Sum(SizeOf(p), all), limits.ancestorSize)
    case TooManyAncestors => CountTested(p, o) && Exceeds(|all| + 1, limits.ancestorCount)
  }

  lemma SubsetSize(a: set<Tx>, b: set<Tx>)
    requires a <= b
    ensures |a| <= |b|
  {
    assert b == a + (b - a);
  }

  lemma SumGrows(f: Tx -> nat, a: set<Tx>, b: set<Tx>)
    requires a <= b
    ensures Sum(f, a) <= Sum(f, b)
  {
    SumSplit(f, b, a);
  }

  lemma JustifiedRefusal(p: Pool, size: nat, o: Origin, limits: Limits, reason: Refusal)
    requires Dag(p) && Known(p, o) && Justified(p, size, o, limits, reason)
    ensures !Admitted(p, size, o, limits)
  {
    hide Sum;
    hide Above;
    hide HasParents;
    hide Direct;
    hide AllAbove;
    if reason.TooManyParents? {
      SubsetSize(Direct(p, o), AllAbove(p, o));
    }
  }

  /** The parents among the inputs; refused as soon as they are too many. */
  method FindParents(p: Pool, vin: seq<Tx>, limit: Limit) returns (ok: bool, parents: set<Tx>)
    ensures parents <= set t | t in vin && t in p.entries
    ensures ok ==> parents == set t | t in vin && t in p.entries
    ensures ok && parents != {} ==> !Exceeds(|parents| + 1, limit)
    ensures !ok ==> parents != {} && Exceeds(|parents| + 1, limit)
  {
    parents := {};
    for i := 0 to |vin|
      invariant parents == set t | t in vin[..i] && t in p.entries
      invariant parents != {} ==> !Exceeds(|parents| + 1, limit)
    {
      assert forall t :: t in vin[..i + 1] <==> t in vin[..i] || t == vin[i];
      if vin[i] in p.entries {
        parents := parents + {vin[i]};
        if Exceeds(|parents| + 1, limit) {
          assert forall t :: t in vin[..i + 1] ==> t in vin;
          return false, parents;
        }
      }
    }
    assert vin[..|vin|] == vin;
    ok := true;
  }

  // ----- The work list

  predicate TooMany(ancestors: set<Tx>, stage: set<Tx>, limit: Limit) {
    Exceeds(|stage| + |ancestors| + 1, limit)
  }

  /** The parents `more` of one more ancestor join the work list unless they were visited. */
  method StageParents(ancestors: set<Tx>, before: set<Tx>, more: set<Tx>, limit: Limit) returns (ok: bool, stage: set<Tx>)
    requires ancestors !! before
    ensures stage <= before + (more - ancestors)
    ensures ok ==> stage == before + (more - ancestors) && (more != {} ==> !TooMany(ancestors, stage, limit))
    ensures !ok ==> more != {} && TooMany(ancestors, stage, limit)
  {
    stage := before;
    var todo := more;
    assert stage == Staged(ancestors, before, more, todo);
    hide *;
    while todo != {}
      invariant todo <= more && stage == Staged(ancestors, before, more, todo)
      invariant todo != more ==> !TooMany(ancestors, stage, limit)
    {
      var q :| q in todo;
      StageOne(ancestors, before, more, todo, q);
      todo := todo - {q};
      if q !in ancestors {
        stage := stage + {q};
      }
      if TooMany(ancestors, stage, limit) {
        return false, stage;
      }
    }
    StageAll(ancestors, before, more);
    ok := true;
  }

  /** The work list when the parents in `todo` are still to be looked at. */
  ghost function Staged(ancestors: set<Tx>, before: set<Tx>, more: set<Tx>, todo: set<Tx>): set<Tx> {
    before + (more - todo - ancestors)
  }

  lemma StageOne(ancestors: set<Tx>, before: set<Tx>, more: set<Tx>, todo: set<Tx>, q: Tx)
    requires q in todo && todo <= more
    ensures todo - {q} != more
    ensures Staged(ancestors, before, more, todo - {q}) ==
            Staged(ancestors, before, more, todo) + (if q in ancestors then {} else {q})
    ensures Staged(ancestors, before, more, todo - {q}) <= before + (more - ancestors)
  {
    assert q !in todo - {q};
  }

  lemma StageAll(ancestors: set<Tx>, before: set<Tx>, more: set<Tx>)
    ensures Staged(ancestors, before, more, {}) == before + (more - ancestors)
  {
  }

  /** `ancestors` are visited, `stage` is still to come, and nothing outside `all` is ever met. */
  ghost predicate Walking(p: Pool, direct: set<Tx>, all: set<Tx>, ancestors: set<Tx>, stage: set<Tx>) {
    && ancestors !! stage && ancestors <= all && stage <= all && direct <= ancestors + stage
    && forall x :: x in ancestors && x in p.parents ==> p.parents[x] <= ancestors + stage
  }

  ghost predicate Tallied(p: Pool, size: nat, limits: Limits, ancestors: set<Tx>, total: nat) {
    && NoneBurdened(p, size, limits, ancestors) && total == size + Sum(SizeOf(p), ancestors)
    && (ancestors != {} ==> !Exceeds(total, limits.ancestorSize))
  }

  /** The last comparison of the count, if there was one. */
  ghost predicate Counting(p: Pool, many: bool, ancestors: set<Tx>, stage: set<Tx>, limit: Limit) {
    many || HasParents(p, ancestors) ==> !TooMany(ancestors, stage, limit)
  }

  /** Nothing that the walk meets leaves `all`. */
  ghost predicate Upward(p: Pool, direct: set<Tx>, all: set<Tx>) {
    && p.parents.Keys == p.entries.Keys && direct <= all <= p.entries.Keys
    && forall a :: a in all ==> p.parents[a] <= all
  }

  lemma AllUpward(p: Pool, o: Origin)
    requires Dag(p) && Known(p, o)
    ensures Upward(p, Direct(p, o), AllAbove(p, o))
  {
    var s := Direct(p, o);
    forall a, b | a in Above(p, s) && b in p.parents[a] ensures b in Above(p, s) {
      AboveClosed(p, s, a, b);
    }
  }

  lemma WalkStep(p: Pool, direct: set<Tx>, all: set<Tx>, ancestors: set<Tx>, stage: set<Tx>, x: Tx)
    requires Upward(p, direct, all) && Walking(p, direct, all, ancestors, stage) && x in stage
    ensures x in p.entries && x in p.parents && x !in ancestors && p.parents[x] <= all
    ensures var v := ancestors + {x}; Walking(p, direct, all, v, stage - {x} + (p.parents[x] - v))
  {
    var v := ancestors + {x};
    var next := stage - {x} + (p.parents[x] - v);
    assert v + next == ancestors + stage + p.parents[x];
  }

  lemma TallyStep(p: Pool, size: nat, limits: Limits, ancestors: set<Tx>, total: nat, x: Tx)
    requires Tallied(p, size, limits, ancestors, total) && x !in ancestors && x in p.entries
    requires !Exceeds(p.entries[x].sizeWithDescendants + size, limits.descendantSize)
    requires !Exceeds(p.entries[x].countWithDescendants + 1, limits.descendantCount)
    requires !Exceeds(total + Size(p, p.entries[x]), limits.ancestorSize)
    ensures Tallied(p, size, limits, ancestors + {x}, total + Size(p, p.entries[x]))
  {
    SumAdd(p, ancestors, x);
    hide Sum;
    hide Size;
    hide Exceeds;
  }

  lemma SumAdd(p: Pool, s: set<Tx>, x: Tx)
    requires x !in s && x in p.entries
    ensures Sum(SizeOf(p), s + {x}) == Sum(SizeOf(p), s) + Size(p, p.entries[x])
  {
    SumRemove(SizeOf(p), s + {x}, x);
    assert s + {x} - {x} == s;
  }

  lemma CountStep(p: Pool, many: bool, ancestors: set<Tx>, stage: set<Tx>, limit: Limit, x: Tx, next: set<Tx>)
    requires Counting(p, many, ancestors, stage, limit) && x in stage && x !in ancestors && x in p.parents
    requires next == stage - {x} + (p.parents[x] - (ancestors + {x}))
    requires p.parents[x] != {} ==> !TooMany(ancestors + {x}, next, limit)
    ensures Counting(p, many, ancestors + {x}, next, limit)
  {
    if p.parents[x] == {} {
      assert next == stage - {x};
      assert HasParents(p, ancestors + {x}) ==> HasParents(p, ancestors);
    }
  }

  lemma SizeRefused(p: Pool, size: nat, o: Origin, limits: Limits, ancestors: set<Tx>, total: nat, x: Tx)
    requires Dag(p) && Known(p, o) && Tallied(p, size, limits, ancestors, total)
    requires ancestors <= AllAbove(p, o) && x in AllAbove(p, o) && x !in ancestors
    requires Exceeds(total + Size(p, p.entries[x]), limits.ancestorSize)
    ensures Justified(p, size, o, limits, AncestorSize)
  {
    hide Sum;
    hide Size;
    hide SizeOf;
    hide Above;
    hide AllAbove;
    hide NoneBurdened;
    SumAdd(p, ancestors, x);
    SumGrows(SizeOf(p), ancestors + {x}, AllAbove(p, o));
  }

  lemma CountRefused(p: Pool, size: nat, o: Origin, limits: Limits, visited: set<Tx>, stage: set<Tx>, x: Tx)
    requires Dag(p) && Known(p, o) && x in AllAbove(p, o) && x in p.parents && p.parents[x] != {}
    requires visited !! stage && visited <= AllAbove(p, o) && stage <= AllAbove(p, o)
    requires TooMany(visited, stage, limits.ancestorCount)
    ensures Justified(p, size, o, limits, TooManyAncestors)
  {
    hide Above;
    hide AllAbove;
    assert HasParents(p, AllAbove(p, o));
    SubsetSize(stage + visited, AllAbove(p, o));
  }

  lemma WalkComplete(p: Pool, o: Origin, ancestors: set<Tx>)
    requires Dag(p) && Known(p, o) && Walking(p, Direct(p, o), AllAbove(p, o), ancestors, {})
    ensures ancestors == AllAbove(p, o)
  {
    hide Above;
    hide Direct;
    assert ancestors + {} == ancestors;
    ClosedHoldsAbove(p, Direct(p, o), ancestors);
  }

  lemma WalkEnds(p: Pool, size: nat, o: Origin, limits: Limits, many: bool, ancestors: set<Tx>, total: nat)
    requires Dag(p) && Known(p, o) && many == (o.Inputs? && Direct(p, o) != {})
    requires ancestors == AllAbove(p, o)
    requires Tallied(p, size, limits, ancestors, total) && Counting(p, many, ancestors, {}, limits.ancestorCount)
    ensures Admitted(p, size, o, limits)
  {
    hide Above;
    hide Direct;
    hide AllAbove;
    hide Sum;
    hide NoneBurdened;
    hide HasParents;
  }

  /** The loop of `CalculateMemPoolAncestors`, left at the first limit that is hit. */
  method Walk(p: Pool, size: nat, o: Origin, limits: Limits, parents: set<Tx>) returns (r: Search)
    requires Dag(p) && Known(p, o) && parents == Direct(p, o)
    requires o.Inputs? && parents != {} ==> !Exceeds(|parents| + 1, limits.ancestorCount)
    ensures r.Within? <==> Admitted(p, size, o, limits)
    ensures r.Within? ==> r.ancestors == AllAbove(p, o)
    ensures r.Refused? ==> Justified(p, size, o, limits, r.reason)
  {
    ghost var all, many := AllAbove(p, o), o.Inputs? && parents != {};
    var ancestors: set<Tx>, stage, total: nat := {}, parents, size;
    WalkStarts(p, size, o, limits, many);
    AllUpward(p, o);
    hide *;
    while stage != {}
      invariant Walking(p, parents, all, ancestors, stage)
      invariant Tallied(p, size, limits, ancestors, total)
      invariant Counting(p, many, ancestors, stage, limits.ancestorCount)
      decreases p.entries.Keys - ancestors
    {
      var x :| x in stage;
      ghost var was, before := ancestors, stage;
      WalkStep(p, parents, all, ancestors, stage, x);
      ancestors := ancestors + {x};
      stage := stage - {x};
      var sum := total + Size(p, p.entries[x]);
      if Exceeds(p.entries[x].sizeWithDescendants + size, limits.descendantSize) {
        DescendantsRefused(p, size, o, limits, x);
        JustifiedRefusal(p, size, o, limits, DescendantSize(x));
        return Refused(DescendantSize(x));
      } else if Exceeds(p.entries[x].countWithDescendants + 1, limits.descendantCount) {
        DescendantsRefused(p, size, o, limits, x);
        JustifiedRefusal(p, size, o, limits, TooManyDescendants(x));
        return Refused(TooManyDescendants(x));
      } else if Exceeds(sum, limits.ancestorSize) {
        SizeRefused(p, size, o, limits, was, total, x);
        JustifiedRefusal(p, size, o, limits, AncestorSize);
        return Refused(AncestorSize);
      }
      TallyStep(p, size, limits, was, total, x);
      total := sum;
      var ok;
      ok, stage := StageParents(ancestors, stage, p.parents[x], limits.ancestorCount);
      if !ok {
        CountRefused(p, size, o, limits, ancestors, stage, x);
        JustifiedRefusal(p, size, o, limits, TooManyAncestors);
        return Refused(TooManyAncestors);
      }
      CountStep(p, many, was, before, limits.ancestorCount, x, stage);
    }
    WalkComplete(p, o, ancestors);
    WalkEnds(p, size, o, limits, many, ancestors, total);
    r := Within(ancestors);
  }

  lemma WalkStarts(p: Pool, size: nat, o: Origin, limits: Limits, many: bool)
    requires Dag(p) && Known(p, o) && (many ==> !Exceeds(|Direct(p, o)| + 1, limits.ancestorCount))
    ensures Walking(p, Direct(p, o), AllAbove(p, o), {}, Direct(p, o))
    ensures Tallied(p, size, limits, {}, size)
    ensures Counting(p, many, {}, Direct(p, o), limits.ancestorCount)
  {
    assert Sum(SizeOf(p), {}) == 0;
  }

  lemma DescendantsRefused(p: Pool, size: nat, o: Origin, limits: Limits, x: Tx)
    requires Dag(p) && Known(p, o) && x in AllAbove(p, o)
    ensures Exceeds(p.entries[x].sizeWithDescendants + size, limits.descendantSize) ==>
              Justified(p, size, o, limits, DescendantSize(x))
    ensures Exceeds(p.entries[x].countWithDescendants + 1, limits.descendantCount) ==>
              Justified(p, size, o, limits, TooManyDescendants(x))
  {
    hide Sum;
    hide Above;
  }

  /** `CalculateMemPoolAncestors`: all ancestors, or the limit that is hit. */
  method CalculateAncestors(p: Pool, size: nat, o: Origin, limits: Limits) returns (r: Search)
    requires Dag(p) && Known(p, o)
    ensures r.Within? <==> Admitted(p, size, o, limits)
    ensures r.Within? ==> r.ancestors == AllAbove(p, o)
    ensures r.Refused? ==> Justified(p, size, o, limits, r.reason)
  {
    hide AllAbove;
    hide Sum;
    hide Admitted;
    var parents;
    if o.Inputs? {
      var found;
      found, parents := FindParents(p, o.vin, limits.ancestorCount);
      if !found {
        SubsetSize(parents, Direct(p, o));
        JustifiedRefusal(p, size, o, limits, TooManyParents);
        return Refused(TooManyParents);
      }
    } else {
      parents := p.parents[o.t];
    }
    r := Walk(p, size, o, limits, parents);
  }

  /** Whatever is within the documented limits is admitted, and nothing else where the count is tested. Elsewhere
      the code admits more: without ancestors it tests nothing, and for an entry of the pool none of whose ancestors
      has parents it does not test the count. */
  lemma LimitsAsDocumented(p: Pool, size: nat, o: Origin, limits: Limits)
    requires Dag(p) && Known(p, o)
    ensures WithinLimits(p, size, o, limits) ==> Admitted(p, size, o, limits)
    ensures CountTested(p, o) ==> (Admitted(p, size, o, limits) <==> WithinLimits(p, size, o, limits))
    ensures var all := AllAbove(p, o);
            Admitted(p, size, o, limits) && !WithinLimits(p, size, o, limits) <==>
              && !CountTested(p, o) && NoneBurdened(p, size, limits, all)
              && if all == {} then Exceeds(size, limits.ancestorSize) || Exceeds(1, limits.ancestorCount)
                 else !Exceeds(size + Sum(SizeOf(p), all), limits.ancestorSize) && Exceeds(|all| + 1, limits.ancestorCount)
  {
    NoneAbove(p, o);
    PassesOrFits(p, size, limits, AllAbove(p, o), CountTested(p, o));
    hide AllAbove;
    hide CountTested;
    hide Passes;
    hide Fits;
    hide Direct;
  }

  lemma NoneAbove(p: Pool, o: Origin)
    requires Dag(p) && Known(p, o)
    ensures AllAbove(p, o) == {} ==> !CountTested(p, o)
  {
    hide AllAbove;
    hide Direct;
  }

  lemma PassesOrFits(p: Pool, size: nat, limits: Limits, all: set<Tx>, tested: bool)
    requires all == {} ==> !tested
    ensures Fits(p, size, limits, all) ==> Passes(p, size, limits, all, tested)
    ensures tested ==> (Passes(p, size, limits, all, tested) <==> Fits(p, size, limits, all))
    ensures Passes(p, size, limits, all, tested) && !Fits(p, size, limits, all) <==>
              && !tested && NoneBurdened(p, size, limits, all)
              && if all == {} then Exceeds(size, limits.ancestorSize) || Exceeds(1, limits.ancestorCount)
                 else !Exceeds(size + Sum(SizeOf(p), all), limits.ancestorSize) && Exceeds(|all| + 1, limits.ancestorCount)
  {
    hide *;
    if all == {} {
      NothingToFit(p, size, limits, tested);
    } else {
      SomethingToFit(p, size, limits, all, tested);
    }
  }

  lemma NothingToFit(p: Pool, size: nat, limits: Limits, tested: bool)
    requires !tested
    ensures Fits(p, size, limits, {}) ==> Passes(p, size, limits, {}, tested)
    ensures Passes(p, size, limits, {}, tested) && !Fits(p, size, limits, {}) <==>
              NoneBurdened(p, size, limits, {}) && (Exceeds(size, limits.ancestorSize) || Exceeds(1, limits.ancestorCount))
  {
    assert Sum(SizeOf(p), {}) == 0;
    hide Sum;
    hide SizeOf;
    hide NoneBurdened;
    hide Exceeds;
  }

  lemma SomethingToFit(p: Pool, size: nat, limits: Limits, all: set<Tx>, tested: bool)
    requires all != {}
    ensures Fits(p, size, limits, all) ==> Passes(p, size, limits, all, tested)
    ensures tested ==> (Passes(p, size, limits, all, tested) <==> Fits(p, size, limits, all))
    ensures Passes(p, size, limits, all, tested) && !Fits(p, size, limits, all) <==>
              && !tested && NoneBurdened(p, size, limits, all)
              && !Exceeds(size + Sum(SizeOf(p), all), limits.ancestorSize) && Exceeds(|all| + 1, limits.ancestorCount)
  {
    hide Sum;
    hide SizeOf;
    hide NoneBurdened;
    hide Exceeds;
  }

  /** An entry with two parents is admitted under a limit of one ancestor. */
  lemma CountNotTested(p: Pool, size: nat)
    requires Dag(p) && p.parents == map[0 := {}, 1 := {}, 2 := {0, 1}]
    ensures var limits := NO_LIMITS.(ancestorCount := AtMost(1));
            && AllAbove(p, Linked(2)) == {0, 1}
            && Admitted(p, size, Linked(2), limits) && !WithinLimits(p, size, Linked(2), limits)
  {
    var o, limits := Linked(2), NO_LIMITS.(ancestorCount := AtMost(1));
    assert Direct(p, o) == {0, 1};
    ClosedHoldsAbove(p, {0, 1}, {0, 1});
    assert AllAbove(p, o) == {0, 1};
    hide AllAbove;
    hide Above;
    hide Sum;
    assert |{0, 1}| == 2;
  }

  /** Without limits, the ancestors of an entry of the pool. */
  lemma NothingRefused(p: Pool, size: nat, t: Tx)
    requires Dag(p) && t in p.entries
    ensures Admitted(p, size, Linked(t), NO_LIMITS) && AllAbove(p, Linked(t)) == Ancestors(p, t)
  {
    AboveParents(p, t);
    PassesUnlimited(p, size, AllAbove(p, Linked(t)), CountTested(p, Linked(t)));
    hide Above;
    hide Passes;
    hide CountTested;
  }

  lemma PassesUnlimited(p: Pool, size: nat, all: set<Tx>, tested: bool)
    ensures Passes(p, size, NO_LIMITS, all, tested)
  {
    hide Sum;
    hide SizeOf;
  }
}
