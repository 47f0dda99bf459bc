/** Which streams load into a consistent state, said of the stream itself. */
module AddrManStream {
  import opened AddrMan
  import opened AddrManDisk
  import opened AddrManLoad

  /** No earlier new entry has the slot of `xs[i]`. */
  ghost predicate FirstNew(h: Hasher, xs: seq<Saved>, i: nat)
    requires i < |xs|
  {
    forall j :: 0 <= j < i ==> NewSlot(h, xs[j].service, xs[j].source) != NewSlot(h, xs[i].service, xs[i].source)
  }

  /** No earlier tried entry has the slot of `ys[i]`. */
  ghost predicate FirstTried(h: Hasher, ys: seq<Saved>, i: nat)
    requires i < |ys|
  {
    forall j :: 0 <= j < i ==> TriedSlot(h, ys[j].service) != TriedSlot(h, ys[i].service)
  }

  /** The number of tried entries among the first `n` that are kept. */
  ghost function Rank(h: Hasher, ys: seq<Saved>, n: nat): nat
    requires n <= |ys|
  {
    if n == 0 then 0 else Rank(h, ys, n - 1) + if FirstTried(h, ys, n - 1) then 1 else 0
  }

  lemma {:induction false} RankGrows(h: Hasher, ys: seq<Saved>, m: nat, n: nat)
    requires m <= n <= |ys|
    ensures Rank(h, ys, m) <= Rank(h, ys, n)
    ensures m < n && FirstTried(h, ys, m) ==> Rank(h, ys, m) < Rank(h, ys, n)
    decreases n
  {
    if m < n {
      RankGrows(h, ys, m, n - 1);
    }
  }

  /** No address of an entry that survives occurs with another entry that is loaded. New entries are all loaded, and the
      first of each slot survives; of the tried entries the first of each slot is loaded, and survives. */
  ghost predicate UnsharedStream(h: Hasher, xs: seq<Saved>, ys: seq<Saved>) {
    && (forall i, j :: 0 <= i < |xs| && 0 <= j < |xs| && i != j && FirstNew(h, xs, i) ==>
          xs[i].service.ip != xs[j].service.ip)
    && (forall i, j :: 0 <= i < |xs| && 0 <= j < |ys| && FirstTried(h, ys, j) ==>
          xs[i].service.ip != ys[j].service.ip)
    && (forall i, j :: 0 <= i < |ys| && 0 <= j < |ys| && i != j && FirstTried(h, ys, i) && FirstTried(h, ys, j) ==>
          ys[i].service.ip != ys[j].service.ip)
  }

  // ----- The new entries

  /** The new slots taken by the first `n` entries. */
  ghost predicate NewSlotsTaken(h: Hasher, xs: seq<Saved>, n: nat, taken: map<Slot, int>) {
    && n <= |xs|
    && (forall q :: q in taken ==> exists j :: 0 <= j < n && q == NewSlot(h, xs[j].service, xs[j].source))
    && (forall j :: 0 <= j < n ==> NewSlot(h, xs[j].service, xs[j].source) in taken)
  }

  /** Entry `j` is number `j`, and has its slot if it is the first one there. */
  ghost predicate NewAt(h: Hasher, xs: seq<Saved>, infos: map<int, Info>, j: int) {
    && 0 <= j < |xs| && j in infos && infos[j].service == xs[j].service && !infos[j].inTried
    && infos[j].refCount == if FirstNew(h, xs, j) then 1 else 0
  }

  /** After `n` rounds of the first loop. */
  ghost predicate NewsLoaded(h: Hasher, xs: seq<Saved>, n: nat, t: State) {
    && n <= |xs| && |t.random| == n && t.triedTable == map[] && NewSlotsTaken(h, xs, n, t.newTable)
    && (forall x :: x in t.infos <==> 0 <= x < n)
    && (forall j :: 0 <= j < n ==> NewAt(h, xs, t.infos, j))
  }

  lemma NewSlotTaken(h: Hasher, xs: seq<Saved>, n: nat, taken: map<Slot, int>, x: int)
    requires NewSlotsTaken(h, xs, n, taken) && n < |xs|
    ensures var q := NewSlot(h, xs[n].service, xs[n].source);
            && (q in taken <==> !FirstNew(h, xs, n))
            && NewSlotsTaken(h, xs, n + 1, taken[q := x])
            && (q in taken ==> NewSlotsTaken(h, xs, n + 1, taken))
  {
    hide NewSlot;
    var q := NewSlot(h, xs[n].service, xs[n].source);
    if q in taken {
      var j :| 0 <= j < n && q == NewSlot(h, xs[j].service, xs[j].source);
    }
    var more := taken[q := x];
    forall p | p in more ensures exists j :: 0 <= j < n + 1 && p == NewSlot(h, xs[j].service, xs[j].source) {
      if p in taken {
        var j :| 0 <= j < n && p == NewSlot(h, xs[j].service, xs[j].source);
      } else {
        assert p == q;
      }
    }
  }

  lemma NewOneAdds(h: Hasher, t: State, x: Saved)
    ensures var u, q, k := LoadNewOne(h, true, t, x), NewSlot(h, x.service, x.source), |t.random|;
            && |u.random| == k + 1 && u.triedTable == t.triedTable
            && u.newTable == (if q in t.newTable then t.newTable else t.newTable[q := k])
            && u.infos.Keys == t.infos.Keys + {k} && (forall j :: j in t.infos && j != k ==> u.infos[j] == t.infos[j])
            && u.infos[k].service == x.service && !u.infos[k].inTried
            && u.infos[k].refCount == if q in t.newTable then 0 else 1
  {
    hide NewSlot;
  }

  lemma NewInfosStep(h: Hasher, xs: seq<Saved>, n: nat, infos: map<int, Info>, more: map<int, Info>)
    requires (forall x :: x in infos <==> 0 <= x < n) && forall j :: 0 <= j < n ==> NewAt(h, xs, infos, j)
    requires more.Keys == infos.Keys + {n} && (forall j :: j in infos && j != n ==> more[j] == infos[j]) && NewAt(h, xs, more, n)
    ensures (forall x :: x in more <==> 0 <= x < n + 1) && forall j :: 0 <= j < n + 1 ==> NewAt(h, xs, more, j)
  {
    hide FirstNew;
    forall x ensures x in more <==> 0 <= x < n + 1 {
      assert x in more <==> x in more.Keys;
    }
    forall j | 0 <= j < n ensures NewAt(h, xs, more, j) {
      assert NewAt(h, xs, infos, j);
    }
  }

  lemma NewsStep(h: Hasher, xs: seq<Saved>, n: nat, t: State)
    requires n < |xs| && NewsLoaded(h, xs, n, t)
    ensures NewsLoaded(h, xs, n + 1, LoadNewOne(h, true, t, xs[n]))
  {
    hide NewSlot;
    hide NewSlotsTaken;
    hide FirstNew;
    hide LoadNewOne;
    NewSlotTaken(h, xs, n, t.newTable, n);
    NewOneAdds(h, t, xs[n]);
    var u := LoadNewOne(h, true, t, xs[n]);
    assert NewAt(h, xs, u.infos, n);
    hide NewAt;
    NewInfosStep(h, xs, n, t.infos, u.infos);
  }

  lemma NewsStart(h: Hasher, xs: seq<Saved>, t: State)
    requires t.random == [] && t.infos == map[] && t.newTable == map[] && t.triedTable == map[]
    ensures NewsLoaded(h, xs, 0, t)
  {
  }

  lemma {:induction false} NewsLoad(h: Hasher, start: State, xs: seq<Saved>, n: nat)
    requires start.random == [] && Numbered(start) && start.infos == map[] && n <= |xs|
    requires start.newTable == map[] && start.triedTable == map[]
    ensures NewsLoaded(h, xs, n, LoadNews(h, true, start, xs[..n]))
  {
    hide *;
    if n == 0 {
      assert xs[..0] == [];
      LoadNewsNone(h, start);
      NewsStart(h, xs, start);
    } else {
      var m := n - 1;
      NewsLoad(h, start, xs, m);
      LoadNewsStep(h, true, start, xs, m);
      NewsStep(h, xs, m, LoadNews(h, true, start, xs[..m]));
    }
  }

  lemma LoadNewsNone(h: Hasher, start: State)
    requires start.random == [] && Numbered(start)
    ensures LoadNews(h, true, start, []) == start
  {
  }

  // ----- The tried entries

  /** The slots taken by the first `n` entries. */
  ghost predicate SlotsTaken(h: Hasher, ys: seq<Saved>, n: nat, taken: map<Slot, int>) {
    && n <= |ys|
    && (forall q :: q in taken ==> exists j :: 0 <= j < n && q == TriedSlot(h, ys[j].service))
    && (forall j :: 0 <= j < n ==> TriedSlot(h, ys[j].service) in taken)
  }

  /** Number `x` was given to entry `j`. */
  ghost predicate Numbers(h: Hasher, ys: seq<Saved>, from: int, j: nat, x: int) {
    j < |ys| && FirstTried(h, ys, j) && x == from + Rank(h, ys, j)
  }

  /** From number `from` on, the kept ones of the first `n` entries in their order. */
  ghost predicate InOrder(h: Hasher, ys: seq<Saved>, n: nat, from: int, infos: map<int, Info>) {
    && (forall j, x :: 0 <= j < n && Numbers(h, ys, from, j, x) ==>
          x in infos && infos[x].inTried && infos[x].service == ys[j].service)
    && (forall x :: x in infos && x >= from ==> exists j :: 0 <= j < n && Numbers(h, ys, from, j, x))
  }

  /** After `n` rounds of the second loop. */
  ghost predicate TriedsLoaded(h: Hasher, ys: seq<Saved>, n: nat, start: State, t: State) {
    && n <= |ys| && t.idCount == start.idCount + Rank(h, ys, n)
    && SlotsTaken(h, ys, n, t.triedTable) && InOrder(h, ys, n, start.idCount, t.infos)
    && (forall x :: x in t.infos ==> x < t.idCount)
    && (forall x :: x < start.idCount ==> (x in t.infos <==> x in start.infos) && (x in t.infos ==> t.infos[x] == start.infos[x]))
  }

  lemma FirstIfFree(h: Hasher, ys: seq<Saved>, n: nat, start: State, t: State)
    requires n < |ys| && TriedsLoaded(h, ys, n, start, t)
    ensures TriedSlot(h, ys[n].service) in t.triedTable <==> !FirstTried(h, ys, n)
  {
    hide TriedSlot;
    hide Rank;
    if TriedSlot(h, ys[n].service) in t.triedTable {
      var j :| 0 <= j < n && TriedSlot(h, ys[n].service) == TriedSlot(h, ys[j].service);
    }
  }

  lemma RankStep(h: Hasher, ys: seq<Saved>, n: nat)
    requires n < |ys|
    ensures Rank(h, ys, n + 1) == Rank(h, ys, n) + if FirstTried(h, ys, n) then 1 else 0
  {
  }

  lemma SlotTaken(h: Hasher, ys: seq<Saved>, n: nat, taken: map<Slot, int>, x: int)
    requires SlotsTaken(h, ys, n, taken) && n < |ys|
    ensures SlotsTaken(h, ys, n + 1, taken[TriedSlot(h, ys[n].service) := x])
    ensures TriedSlot(h, ys[n].service) in taken ==> SlotsTaken(h, ys, n + 1, taken)
  {
    hide TriedSlot;
    var more := taken[TriedSlot(h, ys[n].service) := x];
    forall q | q in more ensures exists j :: 0 <= j < n + 1 && q == TriedSlot(h, ys[j].service) {
      if q in taken {
        var j :| 0 <= j < n && q == TriedSlot(h, ys[j].service);
      } else {
        assert q == TriedSlot(h, ys[n].service);
      }
    }
  }

  lemma TriedLost(h: Hasher, ys: seq<Saved>, n: nat, start: State, t: State, u: State)
    requires n < |ys| && TriedsLoaded(h, ys, n, start, t) && !FirstTried(h, ys, n)
    requires TriedSlot(h, ys[n].service) in t.triedTable
    requires u.infos == t.infos && u.idCount == t.idCount && u.triedTable == t.triedTable
    ensures TriedsLoaded(h, ys, n + 1, start, u)
  {
    RankStep(h, ys, n);
    SlotTaken(h, ys, n, t.triedTable, 0);
    InOrderSkip(h, ys, n, start.idCount, t.infos);
    hide SlotsTaken;
    hide InOrder;
    hide Rank;
    hide TriedSlot;
  }

  lemma InOrderSkip(h: Hasher, ys: seq<Saved>, n: nat, from: int, infos: map<int, Info>)
    requires n < |ys| && InOrder(h, ys, n, from, infos) && !FirstTried(h, ys, n)
    ensures InOrder(h, ys, n + 1, from, infos)
  {
    hide Rank;
    hide FirstTried;
    forall x ensures !Numbers(h, ys, from, n, x) {
    }
    hide Numbers;
  }

  lemma InOrderNext(h: Hasher, ys: seq<Saved>, n: nat, from: int, infos: map<int, Info>, x: int, info: Info)
    requires n < |ys| && InOrder(h, ys, n, from, infos) && Numbers(h, ys, from, n, x)
    requires info.inTried && info.service == ys[n].service && x !in infos
    ensures InOrder(h, ys, n + 1, from, infos[x := info])
  {
    assert forall y :: Numbers(h, ys, from, n, y) ==> y == x;
    hide Numbers;
    var more := infos[x := info];
    forall y | y in more && y >= from ensures exists j :: 0 <= j < n + 1 && Numbers(h, ys, from, j, y) {
      if y != x {
        var j :| 0 <= j < n && Numbers(h, ys, from, j, y);
      }
    }
  }

  lemma TriedKept(h: Hasher, ys: seq<Saved>, n: nat, start: State, t: State, u: State, info: Info)
    requires n < |ys| && TriedsLoaded(h, ys, n, start, t) && FirstTried(h, ys, n)
    requires info.inTried && info.service == ys[n].service
    requires u.infos == t.infos[t.idCount := info] && u.idCount == t.idCount + 1
    requires u.triedTable == t.triedTable[TriedSlot(h, ys[n].service) := t.idCount]
    ensures TriedsLoaded(h, ys, n + 1, start, u)
  {
    RankStep(h, ys, n);
    SlotTaken(h, ys, n, t.triedTable, t.idCount);
    InOrderNext(h, ys, n, start.idCount, t.infos, t.idCount, info);
    hide SlotsTaken;
    hide InOrder;
    hide Rank;
    hide TriedSlot;
    hide FirstTried;
  }

  lemma TriedsStep(h: Hasher, ys: seq<Saved>, n: nat, start: State, t: State)
    requires n < |ys| && TriedsLoaded(h, ys, n, start, t)
    ensures TriedsLoaded(h, ys, n + 1, start, LoadTriedOne(h, t, ys[n]))
  {
    FirstIfFree(h, ys, n, start, t);
    hide TriedSlot;
    hide TriedsLoaded;
    hide FirstTried;
    var u := LoadTriedOne(h, t, ys[n]);
    if FirstTried(h, ys, n) {
      TriedKept(h, ys, n, start, t, u, Load(ys[n]).(randomPos := |t.random|, inTried := true));
    } else {
      TriedLost(h, ys, n, start, t, u);
    }
  }

  lemma TriedsStart(h: Hasher, ys: seq<Saved>, start: State)
    requires start.triedTable == map[] && forall x :: x in start.infos ==> x < start.idCount
    ensures TriedsLoaded(h, ys, 0, start, start)
  {
  }

  lemma {:induction false} TriedsLoad(h: Hasher, start: State, ys: seq<Saved>, n: nat)
    requires start.idCount == |start.random| && Numbered(start) && start.triedTable == map[] && n <= |ys|
    ensures TriedsLoaded(h, ys, n, start, LoadTrieds(h, start, ys[..n]))
  {
    if n == 0 {
      assert ys[..0] == [];
      TriedsStart(h, ys, start);
    } else {
      assert ys[..n][..n - 1] == ys[..n - 1] && ys[..n][n - 1] == ys[n - 1];
      var t := LoadTrieds(h, start, ys[..n - 1]);
      assert LoadTrieds(h, start, ys[..n]) == LoadTriedOne(h, t, ys[n - 1]);
      hide *;
      TriedsLoad(h, start, ys, n - 1);
      TriedsStep(h, ys, n - 1, start, t);
    }
  }

  // ----- The bucket section

  lemma {:induction false} RowIgnored(h: Hasher, usable: bool, t: State, b: nat, row: seq<int>)
    requires Numbered(t) && (!usable || t.nNew == 0)
    ensures LoadRow(h, usable, t, b, row) == t
  {
    if row != [] {
      RowIgnored(h, usable, t, b, row[..|row| - 1]);
    }
  }

  lemma {:induction false} RowsIgnored(h: Hasher, usable: bool, t: State, rows: seq<seq<int>>)
    requires Numbered(t) && (!usable || t.nNew == 0)
    ensures LoadRows(h, usable, t, rows) == t
  {
    if rows != [] {
      var n := |rows| - 1;
      RowsIgnored(h, usable, t, rows[..n]);
      RowIgnored(h, usable, t, n, rows[n]);
      hide LoadRow;
    }
  }

  // ----- The stream and the state

  /** Number `x` of `v` is that of new entry `i`, which survives if it is the first of its slot. */
  ghost predicate NewAs(h: Hasher, v: State, xs: seq<Saved>, i: nat, x: int) {
    && i < |xs| && x == i && x in v.infos && v.infos[x].service == xs[i].service && (Doomed(v, x) <==> !FirstNew(h, xs, i))
  }

  /** Number `x` of `v` is that of the kept tried entry `j`, which survives. */
  ghost predicate TriedAs(h: Hasher, v: State, ys: seq<Saved>, from: int, j: nat, x: int) {
    && Numbers(h, ys, from, j, x) && x in v.infos && v.infos[x].service == ys[j].service && !Doomed(v, x)
  }

  /** The entries of `v` are the new ones of the stream and the kept tried ones. */
  ghost predicate Mirrors(h: Hasher, v: State, xs: seq<Saved>, ys: seq<Saved>) {
    && (forall i :: 0 <= i < |xs| ==> NewAs(h, v, xs, i, i))
    && (forall j, x :: 0 <= j < |ys| && Numbers(h, ys, |xs|, j, x) ==> TriedAs(h, v, ys, |xs|, j, x))
    && (forall x :: x in v.infos ==> 0 <= x < |xs| || (x >= |xs| && exists j :: 0 <= j < |ys| && Numbers(h, ys, |xs|, j, x)))
  }

  lemma MirrorsLoaded(h: Hasher, xs: seq<Saved>, ys: seq<Saved>, t: State, u: State)
    requires NewsLoaded(h, xs, |xs|, t) && t.idCount == |xs| && TriedsLoaded(h, ys, |ys|, t, u)
    ensures Mirrors(h, u, xs, ys)
  {
    hide Rank;
    hide FirstTried;
    hide SlotsTaken;
    hide NewSlot;
    hide TriedSlot;
    hide Numbers;
    forall i | 0 <= i < |xs| ensures NewAs(h, u, xs, i, i) {
      assert NewAt(h, xs, t.infos, i) && u.infos[i] == t.infos[i];
      hide FirstNew;
    }
    forall x | x in u.infos
      ensures 0 <= x < |xs| || (x >= |xs| && exists j :: 0 <= j < |ys| && Numbers(h, ys, |xs|, j, x))
    {
      assert x < |xs| ==> x in t.infos;
    }
  }

  lemma NumbersDiffer(h: Hasher, ys: seq<Saved>, from: int, i: nat, j: nat, x: int, y: int)
    requires Numbers(h, ys, from, i, x) && Numbers(h, ys, from, j, y)
    ensures i != j <==> x != y
    ensures x >= from
  {
    if i < j {
      RankGrows(h, ys, i, j);
    } else {
      RankGrows(h, ys, j, i);
    }
  }

  lemma NumberOf(h: Hasher, ys: seq<Saved>, from: int, j: nat) returns (x: int)
    requires j < |ys| && FirstTried(h, ys, j)
    ensures Numbers(h, ys, from, j, x) && x >= from
  {
    x := from + Rank(h, ys, j);
  }

  lemma NewNewDiffer(h: Hasher, v: State, xs: seq<Saved>, i: nat, j: nat)
    requires NewAs(h, v, xs, i, i) && NewAs(h, v, xs, j, j) && i != j && Unshared(v) && FirstNew(h, xs, i)
    ensures xs[i].service.ip != xs[j].service.ip
  {
    hide FirstNew;
    hide Doomed;
  }

  lemma NewTriedDiffer(h: Hasher, v: State, xs: seq<Saved>, ys: seq<Saved>, i: nat, j: nat, x: int)
    requires NewAs(h, v, xs, i, i) && TriedAs(h, v, ys, |xs|, j, x) && x >= |xs| && Unshared(v)
    ensures xs[i].service.ip != ys[j].service.ip
  {
    hide FirstNew;
    hide Doomed;
    hide Rank;
    hide FirstTried;
  }

  lemma TriedTriedDiffer(h: Hasher, v: State, ys: seq<Saved>, from: int, i: nat, j: nat, x: int, y: int)
    requires TriedAs(h, v, ys, from, i, x) && TriedAs(h, v, ys, from, j, y) && x != y && Unshared(v)
    ensures ys[i].service.ip != ys[j].service.ip
  {
    hide Doomed;
    hide Rank;
    hide FirstTried;
  }

  lemma StreamUnshared(h: Hasher, v: State, xs: seq<Saved>, ys: seq<Saved>)
    requires Mirrors(h, v, xs, ys) && Unshared(v)
    ensures UnsharedStream(h, xs, ys)
  {
    hide Rank;
    hide FirstNew;
    hide FirstTried;
    hide NewAs;
    hide TriedAs;
    hide Numbers;
    hide Unshared;
    forall i, j | 0 <= i < |xs| && 0 <= j < |xs| && i != j && FirstNew(h, xs, i) ensures xs[i].service.ip != xs[j].service.ip {
      NewNewDiffer(h, v, xs, i, j);
    }
    forall i, j | 0 <= i < |xs| && 0 <= j < |ys| && FirstTried(h, ys, j) ensures xs[i].service.ip != ys[j].service.ip {
      var x := NumberOf(h, ys, |xs|, j);
      NewTriedDiffer(h, v, xs, ys, i, j, x);
    }
    forall i, j | 0 <= i < |ys| && 0 <= j < |ys| && i != j && FirstTried(h, ys, i) && FirstTried(h, ys, j)
      ensures ys[i].service.ip != ys[j].service.ip
    {
      var x := NumberOf(h, ys, |xs|, i);
      var y := NumberOf(h, ys, |xs|, j);
      NumbersDiffer(h, ys, |xs|, i, j, x, y);
      TriedTriedDiffer(h, v, ys, |xs|, i, j, x, y);
    }
  }

  lemma SurvivorDiffers(h: Hasher, v: State, xs: seq<Saved>, ys: seq<Saved>, x: int, y: int)
    requires Mirrors(h, v, xs, ys) && UnsharedStream(h, xs, ys) && x in v.infos && y in v.infos && x != y && !Doomed(v, x)
    ensures v.infos[x].service.ip != v.infos[y].service.ip
  {
    hide Rank;
    hide FirstNew;
    hide FirstTried;
    hide Doomed;
    hide Numbers;
    if x < |xs| && y < |xs| {
      assert 0 <= x && 0 <= y && NewAs(h, v, xs, x, x) && NewAs(h, v, xs, y, y);
    } else if x < |xs| {
      var j :| 0 <= j < |ys| && Numbers(h, ys, |xs|, j, y);
      assert NewAs(h, v, xs, x, x) && TriedAs(h, v, ys, |xs|, j, y);
      KeptFirst(h, ys, |xs|, j, y);
    } else if y < |xs| {
      var i :| 0 <= i < |ys| && Numbers(h, ys, |xs|, i, x);
      assert TriedAs(h, v, ys, |xs|, i, x) && NewAs(h, v, xs, y, y);
      KeptFirst(h, ys, |xs|, i, x);
    } else {
      var i :| 0 <= i < |ys| && Numbers(h, ys, |xs|, i, x);
      var j :| 0 <= j < |ys| && Numbers(h, ys, |xs|, j, y);
      assert TriedAs(h, v, ys, |xs|, i, x) && TriedAs(h, v, ys, |xs|, j, y);
      NumbersDiffer(h, ys, |xs|, i, j, x, y);
      KeptFirst(h, ys, |xs|, i, x);
      KeptFirst(h, ys, |xs|, j, y);
    }
  }

  lemma KeptFirst(h: Hasher, ys: seq<Saved>, from: int, j: nat, x: int)
    requires Numbers(h, ys, from, j, x)
    ensures FirstTried(h, ys, j)
  {
  }

  lemma StateUnshared(h: Hasher, v: State, xs: seq<Saved>, ys: seq<Saved>)
    requires Mirrors(h, v, xs, ys) && UnsharedStream(h, xs, ys)
    ensures Unshared(v)
  {
    hide Mirrors;
    hide UnsharedStream;
    hide Doomed;
    forall x, y | x in v.infos && y in v.infos && x != y && !Doomed(v, x) ensures v.infos[x].service.ip != v.infos[y].service.ip {
      SurvivorDiffers(h, v, xs, ys, x, y);
    }
  }

  lemma NewsMirrored(h: Hasher, d: Stream)
    requires Accepted(d) && (Usable(d) ==> d.nNew == 0)
    ensures NewsLoaded(h, d.newEntries[..d.nNew], d.nNew, FirstStage(h, d)) && FirstStage(h, d).nNew == d.nNew
  {
    var xs, start := d.newEntries[..d.nNew], Fresh(d);
    FirstStageSound(h, d);
    EmptySound(h, start);
    if d.nNew == 0 {
      assert xs == [];
    } else {
      NewsLoad(h, start, xs, d.nNew);
      assert xs[..d.nNew] == xs;
      hide LoadNews;
      Renumbered(h, xs, d.nNew, LoadNews(h, true, start, xs), d.nNew);
    }
  }

  lemma Renumbered(h: Hasher, xs: seq<Saved>, n: nat, t: State, k: int)
    requires NewsLoaded(h, xs, n, t)
    ensures NewsLoaded(h, xs, n, t.(idCount := k))
  {
    hide NewSlot;
    hide FirstNew;
  }

  lemma StreamMirrored(h: Hasher, d: Stream)
    requires Accepted(d) && (Usable(d) ==> d.nNew == 0)
    ensures Mirrors(h, BeforePruning(h, d), d.newEntries[..d.nNew], d.triedEntries[..d.nTried])
  {
    var xs, ys := d.newEntries[..d.nNew], d.triedEntries[..d.nTried];
    NewsMirrored(h, d);
    var t, u := FirstStage(h, d), SecondStage(h, d);
    assert u == LoadTrieds(h, t, ys) && ys[..|ys|] == ys;
    SecondStageSound(h, d);
    SecondStageNew(h, d);
    assert BeforePruning(h, d) == LoadRows(h, Usable(d), u, d.rows[..Buckets(d)]);
    NoneTriedYet(h, xs, d.nNew, t);
    hide *;
    RowsIgnored(h, Usable(d), u, d.rows[..Buckets(d)]);
    TriedsLoad(h, t, ys, |ys|);
    MirrorsLoaded(h, xs, ys, t, u);
  }

  lemma NoneTriedYet(h: Hasher, xs: seq<Saved>, n: nat, t: State)
    requires NewsLoaded(h, xs, n, t)
    ensures t.triedTable == map[]
  {
  }

  lemma SecondStageNew(h: Hasher, d: Stream)
    requires Accepted(d)
    ensures SecondStage(h, d).nNew == d.nNew
  {
    FirstStageSound(h, d);
    LoadTriedsSound(h, FirstStage(h, d), d.triedEntries[..d.nTried]);
    hide Sound;
    hide FirstStage;
    hide LoadTrieds;
  }

  /** A stream without new entries, or whose bucket section is not usable, loads into a consistent state if and only if
      no address of a surviving entry occurs with another entry that is loaded, both told by the slots of the stream. */
  lemma StreamConsistent(hashers: nat -> Hasher, d: Stream)
    requires Accepted(d) && (Usable(d) ==> d.nNew == 0)
    ensures Unserialize(hashers, d).Loaded?
    ensures Consistent(hashers(d.key), Unserialize(hashers, d).state) <==>
              UnsharedStream(hashers(d.key), d.newEntries[..d.nNew], d.triedEntries[..d.nTried])
  {
    var h, xs, ys := hashers(d.key), d.newEntries[..d.nNew], d.triedEntries[..d.nTried];
    hide *;
    var v := BeforePruning(h, d);
    LoadedConsistent(hashers, d);
    StreamMirrored(h, d);
    if Unshared(v) {
      StreamUnshared(h, v, xs, ys);
    }
    if UnsharedStream(h, xs, ys) {
      StateUnshared(h, v, xs, ys);
    }
  }
}
