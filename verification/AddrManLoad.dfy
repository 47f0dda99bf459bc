/** Loading a stream that need not come from saving: what always holds, and exactly when the result is consistent. */
module AddrManLoad {
  import opened AddrMan
  import opened AddrManDisk

  /** Every index but the owner of an address is right; any entry may still be without a reference. */
  ghost predicate Sound(h: Hasher, t: State) {
    Indexed(t) && TriedOk(h, t) && NewOk(h, t, t.infos.Keys)
  }

  // ----- One entry more

  /** The entry `info` under the unused number `k`. */
  function Enter(t: State, k: int, info: Info): State {
    t.(infos := t.infos[k := info], byIp := t.byIp[info.service.ip := k], random := t.random + [k])
  }

  lemma EnterIndexed(t: State, k: int, info: Info)
    requires Indexed(t) && k !in t.infos
    ensures Indexed(Enter(t, k, info))
  {
    var u := Enter(t, k, info);
    forall ip | ip in u.byIp ensures u.byIp[ip] in u.infos && u.infos[u.byIp[ip]].service.ip == ip {
      if ip != info.service.ip {
        var id := t.byIp[ip];
        assert id in t.infos;
      }
    }
  }

  lemma EnterTried(h: Hasher, t: State, k: int, info: Info)
    requires TriedOk(h, t) && k !in t.infos && !info.inTried
    ensures TriedOk(h, Enter(t, k, info))
  {
    hide TriedSlot;
    var u := Enter(t, k, info);
    forall q | q in u.triedTable
      ensures var id := u.triedTable[q]; id in u.infos && u.infos[id].inTried && q == TriedSlot(h, u.infos[id].service)
    {
      var id := t.triedTable[q];
      assert id in t.infos;
    }
  }

  lemma EnterNew(h: Hasher, t: State, k: int, info: Info)
    requires NewOk(h, t, t.infos.Keys) && k !in t.infos && info.refCount == 0
    ensures NewOk(h, Enter(t, k, info), Enter(t, k, info).infos.Keys)
  {
    hide NewSlotIn;
    var u := Enter(t, k, info);
    forall q | q in u.newTable
      ensures var id := u.newTable[q]; id in u.infos && !u.infos[id].inTried && q == NewSlotIn(h, q.bucket, u.infos[id].service)
    {
      var id := t.newTable[q];
      assert id in t.infos;
    }
    forall q ensures q !in SlotsOf(t.newTable, k) {
    }
    assert SlotsOf(t.newTable, k) == {};
  }

  lemma EnterIds(t: State, k: int, info: Info)
    requires k !in t.infos
    ensures var u := Enter(t, k, info);
            && NewIds(u.infos) == NewIds(t.infos) + (if info.inTried then {} else {k})
            && TriedIds(u.infos) == TriedIds(t.infos) + (if info.inTried then {k} else {})
            && k !in NewIds(t.infos) && k !in TriedIds(t.infos)
  {
    var u := Enter(t, k, info);
    assert forall x :: x in NewIds(u.infos) <==> x in NewIds(t.infos) + (if info.inTried then {} else {k});
    assert forall x :: x in TriedIds(u.infos) <==> x in TriedIds(t.infos) + (if info.inTried then {k} else {});
  }

  // ----- References only

  lemma RefsOnlyIndexed(s: State, t: State)
    requires Indexed(s) && RefsOnly(s, t)
    ensures Indexed(t)
  {
    forall ip | ip in t.byIp ensures t.byIp[ip] in t.infos && t.infos[t.byIp[ip]].service.ip == ip {
      var id := s.byIp[ip];
      assert id in s.infos;
    }
  }

  lemma RefsOnlyTried(h: Hasher, s: State, t: State)
    requires TriedOk(h, s) && RefsOnly(s, t)
    ensures TriedOk(h, t)
  {
    hide TriedSlot;
    forall q | q in t.triedTable
      ensures var id := t.triedTable[q]; id in t.infos && t.infos[id].inTried && q == TriedSlot(h, t.infos[id].service)
    {
      var id := s.triedTable[q];
      assert id in s.infos && s.infos[id].inTried;
    }
  }

  /** A new reference at the hashed position. */
  lemma PlaceSound(h: Hasher, t: State, q: Slot, k: int)
    requires Sound(h, t) && k in t.infos && !t.infos[k].inTried && t.infos[k].refCount < NEW_BUCKETS_PER_ADDRESS
    requires q !in t.newTable && q.bucket < NEW_BUCKET_COUNT && q == NewSlotIn(h, q.bucket, t.infos[k].service)
    ensures Sound(h, Place(t, q, k)) && RefsOnly(t, Place(t, q, k))
    ensures NewIds(Place(t, q, k).infos) == NewIds(t.infos) && TriedIds(Place(t, q, k).infos) == TriedIds(t.infos)
  {
    var u := Place(t, q, k);
    PlaceKeepsNew(h, t, q, k, t.infos.Keys);
    assert RefsOnly(t, u);
    SameIds(t, u);
    assert t.infos.Keys - {k} <= u.infos.Keys;
    MoreZero(h, u, t.infos.Keys - {k}, u.infos.Keys);
    hide Place;
    hide NewOk;
    RefsOnlyIndexed(t, u);
    RefsOnlyTried(h, t, u);
  }

  lemma MoreZero(h: Hasher, t: State, zero: set<int>, more: set<int>)
    requires NewOk(h, t, zero) && zero <= more
    ensures NewOk(h, t, more)
  {
    hide NewSlotIn;
  }

  // ----- The three loops

  /** The counters were read from the stream, and the entries so far are counted. */
  lemma LoadNewOneSound(h: Hasher, place: bool, t: State, x: Saved)
    requires Sound(h, t) && |t.random| !in t.infos
    ensures var u := LoadNewOne(h, place, t, x);
            && Sound(h, u) && u.nNew == t.nNew && u.nTried == t.nTried
            && |NewIds(u.infos)| == |NewIds(t.infos)| + 1 && TriedIds(u.infos) == TriedIds(t.infos)
  {
    var k := |t.random|;
    var info := Load(x).(randomPos := k);
    var e := Enter(t, k, info);
    EnterIndexed(t, k, info);
    EnterTried(h, t, k, info);
    EnterNew(h, t, k, info);
    EnterIds(t, k, info);
    var q := NewSlot(h, info.service, info.source);
    assert LoadNewOne(h, place, t, x) == if place && q !in e.newTable then Place(e, q, k) else e;
    hide Indexed;
    hide TriedOk;
    hide NewOk;
    hide LoadNewOne;
    hide NewIds;
    hide TriedIds;
    if place && q !in e.newTable {
      PlaceSound(h, e, q, k);
    }
  }

  lemma {:induction false} LoadNewsSound(h: Hasher, place: bool, start: State, xs: seq<Saved>)
    requires start.random == [] && Numbered(start) && Sound(h, start) && start.infos == map[]
    ensures var t := LoadNews(h, place, start, xs);
            && Sound(h, t) && t.nNew == start.nNew && t.nTried == start.nTried
            && |NewIds(t.infos)| == |xs| && TriedIds(t.infos) == {}
  {
    if xs == [] {
      assert NewIds(start.infos) == {} && TriedIds(start.infos) == {};
    } else {
      var n := |xs| - 1;
      LoadNewsSound(h, place, start, xs[..n]);
      LoadNewsStep(h, place, start, xs, n);
      assert xs[..n + 1] == xs;
      var t := LoadNews(h, place, start, xs[..n]);
      assert |t.random| !in t.infos;
      hide *;
      LoadNewOneSound(h, place, t, xs[n]);
    }
  }

  lemma LoadTriedOneSound(h: Hasher, t: State, x: Saved)
    requires Sound(h, t) && t.idCount == |t.random| && t.idCount !in t.infos
    ensures var u := LoadTriedOne(h, t, x);
            && Sound(h, u) && u.nNew == t.nNew && NewIds(u.infos) == NewIds(t.infos)
            && u.nTried - |TriedIds(u.infos)| == t.nTried - |TriedIds(t.infos)| - 1
            && u.idCount >= t.idCount && forall x :: x in u.infos && x < t.idCount ==> x in t.infos && u.infos[x] == t.infos[x]
  {
    var q, k := TriedSlot(h, x.service), t.idCount;
    if q !in t.triedTable {
      var info := Load(x).(randomPos := |t.random|, inTried := true);
      var e := Enter(t, k, info);
      EnterIndexed(t, k, info);
      EnterNew(h, t, k, info);
      EnterIds(t, k, info);
      var u := LoadTriedOne(h, t, x);
      assert u == e.(triedTable := t.triedTable[q := k], idCount := k + 1);
      SeatedTried(h, t, k, info, q);
      hide Indexed;
      hide TriedOk;
      hide NewOk;
      hide NewIds;
      hide TriedIds;
      hide LoadTriedOne;
      SeatedRest(h, e, u);
    } else {
      var u := LoadTriedOne(h, t, x);
      assert u == t.(nTried := t.nTried - 1);
      OneLess(h, t, u);
      hide *;
    }
  }

  lemma SeatedRest(h: Hasher, e: State, u: State)
    requires u == e.(triedTable := u.triedTable, idCount := u.idCount) && Indexed(e) && NewOk(h, e, e.infos.Keys)
    ensures Indexed(u) && NewOk(h, u, u.infos.Keys)
  {
    hide NewSlotIn;
  }

  lemma OneLess(h: Hasher, t: State, u: State)
    requires u == t.(nTried := t.nTried - 1) && Sound(h, t)
    ensures Sound(h, u) && NewIds(u.infos) == NewIds(t.infos) && TriedIds(u.infos) == TriedIds(t.infos)
  {
    hide NewSlotIn;
    hide TriedSlot;
  }

  lemma SeatedTried(h: Hasher, t: State, k: int, info: Info, q: Slot)
    requires TriedOk(h, t) && k !in t.infos && info.inTried && q == TriedSlot(h, info.service) && q !in t.triedTable
    ensures TriedOk(h, Enter(t, k, info).(triedTable := t.triedTable[q := k], idCount := k + 1))
  {
    hide TriedSlot;
    var u := Enter(t, k, info).(triedTable := t.triedTable[q := k], idCount := k + 1);
    forall p | p in u.triedTable
      ensures var id := u.triedTable[p]; id in u.infos && u.infos[id].inTried && p == TriedSlot(h, u.infos[id].service)
    {
      if p != q {
        var id := t.triedTable[p];
        assert id in t.infos;
      }
    }
  }

  lemma {:induction false} LoadTriedsSound(h: Hasher, start: State, xs: seq<Saved>)
    requires start.idCount == |start.random| && Numbered(start) && Sound(h, start) && TriedIds(start.infos) == {}
    ensures var t := LoadTrieds(h, start, xs);
            && Sound(h, t) && t.nNew == start.nNew && NewIds(t.infos) == NewIds(start.infos)
            && t.nTried == start.nTried - |xs| + |TriedIds(t.infos)|
            && t.idCount >= start.idCount && LowNew(t, start.idCount)
  {
    if xs == [] {
      NoneTried(start, start.idCount);
    } else {
      var n := |xs| - 1;
      LoadTriedsSound(h, start, xs[..n]);
      var t := LoadTrieds(h, start, xs[..n]);
      assert LoadTrieds(h, start, xs) == LoadTriedOne(h, t, xs[n]);
      assert t.idCount !in t.infos;
      LoadTriedOneSound(h, t, xs[n]);
      LowNewKept(t, LoadTriedOne(h, t, xs[n]), start.idCount);
      hide *;
    }
  }

  /** The numbers below `n` are not those of tried entries. */
  ghost predicate LowNew(t: State, n: int) {
    forall x :: x in t.infos && x < n ==> !t.infos[x].inTried
  }

  lemma NoneTried(t: State, n: int)
    requires TriedIds(t.infos) == {}
    ensures LowNew(t, n)
  {
    forall x | x in t.infos && x < n ensures !t.infos[x].inTried {
      assert x !in TriedIds(t.infos);
    }
  }

  lemma LowNewKept(t: State, u: State, n: int)
    requires LowNew(t, n) && n <= t.idCount
    requires forall x :: x in u.infos && x < t.idCount ==> x in t.infos && u.infos[x] == t.infos[x]
    ensures LowNew(u, n)
  {
  }

  /** `t` differs from `s` in references only, and is as sound. */
  ghost predicate Refined(h: Hasher, s: State, t: State) {
    Sound(h, t) && RefsOnly(s, t) && NewIds(t.infos) == NewIds(s.infos) && TriedIds(t.infos) == TriedIds(s.infos)
  }

  lemma RefinedTransitive(h: Hasher, s: State, t: State, u: State)
    requires Refined(h, s, t) && Refined(h, t, u)
    ensures Refined(h, s, u)
  {
    hide Sound;
    hide NewIds;
    hide TriedIds;
  }

  lemma LoadIndexRefines(h: Hasher, usable: bool, t: State, b: nat, k: int)
    requires Sound(h, t) && (usable ==> b < NEW_BUCKET_COUNT) && LowNew(t, t.nNew)
    ensures Refined(h, t, LoadIndex(h, usable, t, b, k))
  {
    hide Sound;
    hide NewIds;
    hide TriedIds;
    if 0 <= k < t.nNew && k in t.infos {
      var q := NewSlotIn(h, b, t.infos[k].service);
      if usable && q !in t.newTable && t.infos[k].refCount < NEW_BUCKETS_PER_ADDRESS {
        PlaceSound(h, t, q, k);
      }
    }
  }

  lemma RefinedLow(h: Hasher, s: State, t: State)
    requires Refined(h, s, t) && LowNew(s, s.nNew)
    ensures LowNew(t, t.nNew) && Sound(h, t)
  {
    hide Sound;
    hide NewIds;
    hide TriedIds;
  }

  lemma RefinedSelf(h: Hasher, t: State)
    requires Sound(h, t)
    ensures Refined(h, t, t)
  {
    hide Sound;
  }

  lemma {:induction false} LoadRowRefines(h: Hasher, usable: bool, t: State, b: nat, row: seq<int>)
    requires Numbered(t) && Sound(h, t) && (usable ==> b < NEW_BUCKET_COUNT) && LowNew(t, t.nNew)
    ensures Refined(h, t, LoadRow(h, usable, t, b, row))
  {
    hide Sound;
    hide Numbered;
    hide Refined;
    hide LowNew;
    hide LoadIndex;
    if row == [] {
      RefinedSelf(h, t);
    } else {
      var n := |row| - 1;
      var u := LoadRow(h, usable, t, b, row[..n]);
      assert LoadRow(h, usable, t, b, row) == LoadIndex(h, usable, u, b, row[n]);
      LoadRowRefines(h, usable, t, b, row[..n]);
      RefinedLow(h, t, u);
      LoadIndexRefines(h, usable, u, b, row[n]);
      RefinedTransitive(h, t, u, LoadRow(h, usable, t, b, row));
    }
  }

  lemma {:induction false} LoadRowsRefines(h: Hasher, usable: bool, t: State, rows: seq<seq<int>>)
    requires Numbered(t) && Sound(h, t) && (usable ==> |rows| <= NEW_BUCKET_COUNT) && LowNew(t, t.nNew)
    ensures Refined(h, t, LoadRows(h, usable, t, rows))
  {
    hide Sound;
    hide Numbered;
    hide Refined;
    hide LowNew;
    hide LoadRow;
    if rows == [] {
      RefinedSelf(h, t);
    } else {
      var n := |rows| - 1;
      var u := LoadRows(h, usable, t, rows[..n]);
      assert LoadRows(h, usable, t, rows) == LoadRow(h, usable, u, n, rows[n]);
      LoadRowsRefines(h, usable, t, rows[..n]);
      RefinedLow(h, t, u);
      LoadRowRefines(h, usable, u, n, rows[n]);
      RefinedTransitive(h, t, u, LoadRows(h, usable, t, rows));
    }
  }

  // ----- Pruning

  /** An entry that will be pruned. */
  predicate Doomed(v: State, x: int) {
    x in v.infos && !v.infos[x].inTried && v.infos[x].refCount == 0
  }

  /** All of the consistency predicate but `mapAddr`; the numbers from `n` on may be without a reference. */
  ghost predicate Settled(h: Hasher, t: State, n: int) {
    && RandomOk(t) && TriedOk(h, t) && CountsOk(t, 0)
    && NewOk(h, t, set x | x in t.infos && x >= n)
  }

  lemma PopKeepsTried(h: Hasher, t: State)
    requires RandomOk(t) && TriedOk(h, t) && |t.random| > 0 && !t.infos[t.random[|t.random| - 1]].inTried
    ensures TriedOk(h, Pop(t))
  {
    hide TriedSlot;
  }

  lemma PopKeepsCounts(t: State)
    requires RandomOk(t) && CountsOk(t, 0) && |t.random| > 0 && !t.infos[t.random[|t.random| - 1]].inTried
    ensures CountsOk(Pop(t), 0)
  {
    var id, r := t.random[|t.random| - 1], Pop(t);
    hide RandomOk;
    assert forall x :: x in NewIds(r.infos) <==> x in NewIds(t.infos) - {id};
    assert NewIds(r.infos) == NewIds(t.infos) - {id};
    assert forall x :: x in TriedIds(r.infos) <==> x in TriedIds(t.infos);
    assert TriedIds(r.infos) == TriedIds(t.infos);
  }

  lemma DeleteSettles(h: Hasher, s: State, n: int)
    requires Settled(h, s, n) && Doomed(s, n)
    ensures Settled(h, Delete(s, n), n + 1)
  {
    SettledParts(h, s, n);
    hide *;
    var t := DeleteVia(s, n);
    StillZero(s, t, n);
    SettlePieces(h, s, n, t, set x | x in s.infos && x >= n);
  }

  lemma SettledParts(h: Hasher, t: State, n: int)
    requires Settled(h, t, n)
    ensures RandomOk(t) && TriedOk(h, t) && CountsOk(t, 0) && NewOk(h, t, set x | x in t.infos && x >= n)
  {
    hide RandomOk;
    hide TriedOk;
    hide CountsOk;
    hide NewOk;
  }

  lemma DeleteVia(s: State, n: int) returns (t: State)
    requires RandomOk(s) && Doomed(s, n)
    ensures PositionOnly(s, t) && RandomOk(t) && |t.random| > 0 && t.random[|t.random| - 1] == n && n in t.infos
    ensures Delete(s, n) == Pop(t)
  {
    SwapToEnd(s, n);
    DeletePops(s, n);
    t := SwapRandom(s, s.infos[n].randomPos, |s.random| - 1);
    hide *;
  }

  lemma StillZero(s: State, t: State, n: int)
    requires PositionOnly(s, t) && Doomed(s, n) && RandomOk(t) && |t.random| > 0 && t.random[|t.random| - 1] == n
    ensures t.infos[n].refCount == 0 && !t.infos[n].inTried
    ensures (set x | x in s.infos && x >= n) - {n} <= set x | x in Pop(t).infos && x >= n + 1
  {
  }

  lemma SettlePieces(h: Hasher, s: State, n: int, t: State, zero: set<int>)
    requires PositionOnly(s, t) && TriedOk(h, s) && CountsOk(s, 0) && NewOk(h, s, zero)
    requires RandomOk(t) && |t.random| > 0 && t.random[|t.random| - 1] == n
    requires t.infos[n].refCount == 0 && !t.infos[n].inTried && zero - {n} <= set x | x in Pop(t).infos && x >= n + 1
    ensures Settled(h, Pop(t), n + 1)
  {
    hide TriedOk;
    hide NewOk;
    hide CountsOk;
    PopKeepsRandom(t);
    PositionOnlyKeepsTried(h, s, t);
    PositionOnlyKeepsNew(h, s, t, zero);
    PositionOnlyKeepsCounts(s, t, 0);
    PopKeepsTried(h, t);
    PopKeepsCounts(t);
    PopKeepsNew(h, t, zero);
    MoreZero(h, Pop(t), zero - {n}, set x | x in Pop(t).infos && x >= n + 1);
  }

  lemma SkipSettles(h: Hasher, s: State, n: int)
    requires Settled(h, s, n) && !Doomed(s, n)
    ensures Settled(h, s, n + 1)
  {
    hide NewSlotIn;
    hide RandomOk;
    hide TriedOk;
    hide CountsOk;
  }

  /** The address lost its owner, because some entry below `n` with that address was pruned. */
  ghost predicate Erased(v: State, n: int, ip: Ip) {
    exists x :: x < n && Doomed(v, x) && v.infos[x].service.ip == ip
  }

  /** What is left of `v` when the numbers below `n` have been looked at. */
  ghost predicate Kept(v: State, u: State, n: int) {
    && u.idCount == v.idCount
    && (forall x :: x in u.infos <==> x in v.infos && !(x < n && Doomed(v, x)))
    && (forall x :: x in u.infos ==>
          && u.infos[x].service == v.infos[x].service && u.infos[x].inTried == v.infos[x].inTried
          && u.infos[x].refCount == v.infos[x].refCount)
    && (forall ip :: ip in u.byIp <==> ip in v.byIp && !Erased(v, n, ip))
    && (forall ip :: ip in u.byIp ==> u.byIp[ip] == v.byIp[ip])
  }

  lemma KeptStep(v: State, u: State, r: State, n: int)
    requires Kept(v, u, n) && Doomed(u, n) && Without(u, r, n) && r.byIp == u.byIp - {u.infos[n].service.ip}
    ensures Kept(v, r, n + 1)
  {
    forall ip ensures Erased(v, n + 1, ip) <==> Erased(v, n, ip) || v.infos[n].service.ip == ip {
      ErasedNext(v, n, ip);
    }
  }

  lemma ErasedNext(v: State, n: int, ip: Ip)
    ensures Erased(v, n + 1, ip) <==> Erased(v, n, ip) || (Doomed(v, n) && v.infos[n].service.ip == ip)
  {
    if Erased(v, n + 1, ip) && !Erased(v, n, ip) {
      var x :| x < n + 1 && Doomed(v, x) && v.infos[x].service.ip == ip;
      assert x == n;
    }
  }

  lemma KeptSkip(v: State, u: State, n: int)
    requires Kept(v, u, n) && !Doomed(u, n)
    ensures Kept(v, u, n + 1)
  {
    assert !Doomed(v, n);
    forall ip ensures Erased(v, n + 1, ip) <==> Erased(v, n, ip) {
      ErasedNext(v, n, ip);
    }
  }

  lemma {:induction false} PruneSettles(h: Hasher, v: State, n: nat)
    requires Settled(h, v, 0) && forall x :: x in v.infos ==> x >= 0
    ensures Settled(h, Prune(v, n), n) && Kept(v, Prune(v, n), n)
  {
    SettledParts(h, v, 0);
    hide *;
    if n == 0 {
      PruneNone(v);
      NoneErased(v);
    } else {
      var m := n - 1;
      PruneSettles(h, v, m);
      PruneStep(v, n);
      var u := Prune(v, m);
      SettledParts(h, u, m);
      if Doomed(u, m) {
        DoomedFrame(u, m);
        DeleteSettles(h, u, m);
        KeptStep(v, u, Prune(v, n), m);
      } else {
        SkipSettles(h, u, m);
        KeptSkip(v, u, m);
      }
    }
  }

  lemma PruneNone(v: State)
    requires RandomOk(v)
    ensures Prune(v, 0) == v
  {
  }

  lemma PruneStep(v: State, n: nat)
    requires RandomOk(v) && n > 0
    ensures var u := Prune(v, n - 1);
            && (Doomed(u, n - 1) ==> Prune(v, n) == Delete(u, n - 1))
            && (!Doomed(u, n - 1) ==> Prune(v, n) == u)
  {
  }

  lemma DoomedFrame(s: State, id: int)
    requires RandomOk(s) && Doomed(s, id)
    ensures id in s.infos && Without(s, Delete(s, id), id)
    ensures Delete(s, id).byIp == s.byIp - {s.infos[id].service.ip}
  {
    DeleteFrame(s, id);
    hide RandomOk;
    hide Without;
  }

  lemma NoneErased(v: State)
    requires forall x :: x in v.infos ==> x >= 0
    ensures Kept(v, v, 0)
  {
  }

  // ----- The loaded state

  /** No entry that survives shares its address with another entry of the stream. */
  ghost predicate Unshared(v: State) {
    forall x, y :: x in v.infos && y in v.infos && x != y && !Doomed(v, x) ==>
      v.infos[x].service.ip != v.infos[y].service.ip
  }

  lemma OwnersOf(v: State, u: State, n: int)
    requires Kept(v, u, n) && Indexed(v) && u.idCount == n >= 0 && forall x :: x in v.infos ==> 0 <= x < n
    ensures AddrOk(u) <==> Unshared(v)
  {
    if Unshared(v) {
      UnsharedOwned(v, u, n);
    }
    if AddrOk(u) {
      OwnedUnshared(v, u, n);
    }
  }

  lemma UnsharedOwned(v: State, u: State, n: int)
    requires Kept(v, u, n) && Indexed(v) && u.idCount == n >= 0 && forall x :: x in v.infos ==> 0 <= x < n
    requires Unshared(v)
    ensures AddrOk(u)
  {
    forall x | x in u.infos ensures u.infos[x].service.ip in u.byIp && u.byIp[u.infos[x].service.ip] == x {
      var ip := v.infos[x].service.ip;
      assert v.byIp[ip] == x;
      assert !Erased(v, n, ip);
    }
    forall ip | ip in u.byIp ensures u.byIp[ip] in u.infos && u.infos[u.byIp[ip]].service.ip == ip {
      var x := v.byIp[ip];
      assert x in v.infos && v.infos[x].service.ip == ip;
      assert !Doomed(v, x);
    }
  }

  lemma OwnedUnshared(v: State, u: State, n: int)
    requires Kept(v, u, n) && Indexed(v) && forall x :: x in v.infos ==> 0 <= x < n
    requires AddrOk(u)
    ensures Unshared(v)
  {
    forall x, y | x in v.infos && y in v.infos && x != y && !Doomed(v, x)
      ensures v.infos[x].service.ip != v.infos[y].service.ip
    {
      assert x in u.infos;
      var ip := u.infos[x].service.ip;
      assert u.byIp[ip] == x && !Erased(v, n, ip);
    }
  }

  // ----- Whole streams

  /** The number of new buckets that the stream announces. */
  function Buckets(d: Stream): nat {
    if d.version != 0 then Toggle(d.uBuckets) else d.uBuckets
  }

  ghost predicate Accepted(d: Stream) {
    && d.keySize == KEY_SIZE
    && d.nNew <= NEW_BUCKET_COUNT * BUCKET_SIZE && d.nTried <= TRIED_BUCKET_COUNT * BUCKET_SIZE
    && |d.newEntries| >= d.nNew && |d.triedEntries| >= d.nTried && |d.rows| >= Buckets(d)
  }

  ghost predicate Usable(d: Stream) {
    d.version == FORMAT_VERSION && Buckets(d) == NEW_BUCKET_COUNT
  }

  ghost function Fresh(d: Stream): State {
    Empty.(nNew := d.nNew, nTried := d.nTried)
  }

  /** After the first loop. */
  ghost function FirstStage(h: Hasher, d: Stream): (t: State)
    requires Accepted(d)
    ensures Numbered(t) && t.idCount == |t.random| == d.nNew
  {
    LoadNews(h, !Usable(d), Fresh(d), d.newEntries[..d.nNew]).(idCount := d.nNew)
  }

  /** After the second loop. */
  ghost function SecondStage(h: Hasher, d: Stream): (u: State)
    requires Accepted(d)
    ensures Numbered(u) && u.idCount == |u.random|
  {
    LoadTrieds(h, FirstStage(h, d), d.triedEntries[..d.nTried])
  }

  /** The entries of the stream with their references, before those without one are deleted. */
  ghost function BeforePruning(h: Hasher, d: Stream): (v: State)
    requires Accepted(d)
    ensures Numbered(v) && v.idCount == |v.random|
  {
    LoadRows(h, Usable(d), SecondStage(h, d), d.rows[..Buckets(d)])
  }

  lemma LoadedAs(hashers: nat -> Hasher, d: Stream)
    ensures Unserialize(hashers, d).Loaded? <==> Accepted(d)
    ensures Accepted(d) ==>
              var v := BeforePruning(hashers(d.key), d);
              RandomOk(v) && Unserialize(hashers, d) == Loaded(d.key, Prune(v, v.idCount))
  {
    if Accepted(d) {
      NumberedRandom(BeforePruning(hashers(d.key), d));
    }
    hide Numbered;
    hide RandomOk;
    hide LoadNews;
    hide LoadTrieds;
    hide LoadRows;
    hide Prune;
    hide Toggle;
  }

  lemma EmptySound(h: Hasher, t: State)
    requires t.random == [] && t.infos == map[] && t.byIp == map[] && t.newTable == map[] && t.triedTable == map[]
    ensures Numbered(t) && Sound(h, t)
  {
  }

  lemma RenumberedSound(h: Hasher, t: State, n: int)
    requires Numbered(t) && Sound(h, t)
    ensures Numbered(t.(idCount := n)) && Sound(h, t.(idCount := n))
  {
    hide NewSlotIn;
    hide TriedSlot;
  }

  lemma FirstStageSound(h: Hasher, d: Stream)
    requires Accepted(d)
    ensures var t := FirstStage(h, d);
            && Sound(h, t) && t.nNew == d.nNew && t.nTried == d.nTried
            && |NewIds(t.infos)| == d.nNew && TriedIds(t.infos) == {}
  {
    EmptySound(h, Fresh(d));
    hide Sound;
    hide LoadNews;
    var xs := d.newEntries[..d.nNew];
    LoadNewsSound(h, !Usable(d), Fresh(d), xs);
    RenumberedSound(h, LoadNews(h, !Usable(d), Fresh(d), xs), d.nNew);
  }

  lemma SecondStageSound(h: Hasher, d: Stream)
    requires Accepted(d)
    ensures var u := SecondStage(h, d);
            && Sound(h, u) && |NewIds(u.infos)| == u.nNew && |TriedIds(u.infos)| == u.nTried && LowNew(u, u.nNew)
  {
    FirstStageSound(h, d);
    hide Sound;
    hide FirstStage;
    hide LoadTrieds;
    LoadTriedsSound(h, FirstStage(h, d), d.triedEntries[..d.nTried]);
  }

  lemma BeforePruningRefines(h: Hasher, d: Stream)
    requires Accepted(d)
    ensures Refined(h, SecondStage(h, d), BeforePruning(h, d))
  {
    SecondStageSound(h, d);
    hide Sound;
    hide LowNew;
    hide Refined;
    hide SecondStage;
    LoadRowsRefines(h, Usable(d), SecondStage(h, d), d.rows[..Buckets(d)]);
  }

  lemma BeforePruningSettled(h: Hasher, d: Stream)
    requires Accepted(d)
    ensures var v := BeforePruning(h, d);
            && Settled(h, v, 0) && Indexed(v) && v.idCount >= 0 && forall x :: x in v.infos ==> 0 <= x < v.idCount
  {
    hide *;
    SecondStageSound(h, d);
    BeforePruningRefines(h, d);
    SettledLoad(h, SecondStage(h, d), BeforePruning(h, d));
  }

  lemma SettledLoad(h: Hasher, u: State, v: State)
    requires Refined(h, u, v) && Numbered(v) && v.idCount == |v.random|
    requires |NewIds(u.infos)| == u.nNew && |TriedIds(u.infos)| == u.nTried
    ensures Settled(h, v, 0) && Indexed(v) && v.idCount >= 0 && forall x :: x in v.infos ==> 0 <= x < v.idCount
  {
    NumberedRandom(v);
    MoreZero(h, v, v.infos.Keys, set x | x in v.infos && x >= 0);
    hide NewOk;
    hide TriedOk;
    hide RandomOk;
    hide Indexed;
    hide NewIds;
    hide TriedIds;
  }

  lemma SettledBase(h: Hasher, s: State, n: int)
    requires Settled(h, s, n) && forall x :: x in s.infos ==> x < n
    ensures RandomOk(s) && TriedOk(h, s) && CountsOk(s, 0) && NewOk(h, s, {})
    ensures Consistent(h, s) <==> AddrOk(s)
  {
    assert (set x | x in s.infos && x >= n) == {};
    hide NewOk;
    hide TriedOk;
    hide RandomOk;
    hide AddrOk;
  }

  /** Whatever the stream: it loads if and only if its header fits, and then everything but `mapAddr` is right. The
      whole state is consistent if and only if no surviving entry shares its address with another. */
  lemma LoadedConsistent(hashers: nat -> Hasher, d: Stream)
    ensures Unserialize(hashers, d).Loaded? <==> Accepted(d)
    ensures Accepted(d) ==>
              var h, s := hashers(d.key), Unserialize(hashers, d).state;
              && RandomOk(s) && TriedOk(h, s) && NewOk(h, s, {}) && CountsOk(s, 0)
              && (Consistent(h, s) <==> Unshared(BeforePruning(h, d)))
  {
    LoadedAs(hashers, d);
    if Accepted(d) {
      var h := hashers(d.key);
      var v := BeforePruning(h, d);
      BeforePruningSettled(h, d);
      PruneSettles(h, v, v.idCount);
      var s := Prune(v, v.idCount);
      PrunedBelow(v, s, v.idCount);
      hide *;
      SettledBase(h, s, v.idCount);
      OwnersOf(v, s, v.idCount);
    }
  }

  lemma PrunedBelow(v: State, s: State, n: int)
    requires Kept(v, s, n) && forall x :: x in v.infos ==> 0 <= x < n
    ensures s.idCount == v.idCount && forall x :: x in s.infos ==> x < n
  {
  }

  // ----- Streams in which no address occurs twice

  ghost predicate DistinctIps(all: seq<Saved>) {
    forall i, j :: 0 <= i < j < |all| ==> all[i].service.ip != all[j].service.ip
  }

  /** The entries of `t` have different addresses, all of them taken from `all`. */
  ghost predicate Drawn(t: State, all: seq<Saved>) {
    && (forall x, y :: x in t.infos && y in t.infos && x != y ==> t.infos[x].service.ip != t.infos[y].service.ip)
    && (forall x :: x in t.infos ==> exists i :: 0 <= i < |all| && all[i].service.ip == t.infos[x].service.ip)
  }

  /** The entries of `u` are among those of `t`, and `k` if need be with the address of `a`. */
  ghost predicate Grown(t: State, u: State, k: int, a: Service) {
    forall x :: x in u.infos ==>
      if x == k then u.infos[x].service == a else x in t.infos && u.infos[x].service == t.infos[x].service
  }

  lemma DrawnGrown(t: State, u: State, k: int, all: seq<Saved>, x: Saved)
    requires Drawn(t, all) && k !in t.infos && Grown(t, u, k, x.service) && DistinctIps(all + [x])
    ensures Drawn(u, all + [x])
  {
    var more := all + [x];
    assert more[|all|] == x;
    forall y | y in u.infos ensures exists i :: 0 <= i < |more| && more[i].service.ip == u.infos[y].service.ip {
      if y != k {
        var i :| 0 <= i < |all| && all[i].service.ip == t.infos[y].service.ip;
        assert more[i] == all[i];
      }
    }
    forall y | y in u.infos && y != k ensures u.infos[y].service.ip != x.service.ip {
      var i :| 0 <= i < |all| && all[i].service.ip == t.infos[y].service.ip;
      assert more[i] == all[i];
    }
  }

  lemma DistinctPrefix(all: seq<Saved>, more: seq<Saved>)
    requires DistinctIps(all + more)
    ensures DistinctIps(all)
  {
    forall i, j | 0 <= i < j < |all| ensures all[i].service.ip != all[j].service.ip {
      assert (all + more)[i] == all[i] && (all + more)[j] == all[j];
    }
  }

  lemma {:induction false} LoadNewsDrawn(h: Hasher, place: bool, start: State, xs: seq<Saved>)
    requires start.random == [] && Numbered(start) && start.infos == map[] && DistinctIps(xs)
    ensures Drawn(LoadNews(h, place, start, xs), xs)
  {
    if xs != [] {
      var n := |xs| - 1;
      var t := LoadNews(h, place, start, xs[..n]);
      assert xs[..n] + [xs[n]] == xs && xs[..n + 1] == xs;
      DistinctPrefix(xs[..n], [xs[n]]);
      LoadNewsDrawn(h, place, start, xs[..n]);
      LoadNewsStep(h, place, start, xs, n);
      assert |t.random| !in t.infos;
      NewOneGrows(h, place, t, xs[n]);
      hide *;
      DrawnGrown(t, LoadNewOne(h, place, t, xs[n]), |t.random|, xs[..n], xs[n]);
    }
  }

  lemma NewOneGrows(h: Hasher, place: bool, t: State, x: Saved)
    ensures Grown(t, LoadNewOne(h, place, t, x), |t.random|, x.service)
  {
    hide NewSlot;
  }

  lemma TriedOneGrows(h: Hasher, t: State, x: Saved)
    requires t.idCount !in t.infos
    ensures Grown(t, LoadTriedOne(h, t, x), t.idCount, x.service)
  {
    hide TriedSlot;
  }

  lemma {:induction false} LoadTriedsDrawn(h: Hasher, start: State, base: seq<Saved>, xs: seq<Saved>)
    requires start.idCount == |start.random| && Numbered(start) && Drawn(start, base) && DistinctIps(base + xs)
    ensures Drawn(LoadTrieds(h, start, xs), base + xs)
  {
    if xs == [] {
      assert base + xs == base;
    } else {
      var n := |xs| - 1;
      var t := LoadTrieds(h, start, xs[..n]);
      assert base + xs[..n] + [xs[n]] == base + xs;
      DistinctPrefix(base + xs[..n], [xs[n]]);
      LoadTriedsDrawn(h, start, base, xs[..n]);
      assert LoadTrieds(h, start, xs) == LoadTriedOne(h, t, xs[n]);
      assert t.idCount !in t.infos;
      TriedOneGrows(h, t, xs[n]);
      hide *;
      DrawnGrown(t, LoadTriedOne(h, t, xs[n]), t.idCount, base + xs[..n], xs[n]);
    }
  }

  lemma RefinedUnshared(h: Hasher, u: State, v: State, all: seq<Saved>)
    requires Refined(h, u, v) && Drawn(u, all)
    ensures Unshared(v)
  {
    hide Sound;
    hide NewIds;
    hide TriedIds;
  }

  lemma FirstStageDrawn(h: Hasher, d: Stream)
    requires Accepted(d) && DistinctIps(d.newEntries[..d.nNew])
    ensures Drawn(FirstStage(h, d), d.newEntries[..d.nNew])
  {
    LoadNewsDrawn(h, !Usable(d), Fresh(d), d.newEntries[..d.nNew]);
    hide LoadNews;
    hide DistinctIps;
  }

  /** A stream in which no address occurs twice loads into a consistent state, whatever its bucket section says. */
  lemma DistinctLoads(hashers: nat -> Hasher, d: Stream)
    requires Accepted(d) && DistinctIps(d.newEntries[..d.nNew] + d.triedEntries[..d.nTried])
    ensures Unserialize(hashers, d).Loaded? && Consistent(hashers(d.key), Unserialize(hashers, d).state)
  {
    var h, xs, ys := hashers(d.key), d.newEntries[..d.nNew], d.triedEntries[..d.nTried];
    assert SecondStage(h, d) == LoadTrieds(h, FirstStage(h, d), ys);
    hide *;
    DistinctPrefix(xs, ys);
    FirstStageDrawn(h, d);
    LoadTriedsDrawn(h, FirstStage(h, d), xs, ys);
    BeforePruningRefines(h, d);
    RefinedUnshared(h, SecondStage(h, d), BeforePruning(h, d), xs + ys);
    LoadedConsistent(hashers, d);
  }

  /** Two tried entries of one address in different slots are both loaded, and the state is not consistent. */
  lemma SharedAddressLoads(hashers: nat -> Hasher, d: Stream, a: Saved, b: Saved)
    requires Accepted(d) && d.nNew == 0 && d.nTried == 2 && a == d.triedEntries[0] && b == d.triedEntries[1]
    requires a.service.ip == b.service.ip && TriedSlot(hashers(d.key), a.service) != TriedSlot(hashers(d.key), b.service)
    ensures Unserialize(hashers, d).Loaded? && !Consistent(hashers(d.key), Unserialize(hashers, d).state)
  {
    var h := hashers(d.key);
    StartsEmpty(h, d);
    assert d.triedEntries[..d.nTried] == [a, b];
    assert SecondStage(h, d) == LoadTrieds(h, FirstStage(h, d), [a, b]);
    hide *;
    TwoTried(h, FirstStage(h, d), a, b);
    BeforePruningRefines(h, d);
    BothKept(h, SecondStage(h, d), BeforePruning(h, d));
    LoadedConsistent(hashers, d);
  }

  lemma StartsEmpty(h: Hasher, d: Stream)
    requires Accepted(d) && d.nNew == 0
    ensures var t := FirstStage(h, d);
            t.idCount == 0 && t.random == [] && t.infos == map[] && t.triedTable == map[] && Numbered(t)
  {
    assert d.newEntries[..d.nNew] == [];
  }

  lemma TwoTried(h: Hasher, t: State, a: Saved, b: Saved)
    requires t.idCount == 0 && t.random == [] && t.infos == map[] && t.triedTable == map[] && Numbered(t)
    requires TriedSlot(h, a.service) != TriedSlot(h, b.service)
    ensures var u := LoadTrieds(h, t, [a, b]);
            && 0 in u.infos && u.infos[0].inTried && u.infos[0].service == a.service
            && 1 in u.infos && u.infos[1].inTried && u.infos[1].service == b.service
  {
    hide TriedSlot;
    hide Numbered;
    assert LoadTrieds(h, t, []) == t;
    assert [a][..0] == [];
    assert LoadTrieds(h, t, [a]) == LoadTriedOne(h, t, a);
    assert [a, b][..1] == [a];
    assert LoadTrieds(h, t, [a, b]) == LoadTriedOne(h, LoadTriedOne(h, t, a), b);
  }

  lemma BothKept(h: Hasher, u: State, v: State)
    requires Refined(h, u, v) && 0 in u.infos && 1 in u.infos && u.infos[0].inTried
    requires u.infos[0].service.ip == u.infos[1].service.ip
    ensures !Unshared(v)
  {
    hide Sound;
    assert 0 in v.infos && 1 in v.infos && !Doomed(v, 0);
  }
}
