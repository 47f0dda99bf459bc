/** What an addition to the address manager does beside keeping the state consistent. */
module AddrManAdd {
  import opened AddrMan
  import opened Arithmetic
  import opened Services

  /** One slot at most was given to `id`, and nobody lost an entry but the terrible holder of the slot, if that was its
      only reference. */
  ghost predicate Spared(terrible: Stats -> bool, s: State, r: State, q: Slot, id: int) {
    && r.triedTable == s.triedTable
    && (r.newTable == s.newTable || (r.newTable == s.newTable[q := id] && id in r.infos))
    && (forall x :: x in r.infos && x != id ==>
          && x in s.infos && r.infos[x].service == s.infos[x].service && r.infos[x].source == s.infos[x].source
          && r.infos[x].inTried == s.infos[x].inTried && r.infos[x].stats == s.infos[x].stats)
    && (forall x :: x in s.infos && x != id && x !in r.infos ==>
          q in s.newTable && s.newTable[q] == x && s.infos[x].refCount == 1 && terrible(s.infos[x].stats))
  }

  // ----- The last part of an addition

  lemma ClearNewLoses(s: State, q: Slot)
    requires Clearable(s, q) && q in s.newTable && s.newTable[q] !in ClearNew(s, q).infos
    ensures s.infos[s.newTable[q]].refCount == 1
  {
    hide RandomOk;
    hide Delete;
  }

  /** The slot goes to `id`. */
  lemma TakeSpares(h: Hasher, terrible: Stats -> bool, s: State, q: Slot, id: int)
    requires Base(h, s, 0, {id}) && id in s.infos && (q in s.newTable ==> s.newTable[q] != id)
    requires q in s.newTable ==> s.newTable[q] in s.infos
    requires MayTake(terrible, s, q, id)
    ensures Clearable(s, q) && id in ClearNew(s, q).infos
    ensures var r := Place(ClearNew(s, q), q, id);
            && Spared(terrible, s, r, q, id) && id in r.infos && r.newTable == s.newTable[q := id]
            && r.infos[id].service == s.infos[id].service
  {
    ClearForKeeps(h, s, q, id);
    ClearNewFrame(s, q);
    var t := ClearNew(s, q);
    if q in s.newTable && s.newTable[q] !in t.infos {
      ClearNewLoses(s, q);
    }
    hide Base;
    hide ClearNew;
    hide Clearable;
    PlaceSpares(terrible, s, t, q, id);
  }

  lemma PlaceSpares(terrible: Stats -> bool, s: State, t: State, q: Slot, id: int)
    requires Cleared(s, t, q) && id in t.infos && id in s.infos && (q in s.newTable ==> s.newTable[q] in s.infos)
    requires forall x :: x in t.infos ==> t.infos[x].service == s.infos[x].service && t.infos[x].source == s.infos[x].source
    requires q in s.newTable && s.newTable[q] !in t.infos ==> s.infos[s.newTable[q]].refCount == 1
    requires MayTake(terrible, s, q, id)
    ensures var r := Place(t, q, id);
            && Spared(terrible, s, r, q, id) && id in r.infos && r.newTable == s.newTable[q := id]
            && r.infos[id].service == s.infos[id].service
  {
    assert (s.newTable - {q})[q := id] == s.newTable[q := id];
  }

  /** After the last part `id` is left if it had a reference or may take the slot. */
  lemma InsertSpares(h: Hasher, terrible: Stats -> bool, s: State, id: int, source: Ip)
    requires Base(h, s, 0, {id}) && id in s.infos
    requires !s.infos[id].inTried && s.infos[id].refCount < NEW_BUCKETS_PER_ADDRESS
    ensures var r, q := Insert(h, terrible, s, id, source), NewSlot(h, s.infos[id].service, source);
            && (q in s.newTable ==> s.newTable[q] in s.infos)
            && Spared(terrible, s, r, q, id)
            && (id in r.infos <==> s.infos[id].refCount > 0 || MayTake(terrible, s, q, id))
            && (id in r.infos && s.infos[id].refCount == 0 ==> r.newTable == s.newTable[q := id])
            && (id in r.infos ==> r.infos[id].service == s.infos[id].service)
  {
    var q := NewSlot(h, s.infos[id].service, source);
    if q in s.newTable && s.newTable[q] == id {
      assert q in SlotsOf(s.newTable, id);
    } else if MayTake(terrible, s, q, id) {
      TakeSpares(h, terrible, s, q, id);
      hide Base;
    } else if s.infos[id].refCount == 0 {
      DeleteFrame(s, id);
      hide Base;
      hide Delete;
    }
  }

  // ----- Whole additions

  /** The entry that the addition is about: the one that owns the address, or a new one. */
  function Subject(s: State, addr: Address): int {
    if addr.service.ip in s.byIp then s.byIp[addr.service.ip] else s.idCount
  }

  /** The slot that the entry's service and the source select. */
  function Target(h: Hasher, s: State, addr: Address, source: Ip): Slot
    requires addr.service.ip in s.byIp ==> s.byIp[addr.service.ip] in s.infos
  {
    NewSlot(h, if addr.service.ip in s.byIp then s.infos[s.byIp[addr.service.ip]].service else addr.service, source)
  }

  /** The slot is free, or held by an entry that is terrible or has another slot. */
  predicate Available(terrible: Stats -> bool, s: State, q: Slot)
    requires q in s.newTable ==> s.newTable[q] in s.infos
  {
    q in s.newTable ==> terrible(s.infos[s.newTable[q]].stats) || s.infos[s.newTable[q]].refCount > 1
  }

  lemma SlotsHeld(h: Hasher, s: State, addr: Address, source: Ip)
    requires Consistent(h, s)
    ensures addr.service.ip in s.byIp ==> s.byIp[addr.service.ip] in s.infos
    ensures var q := Target(h, s, addr, source); q in s.newTable ==> s.newTable[q] in s.infos
  {
  }

  /** The state handed to the last part differs from `s` in the entry `id` only. */
  ghost predicate Prepared(s: State, t: State, id: int) {
    && t.newTable == s.newTable && t.triedTable == s.triedTable
    && t.infos.Keys == s.infos.Keys + {id} && forall x :: x in s.infos && x != id ==> t.infos[x] == s.infos[x]
  }

  lemma SparedBefore(terrible: Stats -> bool, s: State, t: State, r: State, q: Slot, id: int)
    requires Prepared(s, t, id) && Spared(terrible, t, r, q, id)
    ensures Spared(terrible, s, r, q, id)
  {
  }

  /** The refreshed entry, and what becomes of it. */
  lemma RefreshedPrepared(h: Hasher, env: Env, s: State, addr: Address, source: Ip, penaltyIn: int) returns (t: State, gain: bool)
    requires Consistent(h, s) && env.routable(addr.service.ip) && addr.service.ip in s.byIp
    ensures var id := s.byIp[addr.service.ip];
            && id in s.infos && Prepared(s, t, id) && id in t.infos && t.infos[id].service == s.infos[id].service
            && Base(h, t, 0, {id})
            && t.infos[id].refCount >= 0 && t.infos[id] == s.infos[id].(stats := t.infos[id].stats)
            && t.infos[id].stats == Refresh(s.infos[id].stats, addr, if addr.service.ip == source then 0 else penaltyIn, env.now)
            && gain == MayGain(t.infos[id], addr, env.dice)
            && (gain ==> !t.infos[id].inTried && t.infos[id].refCount < NEW_BUCKETS_PER_ADDRESS && t.infos[id].refCount > 0)
            && Add(h, env, s, addr, source, penaltyIn).0 == if gain then Insert(h, env.terrible, t, id, source) else t
  {
    var penalty := if addr.service.ip == source then 0 else penaltyIn;
    var id := s.byIp[addr.service.ip];
    var info := s.infos[id].(stats := Refresh(s.infos[id].stats, addr, penalty, env.now));
    t := Touch(s, id, info);
    gain := MayGain(info, addr, env.dice);
    TouchKeeps(h, s, id, info, 0, {});
    GrowZero(h, t, id);
    hide Refresh;
  }

  lemma KnownOutcome(h: Hasher, env: Env, s: State, addr: Address, source: Ip, penaltyIn: int)
    requires Consistent(h, s) && env.routable(addr.service.ip) && addr.service.ip in s.byIp
    ensures s.byIp[addr.service.ip] in s.infos
    ensures var r, id := Add(h, env, s, addr, source, penaltyIn).0, Subject(s, addr);
            Spared(env.terrible, s, r, Target(h, s, addr, source), id) && id in r.infos
  {
    var id := s.byIp[addr.service.ip];
    var t, gain := RefreshedPrepared(h, env, s, addr, source, penaltyIn);
    var q := NewSlot(h, s.infos[id].service, source);
    assert q == Target(h, s, addr, source) && id == Subject(s, addr);
    hide *;
    if gain {
      InsertSpares(h, env.terrible, t, id, source);
      SparedBefore(env.terrible, s, t, Insert(h, env.terrible, t, id, source), q, id);
    } else {
      SparedSelf(env.terrible, t, q, id);
      SparedBefore(env.terrible, s, t, t, q, id);
    }
  }

  /** A created entry without a reference. */
  lemma CreatedPrepared(h: Hasher, env: Env, s: State, addr: Address, source: Ip, penalty: int)
    requires Consistent(h, s) && addr.service.ip !in s.byIp
    ensures var t, id, q := Created(s, addr, source, penalty), s.idCount, NewSlot(h, addr.service, source);
            && Base(h, t, 0, {id}) && Prepared(s, t, id) && id !in s.infos
            && t.infos[id].service == addr.service && t.infos[id].refCount == 0 && !t.infos[id].inTried
            && (q in s.newTable ==> s.newTable[q] in s.infos)
            && (MayTake(env.terrible, t, q, id) <==> Available(env.terrible, s, q))
  {
    var t, id := Created(s, addr, source, penalty), s.idCount;
    CreatedKeeps(h, s, addr, source, penalty);
    SlotsKnown(h, s);
    assert id !in s.infos;
    hide Base;
    assert Prepared(s, t, id) && t.infos[id].service == addr.service && t.infos[id].refCount == 0 && !t.infos[id].inTried;
    hide Created;
    hide NewSlot;
    TakeOrNot(env.terrible, s, t, id);
    hide Prepared;
  }

  lemma SlotsKnown(h: Hasher, s: State)
    requires Consistent(h, s)
    ensures forall q :: q in s.newTable ==> s.newTable[q] in s.infos
  {
  }

  lemma TakeOrNot(terrible: Stats -> bool, s: State, t: State, id: int)
    requires Prepared(s, t, id) && id !in s.infos && t.infos[id].refCount == 0
    requires forall q :: q in s.newTable ==> s.newTable[q] in s.infos
    ensures t.newTable == s.newTable && forall q :: MayTake(terrible, t, q, id) <==> Available(terrible, s, q)
  {
    forall q ensures MayTake(terrible, t, q, id) <==> Available(terrible, s, q) {
      if q in s.newTable {
        var x := s.newTable[q];
        assert x in s.infos && x != id && t.infos[x] == s.infos[x];
      }
    }
  }

  lemma NewOutcome(h: Hasher, env: Env, s: State, addr: Address, source: Ip, penaltyIn: int)
    requires Consistent(h, s) && env.routable(addr.service.ip) && addr.service.ip !in s.byIp
    ensures var q := Target(h, s, addr, source); q in s.newTable ==> s.newTable[q] in s.infos
    ensures var r, id, q := Add(h, env, s, addr, source, penaltyIn).0, Subject(s, addr), Target(h, s, addr, source);
            && Spared(env.terrible, s, r, q, id) && (id in r.infos <==> Available(env.terrible, s, q))
            && (id in r.infos ==> r.newTable == s.newTable[q := id] && r.infos[id].service == addr.service)
  {
    var penalty := if addr.service.ip == source then 0 else penaltyIn;
    var t := Created(s, addr, source, penalty);
    var q := Target(h, s, addr, source);
    CreatedPrepared(h, env, s, addr, source, penalty);
    assert q == NewSlot(h, addr.service, source) && Subject(s, addr) == s.idCount;
    assert Add(h, env, s, addr, source, penaltyIn).0 == Insert(h, env.terrible, t, s.idCount, source);
    hide *;
    InsertSpares(h, env.terrible, t, s.idCount, source);
    SparedBefore(env.terrible, s, t, Insert(h, env.terrible, t, s.idCount, source), q, s.idCount);
    PreparedTable(s, t, s.idCount);
  }

  lemma PreparedTable(s: State, t: State, id: int)
    requires Prepared(s, t, id)
    ensures t.newTable == s.newTable
  {
  }

  /** The address has an owner afterwards exactly if its entry is there. */
  lemma OwnerAfter(h: Hasher, terrible: Stats -> bool, s: State, r: State, q: Slot, addr: Address)
    requires Consistent(h, s) && Consistent(h, r) && addr.service.ip !in s.byIp && Spared(terrible, s, r, q, s.idCount)
    requires s.idCount in r.infos ==> r.infos[s.idCount].service == addr.service
    ensures addr.service.ip in r.byIp <==> s.idCount in r.infos
  {
    if addr.service.ip in r.byIp {
      var x := r.byIp[addr.service.ip];
      assert x in r.infos && r.infos[x].service.ip == addr.service.ip;
      assert x == s.idCount;
    }
  }

  /** An addition gives at most one slot, the hashed one, to its entry; no other entry changes, and the only one that can
      be lost is a terrible holder of that slot with no other reference. An entry that was known stays; a new address is
      present afterwards if and only if it is routable and its slot is available; the answer does not tell. */
  lemma AddOutcome(h: Hasher, env: Env, s: State, addr: Address, source: Ip, penaltyIn: int)
    requires Consistent(h, s)
    ensures !env.routable(addr.service.ip) ==> Add(h, env, s, addr, source, penaltyIn).0 == s
    ensures Add(h, env, s, addr, source, penaltyIn).1 <==> env.routable(addr.service.ip) && addr.service.ip !in s.byIp
    ensures addr.service.ip in s.byIp ==> s.byIp[addr.service.ip] in s.infos
    ensures var q := Target(h, s, addr, source); q in s.newTable ==> s.newTable[q] in s.infos
    ensures var r, id, q := Add(h, env, s, addr, source, penaltyIn).0, Subject(s, addr), Target(h, s, addr, source);
            && Spared(env.terrible, s, r, q, id)
            && (addr.service.ip in s.byIp ==> id in r.infos)
            && (addr.service.ip !in s.byIp ==>
                  && (addr.service.ip in r.byIp <==> env.routable(addr.service.ip) && Available(env.terrible, s, q))
                  && (addr.service.ip in r.byIp ==> r.newTable == s.newTable[q := id] && r.infos[id].service == addr.service))
  {
    SlotsHeld(h, s, addr, source);
    var r, id, q := Add(h, env, s, addr, source, penaltyIn).0, Subject(s, addr), Target(h, s, addr, source);
    assert Consistent(h, r);
    hide Base;
    hide Target;
    hide Available;
    if !env.routable(addr.service.ip) {
      hide Spared;
      SparedSelf(env.terrible, s, q, id);
    } else if addr.service.ip in s.byIp {
      hide Add;
      KnownOutcome(h, env, s, addr, source, penaltyIn);
    } else {
      hide Add;
      hide Spared;
      NewOutcome(h, env, s, addr, source, penaltyIn);
      OwnerAfter(h, env.terrible, s, r, q, addr);
    }
  }

  lemma SparedSelf(terrible: Stats -> bool, s: State, q: Slot, id: int)
    ensures Spared(terrible, s, s, q, id)
  {
  }

  // ----- What is recorded about the address

  /** The announced time less the penalty, but not below zero. */
  function Discounted(time: nat, penalty: int): nat {
    if penalty < time then time - penalty else 0
  }

  /** An announcement is news: it has a time, and none is recorded, or it is newer by more than the penalty and an hour, or
      a day if it is a day old itself. */
  predicate News(was: nat, addr: Address, penalty: int, now: int) {
    addr.time != 0 && (was == 0 || addr.time - was > penalty + if now - addr.time < 86400 then 3600 else 86400)
  }

  /** What an entry keeps through an addition. */
  predicate SameOwner(was: Info, now: Info) {
    now.service == was.service && now.source == was.source && now.inTried == was.inTried
  }

  lemma InsertKeepsEntry(h: Hasher, terrible: Stats -> bool, s: State, id: int, source: Ip)
    requires Base(h, s, 0, {id}) && id in s.infos
    requires !s.infos[id].inTried && s.infos[id].refCount < NEW_BUCKETS_PER_ADDRESS
    ensures var r := Insert(h, terrible, s, id, source);
            id in r.infos ==> SameOwner(s.infos[id], r.infos[id]) && r.infos[id].stats == s.infos[id].stats
  {
    var t, q := InsertCases(h, terrible, s, id, source);
    hide Insert;
    hide Base;
  }

  lemma InsertTakes(h: Hasher, terrible: Stats -> bool, s: State, id: int, source: Ip)
    requires Base(h, s, 0, {id}) && id in s.infos
    requires !s.infos[id].inTried && s.infos[id].refCount < NEW_BUCKETS_PER_ADDRESS
    ensures var r, q := Insert(h, terrible, s, id, source), NewSlot(h, s.infos[id].service, source);
            && (q in s.newTable ==> s.newTable[q] in s.infos)
            && r.newTable == if MayTake(terrible, s, q, id) then s.newTable[q := id] else s.newTable
  {
    var q := NewSlot(h, s.infos[id].service, source);
    hide NewSlot;
    if q in s.newTable && s.newTable[q] == id {
      assert s.newTable[q := id] == s.newTable;
    } else if MayTake(terrible, s, q, id) {
      TakeSpares(h, terrible, s, q, id);
      hide Base;
    } else if s.infos[id].refCount == 0 {
      DeleteFrame(s, id);
      hide Base;
      hide Delete;
    }
  }

  /** The entry offers the services of before and the announced ones; its time becomes the announced one, less the penalty,
      exactly if that is news; the rest of it stays. */
  ghost predicate Recorded(was: Info, now: Info, addr: Address, penalty: int, clock: int) {
    && SameOwner(was, now)
    && now.stats == was.stats.(time := now.stats.time, services := now.stats.services)
    && (forall flags :: Offers(now.stats.services, flags) <==> Offers(was.stats.services, flags) || Offers(addr.services, flags))
    && now.stats.time ==
         if News(was.stats.time, addr, penalty, clock) then Discounted(addr.time, penalty) % TIME_MODULUS else was.stats.time
  }

  lemma KnownStatistics(h: Hasher, env: Env, s: State, addr: Address, source: Ip, penaltyIn: int)
    requires Consistent(h, s) && env.routable(addr.service.ip) && addr.service.ip in s.byIp
    ensures s.byIp[addr.service.ip] in s.infos
    ensures var r, id := Add(h, env, s, addr, source, penaltyIn).0, s.byIp[addr.service.ip];
            id in r.infos && Recorded(s.infos[id], r.infos[id], addr, if addr.service.ip == source then 0 else penaltyIn, env.now)
  {
    var penalty := if addr.service.ip == source then 0 else penaltyIn;
    var id := s.byIp[addr.service.ip];
    var t, gain := RefreshedPrepared(h, env, s, addr, source, penaltyIn);
    hide Add;
    hide Base;
    hide Insert;
    RefreshRecorded(s.infos[id], t.infos[id], addr, penalty, env.now);
    hide Refresh;
    if gain {
      InsertKeepsEntry(h, env.terrible, t, id, source);
      InsertSpares(h, env.terrible, t, id, source);
      hide Spared;
      RecordedStill(s.infos[id], t.infos[id], Insert(h, env.terrible, t, id, source).infos[id], addr, penalty, env.now);
    }
    hide Recorded;
  }

  lemma RecordedStill(was: Info, now: Info, later: Info, addr: Address, penalty: int, clock: int)
    requires Recorded(was, now, addr, penalty, clock) && SameOwner(now, later) && later.stats == now.stats
    ensures Recorded(was, later, addr, penalty, clock)
  {
    hide Offers;
    hide News;
    hide Discounted;
  }

  lemma RefreshRecorded(was: Info, now: Info, addr: Address, penalty: int, clock: int)
    requires now == was.(stats := Refresh(was.stats, addr, penalty, clock))
    ensures Recorded(was, now, addr, penalty, clock)
  {
    forall flags
      ensures Offers(Union(was.stats.services, addr.services), flags) <==>
              Offers(was.stats.services, flags) || Offers(addr.services, flags)
    {
      UnionOffers(was.stats.services, addr.services, flags);
    }
    hide Offers;
    hide Union;
  }

  /** A known address gets the slot exactly if the announcement is later than the time now recorded, or none is, the entry
      is a new one with fewer than eight references, the dice allow it, and the slot is free or its other holder terrible. */
  lemma KnownGains(h: Hasher, env: Env, s: State, addr: Address, source: Ip, penaltyIn: int)
    requires Consistent(h, s) && env.routable(addr.service.ip) && addr.service.ip in s.byIp
    ensures s.byIp[addr.service.ip] in s.infos
    ensures var r, id, q := Add(h, env, s, addr, source, penaltyIn).0, s.byIp[addr.service.ip], Target(h, s, addr, source);
            id in r.infos && (q in s.newTable ==> s.newTable[q] in s.infos) &&
            var was, recorded := s.infos[id], r.infos[id].stats.time;
            && was.refCount >= 0
            && var gains := && addr.time != 0 && (recorded == 0 || addr.time > recorded)
                            && !was.inTried && was.refCount < 8 && env.dice % Pow2(was.refCount) == 0
                            && (q in s.newTable && s.newTable[q] != id ==> env.terrible(s.infos[s.newTable[q]].stats));
               r.newTable == if gains then s.newTable[q := id] else s.newTable
  {
    var id := s.byIp[addr.service.ip];
    var t, gain := RefreshedPrepared(h, env, s, addr, source, penaltyIn);
    var q := NewSlot(h, s.infos[id].service, source);
    assert q == Target(h, s, addr, source);
    hide Add;
    hide Refresh;
    hide NewSlot;
    hide Target;
    AtMostEight(h, t, id);
    SlotsKnown(h, s);
    if gain {
      InsertKeepsEntry(h, env.terrible, t, id, source);
      InsertTakes(h, env.terrible, t, id, source);
      InsertSpares(h, env.terrible, t, id, source);
      hide Base;
      hide Insert;
      hide Spared;
      YieldsOrNot(env.terrible, s, t, q, id);
    }
    hide Base;
    hide Spared;
    hide Insert;
  }

  lemma AtMostEight(h: Hasher, t: State, id: int)
    requires Base(h, t, 0, {id}) && id in t.infos
    ensures 0 <= t.infos[id].refCount <= NEW_BUCKETS_PER_ADDRESS
      && (Pow2(t.infos[id].refCount) == 1 ==> t.infos[id].refCount == 0)
  {
  }

  lemma YieldsOrNot(terrible: Stats -> bool, s: State, t: State, q: Slot, id: int)
    requires Prepared(s, t, id) && id in t.infos && t.infos[id].refCount > 0 && (q in s.newTable ==> s.newTable[q] in s.infos)
    ensures (if MayTake(terrible, t, q, id) then t.newTable[q := id] else t.newTable) ==
            if q in s.newTable && s.newTable[q] != id ==> terrible(s.infos[s.newTable[q]].stats) then s.newTable[q := id] else s.newTable
  {
    if q in s.newTable && s.newTable[q] == id {
      assert s.newTable[q := id] == s.newTable;
    }
  }

  /** A new address that stays is recorded as announced, its time less the penalty, with nothing tried yet. */
  lemma NewStatistics(h: Hasher, env: Env, s: State, addr: Address, source: Ip, penaltyIn: int)
    requires Consistent(h, s) && env.routable(addr.service.ip) && addr.service.ip !in s.byIp
    ensures var r, id := Add(h, env, s, addr, source, penaltyIn).0, s.idCount;
            var penalty := if addr.service.ip == source then 0 else penaltyIn;
            id in r.infos ==>
              && r.infos[id].service == addr.service && r.infos[id].source == source && !r.infos[id].inTried
              && r.infos[id].stats == Stats(addr.services, Discounted(addr.time, penalty) % TIME_MODULUS, 0, 0, 0, 0)
  {
    var penalty := if addr.service.ip == source then 0 else penaltyIn;
    var t, id := Created(s, addr, source, penalty), s.idCount;
    CreatedKeeps(h, s, addr, source, penalty);
    InsertKeepsEntry(h, env.terrible, t, id, source);
    hide Base;
    hide Insert;
  }
}
