/** The address manager as it is stored: two bucket arrays with -1 for an empty slot, and the
    scans over them. Every method is proved against the function of the same name in `AddrMan`. */
module AddrManTables {
  import opened Arithmetic
  import opened AddrMan
  import opened Services
  import opened AddrManDisk

  const VACANT := -1

  /** The occupied slots of a bucket array. */
  ghost function Occupied(a: array2<int>): map<Slot, int>
    reads a
  {
    map b: nat, p: nat | b < a.Length0 && p < a.Length1 && a[b, p] != VACANT :: Slot(b, p) := a[b, p]
  }

  method Peek(a: array2<int>, b: nat, p: nat) returns (v: int)
    requires b < a.Length0 && p < a.Length1
    ensures v == if Slot(b, p) in Occupied(a) then Occupied(a)[Slot(b, p)] else VACANT
    ensures Slot(b, p) in Occupied(a) ==> v != VACANT
  {
    v := a[b, p];
  }

  method Put(a: array2<int>, b: nat, p: nat, v: int)
    requires b < a.Length0 && p < a.Length1
    modifies a
    ensures Occupied(a) ==
              if v == VACANT then old(Occupied(a)) - {Slot(b, p)} else old(Occupied(a))[Slot(b, p) := v]
  {
    a[b, p] := v;
  }

  ghost function FoundBelow(h: Hasher, t: map<Slot, int>, a: Service, id: int, n: nat): set<nat> {
    set b: nat | b < n && NewSlotIn(h, b, a) in t && t[NewSlotIn(h, b, a)] == id
  }

  /** `DropNewRefs` after `n` of its rounds. */
  ghost function DropBelow(h: Hasher, s: State, id: int, n: nat): (r: State)
    requires id in s.infos
    ensures id in r.infos && r.infos[id].service == s.infos[id].service
  {
    var buckets := FoundBelow(h, s.newTable, s.infos[id].service, id, n);
    Touch(s, id, s.infos[id].(refCount := s.infos[id].refCount - |buckets|)).
      (newTable := s.newTable - SlotsIn(h, buckets, s.infos[id].service))
  }

  lemma DropBelowNone(h: Hasher, s: State, id: int)
    requires id in s.infos
    ensures DropBelow(h, s, id, 0) == s
  {
    assert FoundBelow(h, s.newTable, s.infos[id].service, id, 0) == {};
    assert s.newTable - SlotsIn(h, {}, s.infos[id].service) == s.newTable;
    assert s.infos[id := s.infos[id]] == s.infos;
  }

  lemma DropBelowStep(h: Hasher, s: State, id: int, n: nat)
    requires id in s.infos
    ensures var u, q := DropBelow(h, s, id, n), NewSlotIn(h, n, s.infos[id].service);
            && id in u.infos && u.infos[id].service == s.infos[id].service
            && DropBelow(h, s, id, n + 1) ==
                 if q in u.newTable && u.newTable[q] == id
                 then Touch(u, id, u.infos[id].(refCount := u.infos[id].refCount - 1)).(newTable := u.newTable - {q})
                 else u
  {
    var a := s.infos[id].service;
    var q := NewSlotIn(h, n, a);
    var below, next := FoundBelow(h, s.newTable, a, id, n), FoundBelow(h, s.newTable, a, id, n + 1);
    FoundNext(h, s.newTable, a, id, n);
    hide FoundBelow;
    hide SlotsIn;
    assert s.newTable - SlotsIn(h, below, a) - {q} == s.newTable - (SlotsIn(h, below, a) + {q});
  }

  lemma FoundNext(h: Hasher, t: map<Slot, int>, a: Service, id: int, n: nat)
    ensures var below, next, q := FoundBelow(h, t, a, id, n), FoundBelow(h, t, a, id, n + 1), NewSlotIn(h, n, a);
            && q !in SlotsIn(h, below, a)
            && (if q in t && t[q] == id
                then |next| == |below| + 1 && SlotsIn(h, next, a) == SlotsIn(h, below, a) + {q}
                else next == below)
  {
    var below, next, q := FoundBelow(h, t, a, id, n), FoundBelow(h, t, a, id, n + 1), NewSlotIn(h, n, a);
    if q in t && t[q] == id {
      assert forall b :: b in next <==> b in below + {n};
      assert next == below + {n};
    } else {
      assert forall b :: b in next <==> b in below;
      assert next == below;
    }
  }

  lemma DropBelowAll(h: Hasher, s: State, id: int)
    requires id in s.infos
    ensures DropBelow(h, s, id, NEW_BUCKET_COUNT) == AddrMan.DropNewRefs(h, s, id)
  {
    assert FoundBelow(h, s.newTable, s.infos[id].service, id, NEW_BUCKET_COUNT) == BucketsOf(h, s, id);
  }

  /** The bucket visited in round `n` of a scan from a random start. */
  function Turn(n: nat, start: nat): (b: nat)
    ensures b < NEW_BUCKET_COUNT
  {
    (n + start) % NEW_BUCKET_COUNT
  }

  lemma TurnsVisitAll(b: nat, start: nat) returns (n: nat)
    requires b < NEW_BUCKET_COUNT
    ensures n < NEW_BUCKET_COUNT && Turn(n, start) == b
  {
    n := (b + NEW_BUCKET_COUNT - start % NEW_BUCKET_COUNT) % NEW_BUCKET_COUNT;
  }

  lemma EvictOccupied(h: Hasher, s: State, q: Slot, id: int)
    requires Base(h, s, 1, {id}) && id in s.infos && s.infos[id].refCount == 0 && q in s.triedTable
    ensures var t, home, gone := Unseat(s, q), Home(h, s, q), s.triedTable[q];
            && Clearable(t, home) && gone in AddrMan.ClearNew(t, home).infos
            && AddrMan.Evict(h, s, q, id) == Rehome(AddrMan.ClearNew(t, home), home, gone)
  {
    var gone, home := s.triedTable[q], Home(h, s, q);
    UnseatKeeps(h, s, q, 1, {id});
    assert {id} + {gone} == {id, gone};
    ClearBeside(h, Unseat(s, q), home, id, gone);
  }

  lemma LoadMoreNumbered(t: State, n: int)
    requires Numbered(t)
    ensures Numbered(t.(idCount := n))
  {
  }

  class CAddrMan {
    const h: Hasher
    var nIdCount: int
    var mapInfo: map<int, Info>
    var mapAddr: map<Ip, int>
    var vRandom: seq<int>
    var nTried: int
    const vvTried: array2<int>
    var nNew: int
    const vvNew: array2<int>
    var nLastGood: int

    ghost predicate Shape()
      reads this
    {
      && vvTried != vvNew
      && vvNew.Length0 == NEW_BUCKET_COUNT && vvNew.Length1 == BUCKET_SIZE
      && vvTried.Length0 == TRIED_BUCKET_COUNT && vvTried.Length1 == BUCKET_SIZE
    }

    ghost function Abs(): State
      reads this, vvTried, vvNew
    {
      State(nIdCount, mapInfo, mapAddr, vRandom, nTried, Occupied(vvTried), nNew, Occupied(vvNew), nLastGood)
    }

    ghost predicate Valid()
      reads this, vvTried, vvNew
    {
      Shape() && Consistent(h, Abs())
    }

    constructor (h: Hasher)
      ensures Valid() && this.h == h && Abs() == Empty
      ensures fresh(vvTried) && fresh(vvNew)
    {
      this.h := h;
      vvTried := new int[TRIED_BUCKET_COUNT, BUCKET_SIZE]((b, p) => VACANT);
      vvNew := new int[NEW_BUCKET_COUNT, BUCKET_SIZE]((b, p) => VACANT);
      nIdCount, nTried, nNew, nLastGood := 0, 0, 0, 1;
      mapInfo, mapAddr, vRandom := map[], map[], [];
      new;
      EmptyConsistent(h);
      assert Occupied(vvTried) == map[] && Occupied(vvNew) == map[];
    }

    method Find(ip: Ip) returns (found: bool, nId: int)
      requires Valid()
      ensures found == (ip in mapAddr)
      ensures found ==> nId == mapAddr[ip] && nId in mapInfo
    {
      found := ip in mapAddr;
      nId := VACANT;
      if found {
        nId := mapAddr[ip];
        found := nId in mapInfo;
      }
    }

    method Create(addr: Address, source: Ip) returns (nId: int)
      modifies this
      ensures nId == old(nIdCount) && Abs() == AddrMan.Create(old(Abs()), addr, source)
    {
      nId := nIdCount;
      nIdCount := nIdCount + 1;
      mapInfo := mapInfo[nId := Info(addr.service, source, Stats(addr.services, addr.time, 0, 0, 0, 0), 0, false, -1)];
      mapAddr := mapAddr[addr.service.ip := nId];
      mapInfo := mapInfo[nId := mapInfo[nId].(randomPos := |vRandom|)];
      vRandom := vRandom + [nId];
    }

    method SwapRandom(nRndPos1: int, nRndPos2: int)
      requires RandomOk(Abs())
      requires nRndPos1 != nRndPos2 ==> 0 <= nRndPos1 < |vRandom| && 0 <= nRndPos2 < |vRandom|
      modifies this
      ensures Abs() == AddrMan.SwapRandom(old(Abs()), nRndPos1, nRndPos2)
    {
      if nRndPos1 == nRndPos2 {
        return;
      }
      var nId1 := vRandom[nRndPos1];
      var nId2 := vRandom[nRndPos2];
      assert nId1 in mapInfo;
      assert nId2 in mapInfo;
      mapInfo := mapInfo[nId1 := mapInfo[nId1].(randomPos := nRndPos2)];
      mapInfo := mapInfo[nId2 := mapInfo[nId2].(randomPos := nRndPos1)];
      vRandom := vRandom[nRndPos1 := nId2];
      vRandom := vRandom[nRndPos2 := nId1];
    }

    method Delete(nId: int)
      requires RandomOk(Abs())
      requires nId in mapInfo && !mapInfo[nId].inTried && mapInfo[nId].refCount == 0
      modifies this
      ensures Abs() == AddrMan.Delete(old(Abs()), nId)
    {
      SwapRandom(mapInfo[nId].randomPos, |vRandom| - 1);
      vRandom := vRandom[..|vRandom| - 1];
      mapAddr := mapAddr - {mapInfo[nId].service.ip};
      mapInfo := mapInfo - {nId};
      nNew := nNew - 1;
    }

    method ClearNew(nUBucket: nat, nUBucketPos: nat)
      requires Shape() && nUBucket < NEW_BUCKET_COUNT && nUBucketPos < BUCKET_SIZE
      requires Clearable(Abs(), Slot(nUBucket, nUBucketPos))
      modifies this, vvNew
      ensures Abs() == AddrMan.ClearNew(old(Abs()), Slot(nUBucket, nUBucketPos))
    {
      if vvNew[nUBucket, nUBucketPos] != VACANT {
        ghost var q := Slot(nUBucket, nUBucketPos);
        ghost var before := Occupied(vvNew);
        assert q in before;
        var nIdDelete := vvNew[nUBucket, nUBucketPos];
        assert mapInfo[nIdDelete].refCount > 0;
        mapInfo := mapInfo[nIdDelete := mapInfo[nIdDelete].(refCount := mapInfo[nIdDelete].refCount - 1)];
        vvNew[nUBucket, nUBucketPos] := VACANT;
        assert Occupied(vvNew) == before - {q};
        if mapInfo[nIdDelete].refCount == 0 {
          Delete(nIdDelete);
        }
      }
    }

    /** The loop at the start of `MakeTried`. */
    method DropNewRefs(nId: int)
      requires Shape() && nId in mapInfo && nId != VACANT
      modifies this, vvNew
      ensures Abs() == AddrMan.DropNewRefs(h, old(Abs()), nId)
    {
      hide Occupied;
      ghost var s := Abs();
      var a := mapInfo[nId].service;
      DropBelowNone(h, s, nId);
      for bucket := 0 to NEW_BUCKET_COUNT
        invariant Abs() == DropBelow(h, s, nId, bucket)
      {
        DropBelowStep(h, s, nId, bucket);
        hide DropBelow;
        var pos := Position(h, true, bucket, a);
        var v := Peek(vvNew, bucket, pos);
        if v == nId {
          Put(vvNew, bucket, pos, VACANT);
          mapInfo := mapInfo[nId := mapInfo[nId].(refCount := mapInfo[nId].refCount - 1)];
        }
      }
      DropBelowAll(h, s, nId);
    }

    method MakeTried(nId: int)
      requires Valid() && nId in mapInfo && !mapInfo[nId].inTried
      modifies this, vvNew, vvTried
      ensures Abs() == AddrMan.MakeTried(h, old(Abs()), nId) && Valid()
    {
      hide Occupied;
      ghost var s := Abs();
      assert nId != VACANT;
      ReleaseKeeps(h, s, nId);
      hide Base;
      hide AddrMan.DropNewRefs;
      DropNewRefs(nId);
      nNew := nNew - 1;
      assert Abs() == Release(h, s, nId);
      assert mapInfo[nId].refCount == 0;

      var nKBucket := h.triedBucket(mapInfo[nId].service) % TRIED_BUCKET_COUNT;
      var nKBucketPos := Position(h, false, nKBucket, mapInfo[nId].service);
      ghost var q := Slot(nKBucket, nKBucketPos);
      EvictKeeps(h, Abs(), q, nId);
      hide AddrMan.Evict;
      hide Release;
      Evict(nKBucket, nKBucketPos, nId);
      assert q !in Occupied(vvTried);
      SeatAt(nKBucket, nKBucketPos, nId);
      hide Seat;
    }

    method UnseatAt(nKBucket: nat, nKBucketPos: nat, nIdEvict: int)
      requires Shape() && nKBucket < TRIED_BUCKET_COUNT && nKBucketPos < BUCKET_SIZE && nIdEvict in mapInfo
      requires Slot(nKBucket, nKBucketPos) in Occupied(vvTried) && Occupied(vvTried)[Slot(nKBucket, nKBucketPos)] == nIdEvict
      modifies this, vvTried
      ensures Abs() == Unseat(old(Abs()), Slot(nKBucket, nKBucketPos))
    {
      hide Occupied;
      mapInfo := mapInfo[nIdEvict := mapInfo[nIdEvict].(inTried := false)];
      Put(vvTried, nKBucket, nKBucketPos, VACANT);
      nTried := nTried - 1;
    }

    method SeatAt(nKBucket: nat, nKBucketPos: nat, nId: int)
      requires Shape() && nKBucket < TRIED_BUCKET_COUNT && nKBucketPos < BUCKET_SIZE && nId in mapInfo && nId != VACANT
      modifies this, vvTried
      ensures Abs() == Seat(old(Abs()), Slot(nKBucket, nKBucketPos), nId)
    {
      hide Occupied;
      Put(vvTried, nKBucket, nKBucketPos, nId);
      nTried := nTried + 1;
      mapInfo := mapInfo[nId := mapInfo[nId].(inTried := true)];
    }

    method RehomeAt(nUBucket: nat, nUBucketPos: nat, nIdEvict: int)
      requires Shape() && nUBucket < NEW_BUCKET_COUNT && nUBucketPos < BUCKET_SIZE && nIdEvict in mapInfo && nIdEvict != VACANT
      modifies this, vvNew
      ensures Abs() == Rehome(old(Abs()), Slot(nUBucket, nUBucketPos), nIdEvict)
    {
      hide Occupied;
      mapInfo := mapInfo[nIdEvict := mapInfo[nIdEvict].(refCount := 1)];
      Put(vvNew, nUBucket, nUBucketPos, nIdEvict);
      nNew := nNew + 1;
    }

    /** The middle of `MakeTried`: free the tried slot, moving its occupant back to the new table. */
    method Evict(nKBucket: nat, nKBucketPos: nat, ghost nId: int)
      requires Shape() && nKBucket < TRIED_BUCKET_COUNT && nKBucketPos < BUCKET_SIZE
      requires Base(h, Abs(), 1, {nId}) && nId in mapInfo && mapInfo[nId].refCount == 0
      modifies this, vvNew, vvTried
      ensures Abs() == AddrMan.Evict(h, old(Abs()), Slot(nKBucket, nKBucketPos), nId)
    {
      hide Occupied;
      ghost var q := Slot(nKBucket, nKBucketPos);
      var nIdEvict := Peek(vvTried, nKBucket, nKBucketPos);
      if nIdEvict != VACANT {
        ghost var s := Abs();
        assert nIdEvict in mapInfo;
        UnseatKeeps(h, s, q, 1, {nId});
        assert {nId} + {nIdEvict} == {nId, nIdEvict};
        EvictOccupied(h, s, q, nId);
        hide Base;
        hide AddrMan.Evict;
        UnseatAt(nKBucket, nKBucketPos, nIdEvict);

        assert nIdEvict in mapInfo && Abs() == Unseat(s, q);
        var info := mapInfo[nIdEvict];
        var nUBucket := h.newBucket(info.service, info.source) % NEW_BUCKET_COUNT;
        var nUBucketPos := Position(h, true, nUBucket, info.service);
        ghost var home := Slot(nUBucket, nUBucketPos);
        assert home == Home(h, s, q);
        ClearBeside(h, Abs(), home, nId, nIdEvict);
        hide Unseat;
        hide AddrMan.ClearNew;
        hide Clearable;
        ClearNew(nUBucket, nUBucketPos);
        assert home !in Occupied(vvNew);
        RehomeAt(nUBucket, nUBucketPos, nIdEvict);
        hide Rehome;
      }
    }

    method Good(addr: Service, nTime: int, nRnd: nat)
      requires Valid()
      modifies this, vvNew, vvTried
      ensures Abs() == AddrMan.Good(h, old(Abs()), addr, nTime) && Valid()
    {
      hide Occupied;
      nLastGood := nTime;
      if addr.ip !in mapAddr || mapInfo[mapAddr[addr.ip]].service != addr {
        return;
      }
      ghost var s := Abs();
      var nId := mapAddr[addr.ip];
      mapInfo := mapInfo[nId := mapInfo[nId].(stats := mapInfo[nId].stats.(lastSuccess := nTime, lastTry := nTime, attempts := 0))];
      assert Abs() == Praise(s, nId, nTime);
      TouchKeeps(h, s, nId, mapInfo[nId], 0, {});
      if mapInfo[nId].inTried {
        return;
      }
      assert nId != VACANT;
      hide Base;
      hide BucketsOf;
      var nUBucket := FindBucket(nId, nRnd);
      hide AddrMan.MakeTried;
      if nUBucket == -1 {
        return;
      }
      MakeTried(nId);
    }

    /** The search of `Good_` for a bucket that holds the entry, from a random start. */
    method FindBucket(nId: int, nRnd: nat) returns (nUBucket: int)
      requires Shape() && nId in mapInfo && nId != VACANT
      ensures nUBucket == -1 <==> BucketsOf(h, Abs(), nId) == {}
      ensures nUBucket != -1 ==> nUBucket in BucketsOf(h, Abs(), nId)
    {
      var a := mapInfo[nId].service;
      ghost var buckets := BucketsOf(h, Abs(), nId);
      nUBucket := -1;
      for n := 0 to NEW_BUCKET_COUNT
        invariant nUBucket == -1
        invariant forall m: nat :: m < n ==> Turn(m, nRnd) !in buckets
      {
        var nB := Turn(n, nRnd);
        var nBpos := Position(h, true, nB, a);
        ghost var q := NewSlotIn(h, nB, a);
        assert vvNew[nB, nBpos] == nId <==> q in Occupied(vvNew) && Occupied(vvNew)[q] == nId;
        assert vvNew[nB, nBpos] == nId <==> nB in buckets;
        if vvNew[nB, nBpos] == nId {
          return nB;
        }
      }
      forall b ensures b !in buckets {
        if b in buckets {
          var n := TurnsVisitAll(b, nRnd);
        }
      }
    }

    method Add(addr: Address, source: Ip, nTimePenaltyIn: int, env: Env) returns (fNew: bool)
      requires Valid()
      modifies this, vvNew
      ensures (Abs(), fNew) == AddrMan.Add(h, env, old(Abs()), addr, source, nTimePenaltyIn) && Valid()
    {
      hide Occupied;
      if !env.routable(addr.service.ip) {
        return false;
      }
      fNew := false;
      var nTimePenalty := if addr.service.ip == source then 0 else nTimePenaltyIn;
      ghost var s := Abs();
      var nId: int;
      if addr.service.ip in mapAddr {
        nId := mapAddr[addr.service.ip];
        var gain := RefreshKnown(nId, addr, nTimePenalty, env);
        TouchKeeps(h, s, nId, mapInfo[nId], 0, {});
        if !gain {
          return false;
        }
        GrowZero(h, Abs(), nId);
      } else {
        nId := CreateNew(addr, source, nTimePenalty);
        fNew := true;
        CreatedKeeps(h, s, addr, source, nTimePenalty);
      }
      InsertKeeps(h, env.terrible, Abs(), nId, source);
      hide Base;
      hide AddrMan.Insert;
      Insert(nId, source, env.terrible);
    }

    /** A known entry is refreshed; the answer is whether it may get another reference. */
    method RefreshKnown(nId: int, addr: Address, nTimePenalty: int, env: Env) returns (gain: bool)
      requires nId in mapInfo && mapInfo[nId].refCount >= 0
      modifies this
      ensures var info := old(mapInfo[nId]).(stats := Refresh(old(mapInfo[nId]).stats, addr, nTimePenalty, env.now));
              && Abs() == Touch(old(Abs()), nId, info) && nId in mapInfo && mapInfo[nId] == info
              && gain == MayGain(info, addr, env.dice)
    {
      hide Occupied;
      hide Refresh;
      RefreshEntry(nId, addr, nTimePenalty, env.now);
      var info := mapInfo[nId];
      if addr.time == 0 || (info.stats.time != 0 && addr.time <= info.stats.time) {
        return false;
      }
      if info.inTried {
        return false;
      }
      if info.refCount == NEW_BUCKETS_PER_ADDRESS {
        return false;
      }
      gain := StochasticTest(info.refCount, env.dice);
    }

    /** A new entry, its announced time reduced by the penalty, counted as new. */
    method CreateNew(addr: Address, source: Ip, nTimePenalty: int) returns (nId: int)
      modifies this
      ensures nId == old(nIdCount) && nId in mapInfo && Abs() == Created(old(Abs()), addr, source, nTimePenalty)
    {
      hide Occupied;
      hide Announced;
      nId := Create(addr, source);
      mapInfo := mapInfo[nId := Announced(mapInfo[nId], nTimePenalty)];
      nNew := nNew + 1;
    }

    /** Every reference makes the next one twice as hard to get. */
    method StochasticTest(refCount: nat, dice: nat) returns (lucky: bool)
      ensures lucky <==> (Pow2(refCount) > 1 ==> dice % Pow2(refCount) == 0)
    {
      var nFactor := 1;
      for n := 0 to refCount
        invariant nFactor == Pow2(n)
      {
        nFactor := nFactor * 2;
      }
      lucky := !(nFactor > 1 && dice % nFactor != 0);
    }

    method RefreshEntry(nId: int, addr: Address, nTimePenalty: int, now: int)
      requires nId in mapInfo
      modifies this
      ensures Abs() == Touch(old(Abs()), nId, old(mapInfo[nId]).(stats := Refresh(old(mapInfo[nId]).stats, addr, nTimePenalty, now)))
    {
      hide Occupied;
      hide Penalised;
      hide Union;
      var fCurrentlyOnline := now - addr.time < 24 * 60 * 60;
      var nUpdateInterval := if fCurrentlyOnline then 60 * 60 else 24 * 60 * 60;
      var stats := mapInfo[nId].stats;
      if addr.time != 0 && (stats.time == 0 || stats.time < addr.time - nUpdateInterval - nTimePenalty) {
        stats := stats.(time := Penalised(addr.time, nTimePenalty));
      }
      stats := stats.(services := Union(stats.services, addr.services));
      mapInfo := mapInfo[nId := mapInfo[nId].(stats := stats)];
    }

    /** The last part of `Add_`. */
    method Insert(nId: int, source: Ip, terrible: Stats -> bool)
      requires Shape() && Base(h, Abs(), 0, {nId}) && nId in mapInfo
      requires !mapInfo[nId].inTried && mapInfo[nId].refCount < NEW_BUCKETS_PER_ADDRESS
      modifies this, vvNew
      ensures Abs() == AddrMan.Insert(h, terrible, old(Abs()), nId, source)
    {
      hide Occupied;
      ghost var s := Abs();
      var nUBucket := h.newBucket(mapInfo[nId].service, source) % NEW_BUCKET_COUNT;
      var nUBucketPos := Position(h, true, nUBucket, mapInfo[nId].service);
      ghost var q := Slot(nUBucket, nUBucketPos);
      assert nId != VACANT;
      var nIdThere := Peek(vvNew, nUBucket, nUBucketPos);
      if nIdThere != nId {
        var fInsert := nIdThere == VACANT;
        if !fInsert {
          var existing := mapInfo[nIdThere];
          if terrible(existing.stats) || (existing.refCount > 1 && mapInfo[nId].refCount == 0) {
            fInsert := true;
          }
        }
        assert fInsert == MayTake(terrible, s, q, nId);
        if fInsert {
          ClearForKeeps(h, s, q, nId);
          hide Base;
          hide Clearable;
          hide AddrMan.ClearNew;
          ClearNew(nUBucket, nUBucketPos);
          PlaceAt(nUBucket, nUBucketPos, nId);
          hide Place;
        } else if mapInfo[nId].refCount == 0 {
          hide AddrMan.Delete;
          Delete(nId);
        }
      }
    }

    method PlaceAt(nUBucket: nat, nUBucketPos: nat, nId: int)
      requires Shape() && nUBucket < NEW_BUCKET_COUNT && nUBucketPos < BUCKET_SIZE && nId in mapInfo && nId != VACANT
      modifies this, vvNew
      ensures Abs() == Place(old(Abs()), Slot(nUBucket, nUBucketPos), nId)
    {
      hide Occupied;
      mapInfo := mapInfo[nId := mapInfo[nId].(refCount := mapInfo[nId].refCount + 1)];
      Put(vvNew, nUBucket, nUBucketPos, nId);
    }

    method Attempt(addr: Service, fCountFailure: bool, nTime: int)
      requires Valid()
      modifies this
      ensures Abs() == AddrMan.Attempt(h, old(Abs()), addr, fCountFailure, nTime) && Valid()
    {
      hide Occupied;
      var found, nId := Find(addr.ip);
      hide Base;
      if !found || mapInfo[nId].service != addr {
        return;
      }
      var stats := mapInfo[nId].stats.(lastTry := nTime);
      if fCountFailure && stats.lastCountAttempt < nLastGood {
        stats := stats.(lastCountAttempt := nTime, attempts := stats.attempts + 1);
      }
      ghost var s := Abs();
      mapInfo := mapInfo[nId := mapInfo[nId].(stats := stats)];
      assert Abs() == Touch(s, nId, mapInfo[nId]);
      hide Touch;
    }

    method Connected(addr: Service, nTime: int)
      requires Valid()
      modifies this
      ensures Abs() == AddrMan.Connected(h, old(Abs()), addr, nTime) && Valid()
    {
      hide Occupied;
      var found, nId := Find(addr.ip);
      hide Base;
      if !found || mapInfo[nId].service != addr {
        return;
      }
      var nUpdateInterval := 20 * 60;
      if nTime - mapInfo[nId].stats.time > nUpdateInterval {
        mapInfo := mapInfo[nId := mapInfo[nId].(stats := mapInfo[nId].stats.(time := nTime % TIME_MODULUS))];
      }
    }

    method SetServices(addr: Service, nServices: bv64)
      requires Valid()
      modifies this
      ensures Abs() == AddrMan.SetServices(h, old(Abs()), addr, nServices) && Valid()
    {
      hide Occupied;
      var found, nId := Find(addr.ip);
      hide Base;
      if !found || mapInfo[nId].service != addr {
        return;
      }
      mapInfo := mapInfo[nId := mapInfo[nId].(stats := mapInfo[nId].stats.(services := nServices))];
    }

    method GetAddr(terrible: Stats -> bool, dice: nat -> nat) returns (vAddr: seq<Address>)
      requires Valid()
      modifies this
      ensures (Abs(), vAddr) == AddrMan.GetAddr(h, old(Abs()), terrible, dice) && Valid()
    {
      hide Occupied;
      var nNodes := GETADDR_MAX_PCT * |vRandom| / 100;
      if nNodes > GETADDR_MAX {
        nNodes := GETADDR_MAX;
      }
      assert nNodes == GetAddrLimit(|vRandom|);
      hide GetAddrLimit;
      hide Gather;
      assert RandomOk(Abs());
      hide Base;
      hide RandomOk;
      vAddr := GatherUpTo(terrible, dice, nNodes);
    }

    /** The loop of `GetAddr`, which ends early when enough is listed. */
    method GatherUpTo(terrible: Stats -> bool, dice: nat -> nat, nNodes: nat) returns (vAddr: seq<Address>)
      requires RandomOk(Abs())
      modifies this
      ensures (Abs(), vAddr) == Gather(old(Abs()), terrible, dice, nNodes, 0, [])
    {
      hide Occupied;
      hide RandomOk;
      hide Gather;
      vAddr := [];
      var n: nat := 0;
      ghost var s := Abs();
      while n < |vRandom| && |vAddr| < nNodes
        invariant RandomOk(Abs())
        invariant |vRandom| == |s.random|
        invariant Gather(Abs(), terrible, dice, nNodes, n, vAddr) == Gather(s, terrible, dice, nNodes, 0, [])
        decreases |vRandom| - n
      {
        vAddr := CollectNext(terrible, dice, n, vAddr, nNodes);
        n := n + 1;
      }
      GatherEnds(Abs(), terrible, dice, nNodes, n, vAddr);
    }

    /** One round of `GetAddr`: draw an entry for position `n`, and list it if it is acceptable. */
    method CollectNext(terrible: Stats -> bool, dice: nat -> nat, n: nat, found: seq<Address>, ghost limit: nat)
      returns (next: seq<Address>)
      requires RandomOk(Abs()) && n < |vRandom| && |found| < limit
      modifies this
      ensures RandomOk(Abs()) && |vRandom| == |old(vRandom)|
      ensures Gather(Abs(), terrible, dice, limit, n + 1, next) == Gather(old(Abs()), terrible, dice, limit, n, found)
    {
      hide Occupied;
      hide RandomOk;
      hide Gather;
      hide Draw;
      hide AddrMan.SwapRandom;
      ghost var p, t, all := GatherUnfolds(Abs(), terrible, dice, limit, n, found);
      var nRndPos := Draw(dice, n, |vRandom|);
      SwapRandom(n, nRndPos);
      var ai := mapInfo[vRandom[n]];
      next := if terrible(ai.stats) then found else found + [AddressOf(ai)];
    }

    /** The two sections of entries: those with a reference, then the tried ones. */
    method SaveEntries(tried: bool) returns (entries: seq<Saved>, ghost ids: seq<int>)
      requires nIdCount >= 0
      ensures ids == IdList(Abs(), tried, nIdCount)
      ensures forall i :: 0 <= i < |ids| ==> ids[i] in mapInfo
      ensures entries == SaveAll(Abs(), ids)
    {
      entries, ids := [], [];
      for n := 0 to nIdCount
        invariant ids == IdList(Abs(), tried, n)
        invariant forall i :: 0 <= i < |ids| ==> ids[i] in mapInfo
        invariant |entries| == |ids| && forall i :: 0 <= i < |ids| ==> entries[i] == Save(mapInfo[ids[i]])
      {
        if n in mapInfo && Wanted(mapInfo[n], tried) {
          entries := entries + [Save(mapInfo[n])];
          ids := ids + [n];
        }
      }
    }

    /** The index of every entry among those with a reference. */
    method NumberEntries() returns (mapUnkIds: map<int, nat>)
      requires nIdCount >= 0
      ensures forall id :: 0 <= id < nIdCount ==> id in mapUnkIds && mapUnkIds[id] == Rank(Abs(), id)
    {
      mapUnkIds := map[];
      var nIds := 0;
      for n := 0 to nIdCount
        invariant nIds == |IdList(Abs(), false, n)|
        invariant forall id :: 0 <= id < n ==> id in mapUnkIds && mapUnkIds[id] == Rank(Abs(), id)
      {
        mapUnkIds := mapUnkIds[n := nIds];
        if n in mapInfo && Wanted(mapInfo[n], false) {
          nIds := nIds + 1;
        }
      }
    }

    method SaveRow(bucket: nat, mapUnkIds: map<int, nat>) returns (row: seq<int>)
      requires Valid() && bucket < NEW_BUCKET_COUNT
      requires forall id :: 0 <= id < nIdCount ==> id in mapUnkIds && mapUnkIds[id] == Rank(Abs(), id)
      ensures row == Row(Abs(), bucket, BUCKET_SIZE)
    {
      hide Occupied;
      row := [];
      for i := 0 to BUCKET_SIZE
        invariant row == Row(Abs(), bucket, i)
      {
        var nId := Peek(vvNew, bucket, i);
        if nId != VACANT {
          assert nId in mapInfo && 0 <= nId < nIdCount;
          row := row + [mapUnkIds[nId]];
        }
      }
    }

    method Serialize(nKey: nat) returns (d: Stream)
      requires Valid()
      ensures nNew >= 0 && nTried >= 0
      ensures d == AddrManDisk.Serialize(nKey, Abs())
    {
      hide Occupied;
      SavedCountsAdmitted(h, Abs());
      assert nIdCount >= 0;
      hide Base;
      hide IdList;
      hide Row;
      var newEntries, ids := SaveEntries(false);
      var triedEntries, tids := SaveEntries(true);
      var mapUnkIds := NumberEntries();
      var rows := [];
      for bucket := 0 to NEW_BUCKET_COUNT
        invariant |rows| == bucket && forall b :: 0 <= b < bucket ==> rows[b] == Row(Abs(), b, BUCKET_SIZE)
      {
        var row := SaveRow(bucket, mapUnkIds);
        rows := rows + [row];
      }
      d := Stream(FORMAT_VERSION, KEY_SIZE, nKey, nNew, nTried, Toggle(NEW_BUCKET_COUNT), newEntries, triedEntries, rows);
      assert rows == AddrManDisk.Serialize(nKey, Abs()).rows;
    }

    method LoadNewOne(x: Saved, place: bool)
      requires Shape()
      modifies this, vvNew
      ensures Abs() == AddrManDisk.LoadNewOne(h, place, old(Abs()), x)
    {
      hide Occupied;
      var n := |vRandom|;
      var info := Load(x).(randomPos := |vRandom|);
      mapInfo := mapInfo[n := info];
      mapAddr := mapAddr[info.service.ip := n];
      vRandom := vRandom + [n];
      if place {
        var nUBucket := h.newBucket(info.service, info.source) % NEW_BUCKET_COUNT;
        var nUBucketPos := Position(h, true, nUBucket, info.service);
        var nId := Peek(vvNew, nUBucket, nUBucketPos);
        if nId == VACANT {
          PlaceAt(nUBucket, nUBucketPos, n);
        }
      }
    }

    method LoadTriedOne(x: Saved)
      requires Shape() && nIdCount >= 0
      modifies this, vvTried
      ensures Abs() == AddrManDisk.LoadTriedOne(h, old(Abs()), x)
    {
      hide Occupied;
      var nKBucket := h.triedBucket(x.service) % TRIED_BUCKET_COUNT;
      var nKBucketPos := Position(h, false, nKBucket, x.service);
      var nId := Peek(vvTried, nKBucket, nKBucketPos);
      if nId == VACANT {
        var info := Load(x).(randomPos := |vRandom|, inTried := true);
        vRandom := vRandom + [nIdCount];
        mapInfo := mapInfo[nIdCount := info];
        mapAddr := mapAddr[info.service.ip := nIdCount];
        Put(vvTried, nKBucket, nKBucketPos, nIdCount);
        nIdCount := nIdCount + 1;
      } else {
        nTried := nTried - 1;
      }
    }

    method LoadIndex(bucket: nat, nIndex: int, usable: bool)
      requires Shape() && (usable ==> bucket < NEW_BUCKET_COUNT)
      modifies this, vvNew
      ensures Abs() == AddrManDisk.LoadIndex(h, usable, old(Abs()), bucket, nIndex)
    {
      hide Occupied;
      if 0 <= nIndex < nNew && nIndex in mapInfo && usable {
        var nUBucketPos := Position(h, true, bucket, mapInfo[nIndex].service);
        var nId := Peek(vvNew, bucket, nUBucketPos);
        if nId == VACANT && mapInfo[nIndex].refCount < NEW_BUCKETS_PER_ADDRESS {
          PlaceAt(bucket, nUBucketPos, nIndex);
        }
      }
    }

    method LoadRow(bucket: nat, row: seq<int>, usable: bool)
      requires Shape() && (usable ==> bucket < NEW_BUCKET_COUNT) && Numbered(Abs())
      modifies this, vvNew
      ensures Abs() == AddrManDisk.LoadRow(h, usable, old(Abs()), bucket, row)
    {
      hide Occupied;
      hide Numbered;
      ghost var t := Abs();
      for n := 0 to |row|
        invariant Abs() == AddrManDisk.LoadRow(h, usable, t, bucket, row[..n])
      {
        assert row[..n + 1][..n] == row[..n];
        hide AddrManDisk.LoadIndex;
        LoadIndex(bucket, row[n], usable);
      }
      assert row[..|row|] == row;
    }

    /** Delete the entries that got no reference. */
    method Prune()
      requires RandomOk(Abs()) && nIdCount >= 0
      modifies this
      ensures Abs() == AddrManDisk.Prune(old(Abs()), old(nIdCount))
    {
      hide Occupied;
      hide RandomOk;
      ghost var t := Abs();
      for n := 0 to nIdCount
        invariant nIdCount == t.idCount && Abs() == AddrManDisk.Prune(t, n)
      {
        if n in mapInfo && !mapInfo[n].inTried && mapInfo[n].refCount == 0 {
          DeleteFrame(Abs(), n);
          hide AddrMan.Delete;
          Delete(n);
        }
      }
    }

    method LoadNewSection(xs: seq<Saved>, place: bool)
      requires Shape() && vRandom == [] && Numbered(Abs())
      modifies this, vvNew
      ensures Abs() == LoadNews(h, place, old(Abs()), xs)
    {
      hide Occupied;
      hide Numbered;
      hide AddrManDisk.LoadNewOne;
      ghost var s := Abs();
      assert LoadNews(h, place, s, []) == s;
      hide LoadNews;
      for n := 0 to |xs|
        invariant Abs() == LoadNews(h, place, s, xs[..n])
      {
        LoadNewsStep(h, place, s, xs, n);
        LoadNewOne(xs[n], place);
      }
      assert xs[..|xs|] == xs;
    }

    method LoadTriedSection(xs: seq<Saved>)
      requires Shape() && nIdCount == |vRandom| && Numbered(Abs())
      modifies this, vvTried
      ensures Abs() == LoadTrieds(h, old(Abs()), xs)
    {
      hide Occupied;
      hide Numbered;
      ghost var s := Abs();
      for n := 0 to |xs|
        invariant Abs() == LoadTrieds(h, s, xs[..n])
      {
        assert xs[..n + 1][..n] == xs[..n];
        hide AddrManDisk.LoadTriedOne;
        LoadTriedOne(xs[n]);
      }
      assert xs[..|xs|] == xs;
    }

    method LoadBucketSection(rows: seq<seq<int>>, usable: bool)
      requires Shape() && (usable ==> |rows| == NEW_BUCKET_COUNT) && Numbered(Abs())
      modifies this, vvNew
      ensures Abs() == LoadRows(h, usable, old(Abs()), rows)
    {
      hide Occupied;
      hide Numbered;
      ghost var s := Abs();
      for bucket := 0 to |rows|
        invariant Abs() == LoadRows(h, usable, s, rows[..bucket])
      {
        assert rows[..bucket + 1][..bucket] == rows[..bucket];
        hide AddrManDisk.LoadRow;
        LoadRow(bucket, rows[bucket], usable);
      }
      assert rows[..|rows|] == rows;
    }

    /** The body of `Unserialize` after the header has been accepted. */
    method LoadSections(d: Stream, buckets: nat, usable: bool)
      requires Shape() && Abs() == Empty.(nNew := d.nNew, nTried := d.nTried)
      requires |d.newEntries| >= d.nNew && |d.triedEntries| >= d.nTried && |d.rows| >= buckets
      requires usable ==> buckets == NEW_BUCKET_COUNT
      modifies this, vvNew, vvTried
      ensures var t := LoadNews(h, !usable, old(Abs()), d.newEntries[..d.nNew]);
              var u := LoadTrieds(h, t.(idCount := d.nNew), d.triedEntries[..d.nTried]);
              var v := LoadRows(h, usable, u, d.rows[..buckets]);
              RandomOk(v) && Abs() == AddrManDisk.Prune(v, v.idCount)
    {
      hide Occupied;
      EmptyNumbered(Abs());
      hide Numbered;
      hide RandomOk;
      hide LoadNews;
      hide LoadTrieds;
      hide LoadRows;
      hide AddrManDisk.Prune;
      LoadNewSection(d.newEntries[..d.nNew], !usable);
      LoadMoreNumbered(Abs(), d.nNew);
      nIdCount := d.nNew;
      LoadTriedSection(d.triedEntries[..d.nTried]);
      LoadBucketSection(d.rows[..buckets], usable);
      NumberedRandom(Abs());
      Prune();
    }

    static method Unserialize(hashers: nat -> Hasher, d: Stream) returns (ok: bool, am: CAddrMan)
      ensures fresh(am) && am.h == hashers(d.key)
      ensures ok == AddrManDisk.Unserialize(hashers, d).Loaded?
      ensures ok ==> am.Abs() == AddrManDisk.Unserialize(hashers, d).state
    {
      hide Occupied;
      am := new CAddrMan(hashers(d.key));
      if d.keySize != KEY_SIZE {
        return false, am;
      }
      am.nNew, am.nTried := d.nNew, d.nTried;
      var nUBuckets := d.uBuckets;
      if d.version != 0 {
        nUBuckets := Toggle(nUBuckets);
      }
      if am.nNew > NEW_BUCKET_COUNT * BUCKET_SIZE {
        return false, am;
      }
      if am.nTried > TRIED_BUCKET_COUNT * BUCKET_SIZE {
        return false, am;
      }
      if |d.newEntries| < d.nNew || |d.triedEntries| < d.nTried || |d.rows| < nUBuckets {
        return false, am;
      }
      hide Consistent;
      hide Numbered;
      hide RandomOk;
      hide LoadNews;
      hide LoadTrieds;
      hide LoadRows;
      hide AddrManDisk.Prune;
      hide Toggle;
      am.LoadSections(d, nUBuckets, d.version == FORMAT_VERSION && nUBuckets == NEW_BUCKET_COUNT);
      ok := true;
    }
  }
}
