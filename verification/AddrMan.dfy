/** The address manager: its tables as one value, and every operation as a function on that value.

    `Base` is the repository's own consistency predicate (`Check_`), loosened by two parameters
    so that it also describes the states in the middle of `Add_` and `MakeTried`. */
module AddrMan {
  import opened Arithmetic
  import opened Services

  const NEW_BUCKET_COUNT: nat := 1024
  const TRIED_BUCKET_COUNT: nat := 256
  const BUCKET_SIZE: nat := 64
  const NEW_BUCKETS_PER_ADDRESS: nat := 8
  const GETADDR_MAX_PCT: nat := 23
  const GETADDR_MAX: nat := 2500
  const TIME_MODULUS: nat := 0x1_0000_0000

  /** The sixteen bytes of a network address. */
  type Ip = nat
  datatype Service = Service(ip: Ip, port: nat)
  datatype Address = Address(service: Service, services: bv64, time: nat)

  /** The statistics kept about an entry; `IsTerrible` judges it by them. */
  datatype Stats = Stats(
    services: bv64, time: nat, lastTry: int, lastCountAttempt: int, lastSuccess: int, attempts: int)

  datatype Info = Info(
    service: Service, source: Ip, stats: Stats, refCount: int, inTried: bool, randomPos: int)

  /** The keyed hashes, left uninterpreted; the reductions modulo the table sizes are not. */
  datatype Hasher = Hasher(
    triedBucket: Service -> nat,
    newBucket: (Service, Ip) -> nat,
    position: (bool, nat, Service) -> nat)

  datatype Slot = Slot(bucket: nat, pos: nat)

  datatype State = State(
    idCount: int, infos: map<int, Info>, byIp: map<Ip, int>, random: seq<int>,
    nTried: int, triedTable: map<Slot, int>, nNew: int, newTable: map<Slot, int>, lastGood: int)

  const Empty := State(0, map[], map[], [], 0, map[], 0, map[], 1)

  function Position(h: Hasher, isNew: bool, bucket: nat, a: Service): (p: nat)
    ensures p < BUCKET_SIZE
  {
    h.position(isNew, bucket, a) % BUCKET_SIZE
  }

  function NewSlotIn(h: Hasher, bucket: nat, a: Service): Slot {
    Slot(bucket, Position(h, true, bucket, a))
  }

  function NewSlot(h: Hasher, a: Service, source: Ip): Slot {
    NewSlotIn(h, h.newBucket(a, source) % NEW_BUCKET_COUNT, a)
  }

  function TriedSlot(h: Hasher, a: Service): Slot {
    var bucket := h.triedBucket(a) % TRIED_BUCKET_COUNT;
    Slot(bucket, Position(h, false, bucket, a))
  }

  // ----- The consistency predicate

  ghost function SlotsOf(t: map<Slot, int>, id: int): set<Slot> {
    set q | q in t && t[q] == id
  }

  ghost function NewIds(infos: map<int, Info>): set<int> {
    set id | id in infos && !infos[id].inTried
  }

  ghost function TriedIds(infos: map<int, Info>): set<int> {
    set id | id in infos && infos[id].inTried
  }

  /** `vRandom` and `mapInfo` point at each other. */
  ghost predicate RandomOk(s: State) {
    && (forall id :: id in s.infos ==>
          && 0 <= s.infos[id].randomPos < |s.random|
          && s.random[s.infos[id].randomPos] == id)
    && (forall i :: 0 <= i < |s.random| ==>
          s.random[i] in s.infos && s.infos[s.random[i]].randomPos == i)
  }

  /** `mapAddr` and `mapInfo` point at each other, and ids are numbered below `nIdCount`. */
  ghost predicate AddrOk(s: State) {
    && s.idCount >= 0
    && (forall id :: id in s.infos ==>
          && 0 <= id < s.idCount
          && s.infos[id].service.ip in s.byIp && s.byIp[s.infos[id].service.ip] == id)
    && (forall ip :: ip in s.byIp ==>
          s.byIp[ip] in s.infos && s.infos[s.byIp[ip]].service.ip == ip)
  }

  /** The tried table holds exactly the tried entries, each at its hashed slot. */
  ghost predicate TriedOk(h: Hasher, s: State) {
    && (forall q :: q in s.triedTable ==>
          && s.triedTable[q] in s.infos && s.infos[s.triedTable[q]].inTried
          && q == TriedSlot(h, s.infos[s.triedTable[q]].service))
    && (forall id :: id in s.infos && s.infos[id].inTried ==>
          var q := TriedSlot(h, s.infos[id].service);
          q in s.triedTable && s.triedTable[q] == id)
  }

  /** The new table holds only new entries, each at its hashed position, and the reference
      counts are the numbers of slots; only ids in `zero` may be without a slot. */
  ghost predicate NewOk(h: Hasher, s: State, zero: set<int>) {
    && (forall q :: q in s.newTable ==>
          && s.newTable[q] in s.infos && !s.infos[s.newTable[q]].inTried
          && q.bucket < NEW_BUCKET_COUNT
          && q == NewSlotIn(h, q.bucket, s.infos[s.newTable[q]].service))
    && (forall id :: id in s.infos ==>
          && s.infos[id].refCount == |SlotsOf(s.newTable, id)| <= NEW_BUCKETS_PER_ADDRESS
          && (s.infos[id].inTried || s.infos[id].refCount > 0 || id in zero))
  }

  ghost predicate CountsOk(s: State, skew: int) {
    && s.nTried == |TriedIds(s.infos)|
    && s.nNew + skew == |NewIds(s.infos)|
  }

  /** Everything but `vRandom`. */
  ghost predicate Tables(h: Hasher, s: State, skew: int, zero: set<int>) {
    AddrOk(s) && TriedOk(h, s) && NewOk(h, s, zero) && CountsOk(s, skew)
  }

  ghost predicate Base(h: Hasher, s: State, skew: int, zero: set<int>) {
    RandomOk(s) && Tables(h, s, skew, zero)
  }

  ghost predicate Consistent(h: Hasher, s: State) {
    Base(h, s, 0, {})
  }

  /** The clauses of `Check_` about times. */
  ghost predicate TimesOk(s: State) {
    forall id :: id in s.infos ==>
      && s.infos[id].stats.lastTry >= 0 && s.infos[id].stats.lastSuccess >= 0
      && (s.infos[id].inTried ==> s.infos[id].stats.lastSuccess != 0)
  }

  // ----- The operations

  function Create(s: State, addr: Address, source: Ip): State {
    var id := s.idCount;
    s.(idCount := id + 1,
       infos := s.infos[id := Info(addr.service, source, Stats(addr.services, addr.time, 0, 0, 0, 0), 0, false, |s.random|)],
       byIp := s.byIp[addr.service.ip := id],
       random := s.random + [id])
  }

  function SwapRandom(s: State, i: int, j: int): State
    requires i != j ==> 0 <= i < |s.random| && 0 <= j < |s.random|
    requires i != j ==> s.random[i] in s.infos && s.random[j] in s.infos
  {
    if i == j then s else
      var a, b := s.random[i], s.random[j];
      var infos := s.infos[a := s.infos[a].(randomPos := j)];
      s.(infos := infos[b := infos[b].(randomPos := i)],
         random := s.random[i := b][j := a])
  }

  function Delete(s: State, id: int): State
    requires id in s.infos && !s.infos[id].inTried && s.infos[id].refCount == 0
    requires 0 <= s.infos[id].randomPos < |s.random|
    requires forall i :: 0 <= i < |s.random| ==> s.random[i] in s.infos
  {
    var t := SwapRandom(s, s.infos[id].randomPos, |s.random| - 1);
    t.(random := t.random[..|t.random| - 1],
       byIp := t.byIp - {s.infos[id].service.ip},
       infos := t.infos - {id},
       nNew := t.nNew - 1)
  }

  function Touch(s: State, id: int, info: Info): State {
    s.(infos := s.infos[id := info])
  }

  /** What the asserts in `ClearNew`, and in the `Delete` it may call, demand. */
  ghost predicate Clearable(s: State, q: Slot) {
    && RandomOk(s)
    && (q in s.newTable ==>
          && s.newTable[q] in s.infos && s.infos[s.newTable[q]].refCount > 0 && !s.infos[s.newTable[q]].inTried)
  }

  function ClearNew(s: State, q: Slot): State
    requires Clearable(s, q)
  {
    if q !in s.newTable then s else
      var id := s.newTable[q];
      var info := s.infos[id].(refCount := s.infos[id].refCount - 1);
      var t := Touch(s, id, info).(newTable := s.newTable - {q});
      if info.refCount == 0 then Delete(t, id) else t
  }

  /** Put a reference to `id` into the free slot `q`. */
  function Place(s: State, q: Slot, id: int): State
    requires id in s.infos
  {
    Touch(s, id, s.infos[id].(refCount := s.infos[id].refCount + 1)).(newTable := s.newTable[q := id])
  }

  // ----- How each step moves the predicate

  lemma SlotsAfterRemove(t: map<Slot, int>, q: Slot, id: int)
    requires q in t
    ensures SlotsOf(t - {q}, id) == SlotsOf(t, id) - {q}
    ensures t[q] == id ==> |SlotsOf(t - {q}, id)| == |SlotsOf(t, id)| - 1
    ensures t[q] != id ==> SlotsOf(t - {q}, id) == SlotsOf(t, id)
  {
    assert SlotsOf(t - {q}, id) == SlotsOf(t, id) - {q};
    if t[q] != id { assert q !in SlotsOf(t, id); }
  }

  lemma SlotsAfterAdd(t: map<Slot, int>, q: Slot, x: int, id: int)
    requires q !in t
    ensures x == id ==> |SlotsOf(t[q := x], id)| == |SlotsOf(t, id)| + 1
    ensures x != id ==> SlotsOf(t[q := x], id) == SlotsOf(t, id)
  {
    if x == id {
      assert SlotsOf(t[q := x], id) == SlotsOf(t, id) + {q};
    } else {
      assert SlotsOf(t[q := x], id) == SlotsOf(t, id);
    }
  }

  /** `t` differs from `s` only in the order of `vRandom` and the positions that record it. */
  ghost predicate PositionOnly(s: State, t: State) {
    && t == s.(infos := t.infos, random := t.random)
    && (forall x :: x in s.infos <==> x in t.infos)
    && (forall x :: x in t.infos ==>
          && t.infos[x].service == s.infos[x].service && t.infos[x].source == s.infos[x].source
          && t.infos[x].inTried == s.infos[x].inTried && t.infos[x].refCount == s.infos[x].refCount
          && t.infos[x].stats == s.infos[x].stats)
  }

  lemma PositionOnlyKeeps(h: Hasher, s: State, t: State, skew: int, zero: set<int>)
    requires Tables(h, s, skew, zero) && PositionOnly(s, t)
    ensures Tables(h, t, skew, zero)
  {
    assert AddrOk(t) by { PositionOnlyKeepsAddr(s, t); }
    assert TriedOk(h, t) by { PositionOnlyKeepsTried(h, s, t); }
    assert NewOk(h, t, zero) by { PositionOnlyKeepsNew(h, s, t, zero); }
    assert CountsOk(t, skew) by { PositionOnlyKeepsCounts(s, t, skew); }
  }

  lemma PositionOnlyKeepsAddr(s: State, t: State)
    requires AddrOk(s) && PositionOnly(s, t)
    ensures AddrOk(t)
  {
    forall ip | ip in t.byIp ensures t.byIp[ip] in t.infos && t.infos[t.byIp[ip]].service.ip == ip {
      var id := t.byIp[ip];
      assert id in s.infos && s.infos[id].service.ip == ip;
    }
  }

  lemma PositionOnlyKeepsTried(h: Hasher, s: State, t: State)
    requires TriedOk(h, s) && PositionOnly(s, t)
    ensures TriedOk(h, t)
  {
    forall q | q in t.triedTable
      ensures var id := t.triedTable[q]; id in t.infos && t.infos[id].inTried && q == TriedSlot(h, t.infos[id].service)
    {
      var id := t.triedTable[q];
      assert id in s.infos && s.infos[id].inTried;
    }
  }

  lemma PositionOnlyKeepsNew(h: Hasher, s: State, t: State, zero: set<int>)
    requires NewOk(h, s, zero) && PositionOnly(s, t)
    ensures NewOk(h, t, zero)
  {
    forall q | q in t.newTable
      ensures var id := t.newTable[q];
              && id in t.infos && !t.infos[id].inTried
              && q == NewSlotIn(h, q.bucket, t.infos[id].service)
    {
      var id := t.newTable[q];
      assert id in s.infos && !s.infos[id].inTried;
    }
  }

  lemma PositionOnlyKeepsCounts(s: State, t: State, skew: int)
    requires CountsOk(s, skew) && PositionOnly(s, t)
    ensures CountsOk(t, skew)
  {
    assert forall x :: x in NewIds(t.infos) <==> x in NewIds(s.infos);
    assert forall x :: x in TriedIds(t.infos) <==> x in TriedIds(s.infos);
    assert NewIds(t.infos) == NewIds(s.infos) && TriedIds(t.infos) == TriedIds(s.infos);
  }

  lemma SwapRandomKeepsRandom(s: State, i: int, j: int)
    requires RandomOk(s)
    requires i != j ==> 0 <= i < |s.random| && 0 <= j < |s.random|
    ensures RandomOk(SwapRandom(s, i, j)) && PositionOnly(s, SwapRandom(s, i, j))
  {
    var t := SwapRandom(s, i, j);
    if i != j {
      var a, b := s.random[i], s.random[j];
      assert s.infos[a].randomPos == i && s.infos[b].randomPos == j;
      forall x | x in t.infos ensures 0 <= t.infos[x].randomPos < |t.random| && t.random[t.infos[x].randomPos] == x {
        if x != a && x != b {
          assert t.infos[x] == s.infos[x] && s.random[s.infos[x].randomPos] == x;
        }
      }
      forall k | 0 <= k < |t.random| ensures t.random[k] in t.infos && t.infos[t.random[k]].randomPos == k {
        if k != i && k != j {
          assert s.infos[s.random[k]].randomPos == k;
        }
      }
    }
  }

  lemma SwapRandomKeeps(h: Hasher, s: State, i: int, j: int, skew: int, zero: set<int>)
    requires Base(h, s, skew, zero)
    requires i != j ==> 0 <= i < |s.random| && 0 <= j < |s.random|
    ensures Base(h, SwapRandom(s, i, j), skew, zero)
    ensures PositionOnly(s, SwapRandom(s, i, j))
  {
    SwapRandomKeepsRandom(s, i, j);
    PositionOnlyKeeps(h, s, SwapRandom(s, i, j), skew, zero);
  }

  /** Drop the last entry of `vRandom` from every index. */
  function Pop(t: State): State
    requires |t.random| > 0 && t.random[|t.random| - 1] in t.infos
  {
    var id := t.random[|t.random| - 1];
    t.(random := t.random[..|t.random| - 1],
       byIp := t.byIp - {t.infos[id].service.ip},
       infos := t.infos - {id},
       nNew := t.nNew - 1)
  }

  lemma PopKeepsRandom(t: State)
    requires RandomOk(t) && |t.random| > 0
    ensures RandomOk(Pop(t))
  {
  }

  lemma PopKeepsAddr(t: State)
    requires RandomOk(t) && AddrOk(t) && |t.random| > 0
    ensures AddrOk(Pop(t))
  {
  }

  lemma PopKeepsNew(h: Hasher, t: State, zero: set<int>)
    requires RandomOk(t) && NewOk(h, t, zero) && |t.random| > 0
    requires var id := t.random[|t.random| - 1]; !t.infos[id].inTried && t.infos[id].refCount == 0
    ensures NewOk(h, Pop(t), zero - {t.random[|t.random| - 1]})
  {
    var id := t.random[|t.random| - 1];
    forall q | q in t.newTable ensures t.newTable[q] != id {
      assert t.newTable[q] == id ==> q in SlotsOf(t.newTable, id);
    }
  }

  lemma PopKeeps(h: Hasher, t: State, skew: int, zero: set<int>)
    requires Base(h, t, skew, zero) && |t.random| > 0
    requires var id := t.random[|t.random| - 1]; !t.infos[id].inTried && t.infos[id].refCount == 0
    ensures Base(h, Pop(t), skew, zero - {t.random[|t.random| - 1]})
  {
    var id := t.random[|t.random| - 1];
    var r := Pop(t);
    PopKeepsRandom(t);
    PopKeepsAddr(t);
    PopKeepsNew(h, t, zero);
    assert TriedOk(h, r);
    hide RandomOk;
    hide AddrOk;
    hide TriedOk;
    hide NewOk;
    assert NewIds(r.infos) == NewIds(t.infos) - {id};
    assert TriedIds(r.infos) == TriedIds(t.infos);
  }

  lemma SwapToEnd(s: State, id: int)
    requires RandomOk(s) && id in s.infos
    ensures var t := SwapRandom(s, s.infos[id].randomPos, |s.random| - 1);
            && RandomOk(t) && |t.random| == |s.random| > 0 && t.random[|t.random| - 1] == id && id in t.infos
            && PositionOnly(s, t) && t.infos[id].refCount == s.infos[id].refCount && t.infos[id].inTried == s.infos[id].inTried
  {
    SwapRandomKeepsRandom(s, s.infos[id].randomPos, |s.random| - 1);
  }

  lemma RandomOfBase(h: Hasher, s: State, skew: int, zero: set<int>)
    requires Base(h, s, skew, zero)
    ensures RandomOk(s) && forall id :: id in s.infos ==> 0 <= s.infos[id].randomPos < |s.random|
    ensures forall i :: 0 <= i < |s.random| ==> s.random[i] in s.infos
  {
    hide Tables;
  }

  /** Deleting brings the entry to the end of `vRandom` and drops it there. */
  lemma DeletePops(s: State, id: int)
    requires RandomOk(s) && id in s.infos && !s.infos[id].inTried && s.infos[id].refCount == 0
    ensures var t := SwapRandom(s, s.infos[id].randomPos, |s.random| - 1);
            && RandomOk(t) && |t.random| > 0 && t.random[|t.random| - 1] == id && id in t.infos
            && Delete(s, id) == Pop(t)
  {
    SwapToEnd(s, id);
    var t := SwapRandom(s, s.infos[id].randomPos, |s.random| - 1);
    hide SwapRandom;
    hide RandomOk;
    assert t.infos[id].service == s.infos[id].service;
  }

  lemma DeleteKeeps(h: Hasher, s: State, id: int, skew: int, zero: set<int>)
    requires Base(h, s, skew, zero)
    requires id in s.infos && !s.infos[id].inTried && s.infos[id].refCount == 0
    ensures Base(h, Delete(s, id), skew, zero - {id})
  {
    hide *;
    RandomOfBase(h, s, skew, zero);
    var i := s.infos[id].randomPos;
    SwapToEnd(s, id);
    DeletePops(s, id);
    SwapRandomKeeps(h, s, i, |s.random| - 1, skew, zero);
    PopKeeps(h, SwapRandom(s, i, |s.random| - 1), skew, zero);
  }

  /** Apart from the loss of `id`, only positions in `vRandom` differ. */
  ghost predicate Without(s: State, t: State, id: int) {
    && (forall x :: x in t.infos <==> x in s.infos && x != id)
    && (forall x :: x in t.infos ==>
          && t.infos[x].service == s.infos[x].service && t.infos[x].source == s.infos[x].source
          && t.infos[x].inTried == s.infos[x].inTried && t.infos[x].refCount == s.infos[x].refCount
          && t.infos[x].stats == s.infos[x].stats)
    && t.newTable == s.newTable && t.triedTable == s.triedTable
    && t.idCount == s.idCount && t.lastGood == s.lastGood && t.nTried == s.nTried
  }

  /** Take one reference away from the entry in slot `q`. */
  function Unref(s: State, q: Slot): State
    requires q in s.newTable && s.newTable[q] in s.infos
  {
    var id := s.newTable[q];
    Touch(s, id, s.infos[id].(refCount := s.infos[id].refCount - 1)).(newTable := s.newTable - {q})
  }

  lemma SameIds(s: State, t: State)
    requires forall x :: x in s.infos <==> x in t.infos
    requires forall x :: x in t.infos ==> t.infos[x].inTried == s.infos[x].inTried
    ensures NewIds(t.infos) == NewIds(s.infos) && TriedIds(t.infos) == TriedIds(s.infos)
  {
    assert forall x :: x in NewIds(t.infos) <==> x in NewIds(s.infos);
    assert forall x :: x in TriedIds(t.infos) <==> x in TriedIds(s.infos);
  }

  /** `t` differs from `s` only in reference counts and the new table. */
  ghost predicate RefsOnly(s: State, t: State) {
    && t.idCount == s.idCount && t.byIp == s.byIp && t.random == s.random
    && t.nTried == s.nTried && t.triedTable == s.triedTable && t.nNew == s.nNew
    && (forall x :: x in s.infos <==> x in t.infos)
    && (forall x :: x in t.infos ==>
          && t.infos[x].service == s.infos[x].service && t.infos[x].inTried == s.infos[x].inTried
          && t.infos[x].randomPos == s.infos[x].randomPos)
  }

  lemma RefsOnlyKeeps(h: Hasher, s: State, t: State, skew: int)
    requires RefsOnly(s, t) && RandomOk(s) && AddrOk(s) && TriedOk(h, s) && CountsOk(s, skew)
    ensures RandomOk(t) && AddrOk(t) && TriedOk(h, t) && CountsOk(t, skew)
  {
    SameIds(s, t);
    forall ip | ip in t.byIp ensures t.byIp[ip] in t.infos && t.infos[t.byIp[ip]].service.ip == ip {
      var id := t.byIp[ip];
      assert id in s.infos && s.infos[id].service.ip == ip;
    }
    forall q | q in t.triedTable
      ensures var id := t.triedTable[q]; id in t.infos && t.infos[id].inTried && q == TriedSlot(h, t.infos[id].service)
    {
      var id := t.triedTable[q];
      assert id in s.infos && s.infos[id].inTried;
    }
    forall i | 0 <= i < |t.random| ensures t.random[i] in t.infos && t.infos[t.random[i]].randomPos == i {
      var id := t.random[i];
      assert id in s.infos && s.infos[id].randomPos == i;
    }
  }

  /** Replacing an entry by one that keeps address, membership, count and position. */
  lemma TouchKeeps(h: Hasher, s: State, id: int, info: Info, skew: int, zero: set<int>)
    requires Base(h, s, skew, zero) && id in s.infos
    requires info.service == s.infos[id].service && info.inTried == s.infos[id].inTried
    requires info.refCount == s.infos[id].refCount && info.randomPos == s.infos[id].randomPos
    ensures Base(h, Touch(s, id, info), skew, zero)
  {
    assert NewOk(h, Touch(s, id, info), zero);
    RefsOnlyKeeps(h, s, Touch(s, id, info), skew);
  }

  lemma UnrefKeepsNew(h: Hasher, s: State, q: Slot, zero: set<int>)
    requires NewOk(h, s, zero) && q in s.newTable
    ensures NewOk(h, Unref(s, q), zero + {s.newTable[q]})
    ensures s.infos[s.newTable[q]].refCount > 0
  {
    var id := s.newTable[q];
    assert q in SlotsOf(s.newTable, id);
    forall x | x in s.infos
      ensures |SlotsOf(s.newTable - {q}, x)| == |SlotsOf(s.newTable, x)| - (if x == id then 1 else 0)
    {
      SlotsAfterRemove(s.newTable, q, x);
    }
  }

  lemma UnrefKeeps(h: Hasher, s: State, q: Slot, skew: int, zero: set<int>)
    requires Base(h, s, skew, zero) && q in s.newTable
    ensures Base(h, Unref(s, q), skew, zero + {s.newTable[q]})
    ensures s.infos[s.newTable[q]].refCount > 0
  {
    UnrefKeepsNew(h, s, q, zero);
    RefsOnlyKeeps(h, s, Unref(s, q), skew);
  }

  /** What `ClearNew` leaves alone: every entry but the one it found in the slot. */
  ghost predicate Cleared(s: State, t: State, q: Slot) {
    && t.newTable == s.newTable - {q} && t.triedTable == s.triedTable
    && t.idCount == s.idCount && t.lastGood == s.lastGood && t.nTried == s.nTried
    && (forall x :: x in t.infos ==> x in s.infos)
    && (forall x :: x in s.infos && !(q in s.newTable && s.newTable[q] == x) ==>
          && x in t.infos
          && t.infos[x].service == s.infos[x].service && t.infos[x].source == s.infos[x].source
          && t.infos[x].inTried == s.infos[x].inTried && t.infos[x].refCount == s.infos[x].refCount)
    && (forall x :: x in t.infos ==>
          t.infos[x].stats == s.infos[x].stats && t.infos[x].inTried == s.infos[x].inTried)
  }

  lemma DeleteFrame(s: State, id: int)
    requires RandomOk(s) && id in s.infos && !s.infos[id].inTried && s.infos[id].refCount == 0
    ensures Without(s, Delete(s, id), id)
  {
    SwapRandomKeepsRandom(s, s.infos[id].randomPos, |s.random| - 1);
    hide SwapRandom;
  }

  lemma ClearNewFrame(s: State, q: Slot)
    requires Clearable(s, q)
    ensures Cleared(s, ClearNew(s, q), q)
  {
    if q in s.newTable {
      var id := s.newTable[q];
      var t := Unref(s, q);
      if t.infos[id].refCount == 0 {
        assert RandomOk(t);
        DeleteFrame(t, id);
        hide RandomOk;
        hide Delete;
      }
    } else {
      assert s.newTable - {q} == s.newTable;
    }
  }

  lemma ClearNewKeeps(h: Hasher, s: State, q: Slot, skew: int, zero: set<int>)
    requires Base(h, s, skew, zero)
    requires q in s.newTable ==> s.newTable[q] !in zero
    ensures Clearable(s, q)
    ensures Base(h, ClearNew(s, q), skew, zero)
    ensures Cleared(s, ClearNew(s, q), q)
  {
    hide Cleared;
    if q in s.newTable {
      var id := s.newTable[q];
      UnrefKeeps(h, s, q, skew, zero);
      hide Tables;
      ClearNewFrame(s, q);
      var t := Unref(s, q);
      assert zero + {id} - {id} == zero;
      if t.infos[id].refCount == 0 {
        DeleteKeeps(h, t, id, skew, zero + {id});
      } else {
        ShrinkZero(h, t, skew, zero + {id}, id);
      }
    } else {
      ClearNewFrame(s, q);
    }
  }

  lemma ShrinkZero(h: Hasher, s: State, skew: int, zero: set<int>, id: int)
    requires Base(h, s, skew, zero) && id in s.infos && (s.infos[id].refCount != 0 || s.infos[id].inTried)
    ensures Base(h, s, skew, zero - {id})
  {
    assert forall x :: x in zero - {id} <==> x in zero && x != id;
  }

  lemma PlaceKeepsNew(h: Hasher, s: State, q: Slot, id: int, zero: set<int>)
    requires NewOk(h, s, zero) && id in s.infos && !s.infos[id].inTried && s.infos[id].refCount < NEW_BUCKETS_PER_ADDRESS
    requires q !in s.newTable && q.bucket < NEW_BUCKET_COUNT && q == NewSlotIn(h, q.bucket, s.infos[id].service)
    ensures NewOk(h, Place(s, q, id), zero - {id})
  {
    forall x | x in s.infos
      ensures |SlotsOf(s.newTable[q := id], x)| == |SlotsOf(s.newTable, x)| + (if x == id then 1 else 0)
    {
      SlotsAfterAdd(s.newTable, q, id, x);
    }
  }

  lemma PlaceKeeps(h: Hasher, s: State, q: Slot, id: int, skew: int, zero: set<int>)
    requires Base(h, s, skew, zero) && id in s.infos && !s.infos[id].inTried
    requires s.infos[id].refCount < NEW_BUCKETS_PER_ADDRESS
    requires q !in s.newTable && q.bucket < NEW_BUCKET_COUNT && q == NewSlotIn(h, q.bucket, s.infos[id].service)
    ensures Base(h, Place(s, q, id), skew, zero - {id})
  {
    PlaceKeepsNew(h, s, q, id, zero);
    RefsOnlyKeeps(h, s, Place(s, q, id), skew);
  }

  // ----- Adding an address

  /** What the code asks its surroundings: the clock, the dice, and the two address policies. */
  datatype Env = Env(now: int, dice: nat, routable: Ip -> bool, terrible: Stats -> bool)

  const DAY := 24 * 60 * 60
  const HOUR := 60 * 60

  function Penalised(time: nat, penalty: int): nat {
    (if time - penalty < 0 then 0 else time - penalty) % TIME_MODULUS
  }

  /** The refresh of a known entry from a repeated announcement. */
  function Refresh(old_: Stats, addr: Address, penalty: int, now: int): Stats {
    var interval := if now - addr.time < DAY then HOUR else DAY;
    var time := if addr.time != 0 && (old_.time == 0 || old_.time < addr.time - interval - penalty)
                then Penalised(addr.time, penalty) else old_.time;
    old_.(time := time, services := Union(old_.services, addr.services))
  }

  /** Whether the refreshed entry may get one more reference. */
  predicate MayGain(info: Info, addr: Address, dice: nat)
    requires info.refCount >= 0
  {
    && addr.time != 0 && (info.stats.time == 0 || addr.time > info.stats.time)
    && !info.inTried
    && info.refCount != NEW_BUCKETS_PER_ADDRESS
    && (Pow2(info.refCount) > 1 ==> dice % Pow2(info.refCount) == 0)
  }

  /** Whether the slot may be given to `id`. */
  predicate MayTake(terrible: Stats -> bool, s: State, q: Slot, id: int)
    requires id in s.infos && (q in s.newTable ==> s.newTable[q] in s.infos)
  {
    q in s.newTable ==>
      var existing := s.infos[s.newTable[q]];
      terrible(existing.stats) || (existing.refCount > 1 && s.infos[id].refCount == 0)
  }

  /** The last part of `Add_`: try to reference `id` from the slot its source selects. */
  function Insert(h: Hasher, terrible: Stats -> bool, s: State, id: int, source: Ip): State
    requires Base(h, s, 0, {id}) && id in s.infos
    requires !s.infos[id].inTried && s.infos[id].refCount < NEW_BUCKETS_PER_ADDRESS
  {
    var q := NewSlot(h, s.infos[id].service, source);
    if q in s.newTable && s.newTable[q] == id then s
    else if MayTake(terrible, s, q, id) then
      ClearForKeeps(h, s, q, id);
      Place(ClearNew(s, q), q, id)
    else if s.infos[id].refCount == 0 then Delete(s, id)
    else s
  }

  lemma ClearForKeeps(h: Hasher, s: State, q: Slot, id: int)
    requires Base(h, s, 0, {id}) && id in s.infos
    requires q in s.newTable ==> s.newTable[q] != id
    ensures Clearable(s, q)
    ensures var t := ClearNew(s, q);
            && Base(h, t, 0, {id}) && id in t.infos && q !in t.newTable
            && t.infos[id].service == s.infos[id].service && t.infos[id].inTried == s.infos[id].inTried
            && t.infos[id].refCount == s.infos[id].refCount
  {
    ClearNewKeeps(h, s, q, 0, {id});
    hide Base;
  }

  lemma InsertKeeps(h: Hasher, terrible: Stats -> bool, s: State, id: int, source: Ip)
    requires Base(h, s, 0, {id}) && id in s.infos
    requires !s.infos[id].inTried && s.infos[id].refCount < NEW_BUCKETS_PER_ADDRESS
    ensures Consistent(h, Insert(h, terrible, s, id, source))
  {
    var q := NewSlot(h, s.infos[id].service, source);
    assert {id} - {id} == {};
    if q in s.newTable && s.newTable[q] == id {
      assert q in SlotsOf(s.newTable, id);
      ShrinkZero(h, s, 0, {id}, id);
    } else if MayTake(terrible, s, q, id) {
      ClearForKeeps(h, s, q, id);
      hide Tables;
      PlaceKeeps(h, ClearNew(s, q), q, id, 0, {id});
    } else if s.infos[id].refCount == 0 {
      DeleteKeeps(h, s, id, 0, {id});
    } else {
      ShrinkZero(h, s, 0, {id}, id);
    }
  }

  lemma CreateKeeps(h: Hasher, s: State, addr: Address, source: Ip)
    requires Consistent(h, s) && addr.service.ip !in s.byIp
    ensures Base(h, Create(s, addr, source), 1, {s.idCount})
  {
    assert s.idCount !in s.infos;
    hide RandomOk;
    hide AddrOk;
    hide TriedOk;
    hide NewOk;
    hide CountsOk;
    CreateKeepsIndexes(s, addr, source);
    CreateKeepsTried(h, s, addr, source);
    CreateKeepsNew(h, s, addr, source);
    CreateCounts(s, addr, source);
  }

  lemma CreateKeepsIndexes(s: State, addr: Address, source: Ip)
    requires RandomOk(s) && AddrOk(s) && addr.service.ip !in s.byIp
    ensures RandomOk(Create(s, addr, source)) && AddrOk(Create(s, addr, source))
  {
  }

  lemma CreateKeepsTried(h: Hasher, s: State, addr: Address, source: Ip)
    requires TriedOk(h, s) && s.idCount !in s.infos
    ensures TriedOk(h, Create(s, addr, source))
  {
    hide TriedSlot;
  }

  lemma CreateCounts(s: State, addr: Address, source: Ip)
    requires CountsOk(s, 0) && s.idCount !in s.infos
    ensures CountsOk(Create(s, addr, source), 1)
  {
    var t, id := Create(s, addr, source), s.idCount;
    assert forall x :: x in NewIds(t.infos) <==> x in NewIds(s.infos) + {id};
    assert NewIds(t.infos) == NewIds(s.infos) + {id};
    assert forall x :: x in TriedIds(t.infos) <==> x in TriedIds(s.infos);
    assert TriedIds(t.infos) == TriedIds(s.infos);
  }

  lemma CreateKeepsNew(h: Hasher, s: State, addr: Address, source: Ip)
    requires NewOk(h, s, {}) && s.idCount !in s.infos
    ensures NewOk(h, Create(s, addr, source), {s.idCount})
  {
    forall q | q in s.newTable ensures s.newTable[q] != s.idCount {
      assert s.newTable[q] in s.infos;
    }
    assert SlotsOf(s.newTable, s.idCount) == {};
  }

  function Add(h: Hasher, env: Env, s: State, addr: Address, source: Ip, penaltyIn: int): (r: (State, bool))
    requires Consistent(h, s)
    ensures Consistent(h, r.0)
  {
    if !env.routable(addr.service.ip) then (s, false) else
      var penalty := if addr.service.ip == source then 0 else penaltyIn;
      if addr.service.ip in s.byIp then
        var id := s.byIp[addr.service.ip];
        var info := s.infos[id].(stats := Refresh(s.infos[id].stats, addr, penalty, env.now));
        var t := Touch(s, id, info);
        TouchKeeps(h, s, id, info, 0, {});
        if MayGain(info, addr, env.dice) then
          GrowZero(h, t, id);
          InsertKeeps(h, env.terrible, t, id, source);
          (Insert(h, env.terrible, t, id, source), false)
        else (t, false)
      else
        var t := Created(s, addr, source, penalty);
        CreatedKeeps(h, s, addr, source, penalty);
        InsertKeeps(h, env.terrible, t, s.idCount, source);
        (Insert(h, env.terrible, t, s.idCount, source), true)
  }

  function Announced(info: Info, penalty: int): Info {
    info.(stats := info.stats.(time := Penalised(info.stats.time, penalty)))
  }

  /** A new entry, its announced time reduced by the penalty, counted as new. */
  function Created(s: State, addr: Address, source: Ip, penalty: int): State {
    var t := Create(s, addr, source);
    Touch(t, s.idCount, Announced(t.infos[s.idCount], penalty)).(nNew := t.nNew + 1)
  }

  lemma GrowZero(h: Hasher, s: State, id: int)
    requires Consistent(h, s)
    ensures Base(h, s, 0, {id})
  {
  }

  lemma CreatedKeeps(h: Hasher, s: State, addr: Address, source: Ip, penalty: int)
    requires Consistent(h, s) && addr.service.ip !in s.byIp
    ensures Base(h, Created(s, addr, source, penalty), 0, {s.idCount})
  {
    CreateKeeps(h, s, addr, source);
    var t := Create(s, addr, source);
    TouchKeeps(h, t, s.idCount, Announced(t.infos[s.idCount], penalty), 1, {s.idCount});
  }

  // ----- Moving an entry to the tried table

  /** The buckets in which a scan by hashed position finds `id`. */
  function BucketsOf(h: Hasher, s: State, id: int): set<nat>
    requires id in s.infos
  {
    set b: nat | b < NEW_BUCKET_COUNT &&
      NewSlotIn(h, b, s.infos[id].service) in s.newTable && s.newTable[NewSlotIn(h, b, s.infos[id].service)] == id
  }

  function SlotsIn(h: Hasher, buckets: set<nat>, a: Service): set<Slot> {
    set b | b in buckets :: NewSlotIn(h, b, a)
  }

  /** The loop at the start of `MakeTried`, all rounds at once. */
  function DropNewRefs(h: Hasher, s: State, id: int): State
    requires id in s.infos
  {
    var buckets := BucketsOf(h, s, id);
    Touch(s, id, s.infos[id].(refCount := s.infos[id].refCount - |buckets|)).
      (newTable := s.newTable - SlotsIn(h, buckets, s.infos[id].service))
  }

  lemma SlotsInSize(h: Hasher, buckets: set<nat>, a: Service)
    ensures |SlotsIn(h, buckets, a)| == |buckets|
  {
    if buckets != {} {
      var b :| b in buckets;
      SlotsInSize(h, buckets - {b}, a);
      assert SlotsIn(h, buckets, a) == SlotsIn(h, buckets - {b}, a) + {NewSlotIn(h, b, a)};
    }
  }

  /** The scan by hashed position misses no slot. */
  lemma ScanFindsAll(h: Hasher, s: State, id: int, zero: set<int>)
    requires NewOk(h, s, zero) && id in s.infos
    ensures SlotsIn(h, BucketsOf(h, s, id), s.infos[id].service) == SlotsOf(s.newTable, id)
    ensures |BucketsOf(h, s, id)| == s.infos[id].refCount
  {
    var a := s.infos[id].service;
    SlotsInSize(h, BucketsOf(h, s, id), a);
    forall q | q in SlotsOf(s.newTable, id) ensures q in SlotsIn(h, BucketsOf(h, s, id), a) {
      assert q == NewSlotIn(h, q.bucket, a);
      assert q.bucket in BucketsOf(h, s, id);
    }
  }

  lemma DropNewRefsKeepsNew(h: Hasher, s: State, id: int)
    requires NewOk(h, s, {}) && id in s.infos
    ensures NewOk(h, DropNewRefs(h, s, id), {id})
    ensures DropNewRefs(h, s, id).infos[id].refCount == 0
    ensures DropNewRefs(h, s, id).newTable == s.newTable - SlotsOf(s.newTable, id)
  {
    ScanFindsAll(h, s, id, {});
    hide BucketsOf;
    hide SlotsIn;
    var t := DropNewRefs(h, s, id);
    forall x | x in s.infos
      ensures SlotsOf(t.newTable, x) == if x == id then {} else SlotsOf(s.newTable, x)
    {
      assert forall q :: q in SlotsOf(t.newTable, x) <==> q in SlotsOf(s.newTable, x) && x != id;
    }
  }

  lemma DropNewRefsKeeps(h: Hasher, s: State, id: int)
    requires Consistent(h, s) && id in s.infos
    ensures Base(h, DropNewRefs(h, s, id), 0, {id})
    ensures DropNewRefs(h, s, id).infos[id].refCount == 0
  {
    DropNewRefsKeepsNew(h, s, id);
    RefsOnlyKeeps(h, s, DropNewRefs(h, s, id), 0);
  }

  /** Take the entry in tried slot `q` out of the tried set; for the moment it is nowhere. */
  function Unseat(s: State, q: Slot): State
    requires q in s.triedTable && s.triedTable[q] in s.infos
  {
    var id := s.triedTable[q];
    Touch(s, id, s.infos[id].(inTried := false)).(triedTable := s.triedTable - {q}, nTried := s.nTried - 1)
  }

  /** Put `id` into the free tried slot `q`. */
  function Seat(s: State, q: Slot, id: int): State
    requires id in s.infos
  {
    Touch(s, id, s.infos[id].(inTried := true)).(triedTable := s.triedTable[q := id], nTried := s.nTried + 1)
  }

  /** `t` differs from `s` only in which table the entry `id` belongs to. */
  ghost predicate SeatOnly(s: State, t: State, id: int) {
    && t.idCount == s.idCount && t.byIp == s.byIp && t.random == s.random
    && t.nNew == s.nNew && t.newTable == s.newTable
    && id in s.infos && s.infos[id].refCount == 0
    && (forall x :: x in s.infos <==> x in t.infos)
    && (forall x :: x in t.infos ==>
          && t.infos[x].service == s.infos[x].service && t.infos[x].refCount == s.infos[x].refCount
          && (x != id ==> t.infos[x].inTried == s.infos[x].inTried)
          && t.infos[x].randomPos == s.infos[x].randomPos)
  }

  lemma SeatOnlyKeeps(h: Hasher, s: State, t: State, id: int, zero: set<int>, zero': set<int>)
    requires SeatOnly(s, t, id) && RandomOk(s) && AddrOk(s) && NewOk(h, s, zero)
    requires zero <= zero' + {id} && (t.infos[id].inTried || id in zero')
    ensures RandomOk(t) && AddrOk(t) && NewOk(h, t, zero')
  {
    forall ip | ip in t.byIp ensures t.byIp[ip] in t.infos && t.infos[t.byIp[ip]].service.ip == ip {
      var x := t.byIp[ip];
      assert x in s.infos && s.infos[x].service.ip == ip;
    }
    forall i | 0 <= i < |t.random| ensures t.random[i] in t.infos && t.infos[t.random[i]].randomPos == i {
      var x := t.random[i];
      assert x in s.infos && s.infos[x].randomPos == i;
    }
    forall q | q in t.newTable
      ensures var x := t.newTable[q]; x in t.infos && !t.infos[x].inTried && q == NewSlotIn(h, q.bucket, t.infos[x].service)
    {
      var x := t.newTable[q];
      assert q in SlotsOf(s.newTable, x);
      assert x in s.infos && !s.infos[x].inTried && x != id;
    }
  }

  lemma UnseatTried(h: Hasher, s: State, q: Slot)
    requires TriedOk(h, s) && q in s.triedTable
    ensures TriedOk(h, Unseat(s, q))
  {
    hide TriedSlot;
  }

  lemma UnseatCounts(s: State, q: Slot, skew: int)
    requires CountsOk(s, skew) && q in s.triedTable && s.triedTable[q] in s.infos && s.infos[s.triedTable[q]].inTried
    ensures CountsOk(Unseat(s, q), skew + 1)
  {
    var id := s.triedTable[q];
    var t := Unseat(s, q);
    assert forall x :: x in NewIds(t.infos) <==> x in NewIds(s.infos) + {id};
    assert NewIds(t.infos) == NewIds(s.infos) + {id};
    assert forall x :: x in TriedIds(t.infos) <==> x in TriedIds(s.infos) - {id};
    assert TriedIds(t.infos) == TriedIds(s.infos) - {id};
  }

  lemma UnseatKeeps(h: Hasher, s: State, q: Slot, skew: int, zero: set<int>)
    requires Base(h, s, skew, zero) && q in s.triedTable
    ensures Base(h, Unseat(s, q), skew + 1, zero + {s.triedTable[q]})
    ensures s.infos[s.triedTable[q]].refCount == 0
  {
    var id := s.triedTable[q];
    TriedHasNoRefs(h, s, id, zero);
    UnseatTried(h, s, q);
    UnseatCounts(s, q, skew);
    hide TriedOk;
    hide CountsOk;
    hide RandomOk;
    hide AddrOk;
    hide NewOk;
    SeatOnlyKeeps(h, s, Unseat(s, q), id, zero, zero + {id});
  }

  lemma TriedHasNoRefs(h: Hasher, s: State, id: int, zero: set<int>)
    requires NewOk(h, s, zero) && id in s.infos && s.infos[id].inTried
    ensures s.infos[id].refCount == 0
  {
    forall q ensures q !in SlotsOf(s.newTable, id) {
    }
    assert SlotsOf(s.newTable, id) == {};
  }

  lemma SeatTried(h: Hasher, s: State, q: Slot, id: int)
    requires TriedOk(h, s) && id in s.infos
    requires q == TriedSlot(h, s.infos[id].service) && q !in s.triedTable
    ensures TriedOk(h, Seat(s, q, id))
  {
    hide TriedSlot;
  }

  lemma SeatCounts(s: State, q: Slot, id: int, skew: int)
    requires CountsOk(s, skew) && id in s.infos && !s.infos[id].inTried
    ensures CountsOk(Seat(s, q, id), skew - 1)
  {
    var t := Seat(s, q, id);
    assert forall x :: x in NewIds(t.infos) <==> x in NewIds(s.infos) - {id};
    assert NewIds(t.infos) == NewIds(s.infos) - {id};
    assert forall x :: x in TriedIds(t.infos) <==> x in TriedIds(s.infos) + {id};
    assert TriedIds(t.infos) == TriedIds(s.infos) + {id};
  }

  lemma SeatKeeps(h: Hasher, s: State, q: Slot, id: int, skew: int)
    requires Base(h, s, skew, {id}) && id in s.infos && !s.infos[id].inTried && s.infos[id].refCount == 0
    requires q == TriedSlot(h, s.infos[id].service) && q !in s.triedTable
    ensures Base(h, Seat(s, q, id), skew - 1, {})
  {
    SeatTried(h, s, q, id);
    SeatCounts(s, q, id, skew);
    hide TriedOk;
    hide TriedSlot;
    hide CountsOk;
    hide RandomOk;
    hide AddrOk;
    hide NewOk;
    SeatOnlyKeeps(h, s, Seat(s, q, id), id, {id}, {});
  }

  /** The slot of the new table to which the occupant of tried slot `q` would return. */
  function Home(h: Hasher, s: State, q: Slot): Slot
    requires q in s.triedTable && s.triedTable[q] in s.infos
  {
    var info := s.infos[s.triedTable[q]];
    NewSlot(h, info.service, info.source)
  }

  /** Clearing a slot while `id` and `gone` hold no reference. */
  lemma ClearBeside(h: Hasher, t: State, home: Slot, id: int, gone: int)
    requires Base(h, t, 2, {id, gone}) && id in t.infos && gone in t.infos
    requires t.infos[id].refCount == 0 && t.infos[gone].refCount == 0
    ensures Clearable(t, home)
    ensures var u := ClearNew(t, home);
            && Base(h, u, 2, {id, gone}) && home !in u.newTable && u.triedTable == t.triedTable
            && gone in u.infos && u.infos[gone].refCount == 0 && u.infos[gone].inTried == t.infos[gone].inTried
            && u.infos[gone].service == t.infos[gone].service && u.infos[gone].source == t.infos[gone].source
            && id in u.infos && u.infos[id].refCount == 0 && u.infos[id].inTried == t.infos[id].inTried
            && u.infos[id].service == t.infos[id].service
            && TimesKept(t, u)
  {
    Unreferenced(h, t, id, {id, gone});
    Unreferenced(h, t, gone, {id, gone});
    ClearNewKeeps(h, t, home, 2, {id, gone});
    hide Base;
    hide Clearable;
    hide ClearNew;
  }

  lemma Unreferenced(h: Hasher, s: State, id: int, zero: set<int>)
    requires NewOk(h, s, zero) && id in s.infos && s.infos[id].refCount == 0
    ensures forall p :: p in s.newTable ==> s.newTable[p] != id
  {
    assert forall p :: p in s.newTable && s.newTable[p] == id ==> p in SlotsOf(s.newTable, id);
  }

  /** No entry appears or joins the tried set, and the recorded times stay. */
  ghost predicate TimesKept(s: State, t: State) {
    forall x :: x in t.infos ==>
      && x in s.infos && (t.infos[x].inTried ==> s.infos[x].inTried)
      && t.infos[x].stats == s.infos[x].stats
  }

  /** Make room in tried slot `q`: its occupant goes back to the new table, whose occupant is cleared. */
  function Evict(h: Hasher, s: State, q: Slot, id: int): State
    requires Base(h, s, 1, {id}) && id in s.infos && s.infos[id].refCount == 0
  {
    if q !in s.triedTable then s else
      var gone, home := s.triedTable[q], Home(h, s, q);
      UnseatKeeps(h, s, q, 1, {id});
      assert {id} + {gone} == {id, gone};
      ClearBeside(h, Unseat(s, q), home, id, gone);
      Rehome(ClearNew(Unseat(s, q), home), home, gone)
  }

  /** Enter `gone` into the new set again. */
  function Rehome(u: State, home: Slot, gone: int): State
    requires gone in u.infos
  {
    Touch(u, gone, u.infos[gone].(refCount := 1)).(newTable := u.newTable[home := gone], nNew := u.nNew + 1)
  }

  lemma RehomeKeeps(h: Hasher, u: State, home: Slot, id: int, gone: int)
    requires Base(h, u, 2, {id, gone}) && id != gone && id in u.infos && gone in u.infos
    requires u.infos[gone].refCount == 0 && !u.infos[gone].inTried && home !in u.newTable
    requires home == NewSlot(h, u.infos[gone].service, u.infos[gone].source)
    ensures Base(h, Rehome(u, home, gone), 1, {id})
  {
    assert 0 < NEW_BUCKETS_PER_ADDRESS;
    hide *;
    RehomePlaces(u, home, gone);
    SlotOfSource(h, u.infos[gone].service, u.infos[gone].source);
    PlaceKeeps(h, u, home, gone, 2, {id, gone});
    OneLeft(id, gone);
    CountOne(h, Place(u, home, gone), id);
  }

  lemma SlotOfSource(h: Hasher, a: Service, source: Ip)
    ensures var q := NewSlot(h, a, source); q.bucket < NEW_BUCKET_COUNT && q == NewSlotIn(h, q.bucket, a)
  {
    hide Position;
  }

  lemma OneLeft(a: int, b: int)
    requires a != b
    ensures {a, b} - {b} == {a}
  {
  }

  lemma RehomePlaces(u: State, home: Slot, gone: int)
    requires gone in u.infos && u.infos[gone].refCount == 0
    ensures var v := Place(u, home, gone); Rehome(u, home, gone) == v.(nNew := v.nNew + 1)
  {
  }

  lemma TimesKeptAcross(s: State, q: Slot, u: State, home: Slot, gone: int)
    requires q in s.triedTable && s.triedTable[q] in s.infos && TimesKept(Unseat(s, q), u) && gone in u.infos
    ensures TimesKept(s, Rehome(u, home, gone))
  {
  }

  lemma EvictKeeps(h: Hasher, s: State, q: Slot, id: int)
    requires Base(h, s, 1, {id}) && id in s.infos && !s.infos[id].inTried && s.infos[id].refCount == 0
    ensures var r := Evict(h, s, q, id);
            && Base(h, r, 1, {id}) && q !in r.triedTable && id in r.infos
            && r.infos[id].service == s.infos[id].service && !r.infos[id].inTried && r.infos[id].refCount == 0
            && TimesKept(s, r)
  {
    if q in s.triedTable {
      var gone, home := s.triedTable[q], Home(h, s, q);
      assert id != gone;
      UnseatKeeps(h, s, q, 1, {id});
      hide Base;
      assert {id} + {gone} == {id, gone};
      var t := Unseat(s, q);
      ClearBeside(h, t, home, id, gone);
      hide Clearable;
      hide ClearNew;
      var u := ClearNew(t, home);
      RehomeKeeps(h, u, home, id, gone);
      TimesKeptAcross(s, q, u, home, gone);
      hide TimesKept;
    }
  }

  lemma CountOne(h: Hasher, v: State, id: int)
    requires Base(h, v, 2, {id})
    ensures Base(h, v.(nNew := v.nNew + 1), 1, {id})
  {
  }

  /** Give up every new-table reference of `id`, and stop counting it as new. */
  function Release(h: Hasher, s: State, id: int): State
    requires id in s.infos
  {
    var t := DropNewRefs(h, s, id);
    t.(nNew := t.nNew - 1)
  }

  lemma CountRelease(h: Hasher, s: State, id: int)
    requires Base(h, s, 0, {id})
    ensures Base(h, s.(nNew := s.nNew - 1), 1, {id})
  {
    var t := s.(nNew := s.nNew - 1);
    assert CountsOk(t, 1);
    hide CountsOk;
    assert RandomOk(t);
    hide RandomOk;
    assert AddrOk(t);
    hide AddrOk;
    assert TriedOk(h, t);
    hide TriedOk;
    assert NewOk(h, t, {id});
    hide NewOk;
  }

  lemma ReleaseKeeps(h: Hasher, s: State, id: int)
    requires Consistent(h, s) && id in s.infos
    ensures var t := Release(h, s, id);
            && Base(h, t, 1, {id}) && id in t.infos && t.infos[id] == s.infos[id].(refCount := 0)
            && t.triedTable == s.triedTable && TimesKept(s, t)
  {
    DropNewRefsKeeps(h, s, id);
    CountRelease(h, DropNewRefs(h, s, id), id);
    hide Base;
    hide BucketsOf;
    hide SlotsIn;
  }

  function MakeTried(h: Hasher, s: State, id: int): (r: State)
    requires Consistent(h, s) && id in s.infos && !s.infos[id].inTried
    ensures Consistent(h, r)
  {
    var u := Release(h, s, id);
    ReleaseKeeps(h, s, id);
    var q := TriedSlot(h, s.infos[id].service);
    EvictKeeps(h, u, q, id);
    SeatKeeps(h, Evict(h, u, q, id), q, id, 1);
    Seat(Evict(h, u, q, id), q, id)
  }

  /** The entry joins the tried set, the occupant of its slot leaves it, and nobody else moves. */
  lemma MakeTriedMoves(h: Hasher, s: State, id: int)
    requires Consistent(h, s) && id in s.infos && !s.infos[id].inTried
    ensures var r, q := MakeTried(h, s, id), TriedSlot(h, s.infos[id].service);
            id in r.infos && r.infos[id].inTried && r.triedTable == s.triedTable[q := id]
  {
    hide *;
    var u, q, v := MakeTriedSteps(h, s, id);
    EvictTried(h, u, q, id);
    SeatMoves(v, q, id, s.triedTable);
  }

  lemma SeatMoves(v: State, q: Slot, id: int, was: map<Slot, int>)
    requires id in v.infos && v.triedTable == was - {q}
    ensures var r := Seat(v, q, id); id in r.infos && r.infos[id].inTried && r.triedTable == was[q := id]
  {
  }

  /** Release, evict, seat: what each step hands to the next. */
  lemma MakeTriedSteps(h: Hasher, s: State, id: int) returns (u: State, q: Slot, v: State)
    requires Consistent(h, s) && id in s.infos && !s.infos[id].inTried
    ensures q == TriedSlot(h, s.infos[id].service)
    ensures Base(h, u, 1, {id}) && id in u.infos && !u.infos[id].inTried && u.infos[id].refCount == 0
    ensures u == Release(h, s, id) && u.triedTable == s.triedTable && TimesKept(s, u) && v == Evict(h, u, q, id)
    ensures id in v.infos && TimesKept(u, v) && MakeTried(h, s, id) == Seat(v, q, id)
  {
    hide Base;
    hide Release;
    hide TriedSlot;
    hide Evict;
    hide Seat;
    hide TimesKept;
    u, q := Release(h, s, id), TriedSlot(h, s.infos[id].service);
    ReleaseKeeps(h, s, id);
    EvictKeeps(h, u, q, id);
    v := Evict(h, u, q, id);
  }

  lemma EvictTried(h: Hasher, s: State, q: Slot, id: int)
    requires Base(h, s, 1, {id}) && id in s.infos && !s.infos[id].inTried && s.infos[id].refCount == 0
    ensures var r := Evict(h, s, q, id);
            r.triedTable == s.triedTable - {q}
  {
    if q in s.triedTable {
      var gone, home := s.triedTable[q], Home(h, s, q);
      UnseatKeeps(h, s, q, 1, {id});
      assert {id} + {gone} == {id, gone};
      ClearBeside(h, Unseat(s, q), home, id, gone);
      hide Base;
      ClearNewFrame(Unseat(s, q), home);
      hide ClearNew;
    } else {
      assert s.triedTable - {q} == s.triedTable;
    }
  }

  function Good(h: Hasher, s: State, a: Service, time: int): (r: State)
    requires Consistent(h, s)
    ensures Consistent(h, r)
  {
    var s0 := s.(lastGood := time);
    if a.ip !in s0.byIp || s0.infos[s0.byIp[a.ip]].service != a then s0 else
      var id := s0.byIp[a.ip];
      var t := Praise(s0, id, time);
      TouchKeeps(h, s0, id, t.infos[id], 0, {});
      if t.infos[id].inTried || BucketsOf(h, t, id) == {} then t else MakeTried(h, t, id)
  }

  function Praise(s: State, id: int, time: int): State
    requires id in s.infos
  {
    Touch(s, id, s.infos[id].(stats := s.infos[id].stats.(lastSuccess := time, lastTry := time, attempts := 0)))
  }

  /** The branch of `Good_` marked "something bad happened" is never taken. */
  lemma GoodAlwaysFindsBucket(h: Hasher, s: State, id: int)
    requires Consistent(h, s) && id in s.infos && !s.infos[id].inTried
    ensures BucketsOf(h, s, id) != {}
  {
    ScanFindsAll(h, s, id, {});
  }

  // ----- Operations that only rewrite one entry

  function Attempt(h: Hasher, s: State, a: Service, countFailure: bool, time: int): (r: State)
    requires Consistent(h, s)
    ensures Consistent(h, r)
  {
    if a.ip !in s.byIp || s.infos[s.byIp[a.ip]].service != a then s else
      var id := s.byIp[a.ip];
      var tried := s.infos[id].stats.(lastTry := time);
      var stats := if countFailure && tried.lastCountAttempt < s.lastGood
                   then tried.(lastCountAttempt := time, attempts := tried.attempts + 1) else tried;
      var info := s.infos[id].(stats := stats);
      TouchKeeps(h, s, id, info, 0, {});
      Touch(s, id, info)
  }

  function Connected(h: Hasher, s: State, a: Service, time: int): (r: State)
    requires Consistent(h, s)
    ensures Consistent(h, r)
  {
    if a.ip !in s.byIp || s.infos[s.byIp[a.ip]].service != a then s else
      var id := s.byIp[a.ip];
      var info := if time - s.infos[id].stats.time > 20 * 60
                  then s.infos[id].(stats := s.infos[id].stats.(time := time % TIME_MODULUS)) else s.infos[id];
      TouchKeeps(h, s, id, info, 0, {});
      Touch(s, id, info)
  }

  function SetServices(h: Hasher, s: State, a: Service, services: bv64): (r: State)
    requires Consistent(h, s)
    ensures Consistent(h, r)
  {
    if a.ip !in s.byIp || s.infos[s.byIp[a.ip]].service != a then s else
      var id := s.byIp[a.ip];
      var info := s.infos[id].(stats := s.infos[id].stats.(services := services));
      TouchKeeps(h, s, id, info, 0, {});
      Touch(s, id, info)
  }

  // ----- Answering a getaddr request

  function AddressOf(info: Info): Address {
    Address(info.service, info.stats.services, info.stats.time)
  }

  function GetAddrLimit(size: nat): nat {
    var n := GETADDR_MAX_PCT * size / 100;
    if n > GETADDR_MAX then GETADDR_MAX else n
  }

  function Collect(found: seq<Address>, info: Info, terrible: Stats -> bool): seq<Address> {
    if terrible(info.stats) then found else found + [AddressOf(info)]
  }

  /** `RandomInt(size - n) + n`. */
  function Draw(dice: nat -> nat, n: nat, size: nat): (p: nat)
    requires n < size
    ensures n <= p < size
  {
    dice(n) % (size - n) + n
  }

  /** The loop of `GetAddr_` from position `n`: shuffle on, collecting the entries of good quality. */
  function Gather(s: State, terrible: Stats -> bool, dice: nat -> nat, limit: nat, n: nat, found: seq<Address>)
    : (r: (State, seq<Address>))
    requires RandomOk(s)
    ensures RandomOk(r.0)
    decreases |s.random| - n
  {
    if n >= |s.random| || |found| >= limit then (s, found) else
      var p := Draw(dice, n, |s.random|);
      SwapRandomKeepsRandom(s, n, p);
      var t := SwapRandom(s, n, p);
      Gather(t, terrible, dice, limit, n + 1, Collect(found, t.infos[t.random[n]], terrible))
  }

  function GetAddr(h: Hasher, s: State, terrible: Stats -> bool, dice: nat -> nat): (r: (State, seq<Address>))
    requires Consistent(h, s)
    ensures Consistent(h, r.0)
  {
    GatherKeeps(s, terrible, dice, GetAddrLimit(|s.random|), 0, []);
    var r := Gather(s, terrible, dice, GetAddrLimit(|s.random|), 0, []);
    PositionOnlyKeeps(h, s, r.0, 0, {});
    r
  }

  /** The loop only reorders `vRandom`. */
  lemma {:induction false} GatherKeeps(s: State, terrible: Stats -> bool, dice: nat -> nat, limit: nat, n: nat, found: seq<Address>)
    requires RandomOk(s)
    ensures PositionOnly(s, Gather(s, terrible, dice, limit, n, found).0)
    decreases |s.random| - n
  {
    if n < |s.random| && |found| < limit {
      var p := Draw(dice, n, |s.random|);
      SwapRandomKeepsRandom(s, n, p);
      var t := SwapRandom(s, n, p);
      var next := Collect(found, t.infos[t.random[n]], terrible);
      GatherKeeps(t, terrible, dice, limit, n + 1, next);
      hide SwapRandom;
      hide RandomOk;
      PositionOnlyTransitive(s, t, Gather(t, terrible, dice, limit, n + 1, next).0);
      hide PositionOnly;
    }
  }

  lemma PositionOnlyTransitive(s: State, t: State, u: State)
    requires PositionOnly(s, t) && PositionOnly(t, u)
    ensures PositionOnly(s, u)
  {
  }

  /** `found` lists, once each, exactly the acceptable entries among the first `n` of `vRandom`. */
  ghost predicate Listed(s: State, terrible: Stats -> bool, n: nat, found: seq<Address>) {
    && (forall i :: 0 <= i < |found| ==> ListedEntry(s, terrible, n, found[i]))
    && (forall i, j :: 0 <= i < j < |found| ==> found[i].service.ip != found[j].service.ip)
    && (forall id :: id in s.infos && s.infos[id].randomPos < n && !terrible(s.infos[id].stats) ==>
          AddressOf(s.infos[id]) in found)
  }

  ghost predicate ListedEntry(s: State, terrible: Stats -> bool, n: nat, a: Address) {
    && a.service.ip in s.byIp && s.byIp[a.service.ip] in s.infos
    && var info := s.infos[s.byIp[a.service.ip]];
       a == AddressOf(info) && !terrible(info.stats) && info.randomPos < n
  }

  lemma ListedAfterSwap(s: State, terrible: Stats -> bool, n: nat, p: nat, found: seq<Address>)
    requires RandomOk(s) && AddrOk(s) && n <= p < |s.random| && Listed(s, terrible, n, found)
    ensures var t := SwapRandom(s, n, p); AddrOk(t) && Listed(t, terrible, n, found)
  {
    var t := SwapRandom(s, n, p);
    SwapRandomKeepsRandom(s, n, p);
    PositionOnlyKeepsAddr(s, t);
    forall id | id in s.infos
      ensures s.infos[id].randomPos < n <==> t.infos[id].randomPos < n
      ensures s.infos[id].randomPos < n ==> t.infos[id] == s.infos[id]
    {
    }
    hide SwapRandom;
    hide RandomOk;
    forall i | 0 <= i < |found| ensures ListedEntry(t, terrible, n, found[i]) {
      assert ListedEntry(s, terrible, n, found[i]);
      var id := s.byIp[found[i].service.ip];
      assert id in s.infos;
    }
  }

  lemma ListedNext(t: State, terrible: Stats -> bool, n: nat, found: seq<Address>)
    requires RandomOk(t) && AddrOk(t) && n < |t.random| && Listed(t, terrible, n, found)
    ensures Listed(t, terrible, n + 1, Collect(found, t.infos[t.random[n]], terrible))
  {
    var id := t.random[n];
    var info := t.infos[id];
    var next := Collect(found, info, terrible);
    forall i | 0 <= i < |found|
      ensures ListedEntry(t, terrible, n + 1, found[i]) && found[i].service.ip != info.service.ip
    {
      assert ListedEntry(t, terrible, n, found[i]);
    }
    assert !terrible(info.stats) ==> ListedEntry(t, terrible, n + 1, AddressOf(info));
    forall x | x in t.infos && t.infos[x].randomPos < n + 1 && !terrible(t.infos[x].stats)
      ensures AddressOf(t.infos[x]) in next
    {
      if x == id {
        assert next[|found|] == AddressOf(info);
      } else {
        assert t.infos[x].randomPos < n;
      }
    }
  }

  lemma {:induction false} GatherLists(s: State, terrible: Stats -> bool, dice: nat -> nat, limit: nat, n: nat, found: seq<Address>)
    returns (m: nat)
    requires RandomOk(s) && AddrOk(s) && n <= |s.random| && |found| <= limit && Listed(s, terrible, n, found)
    ensures var r := Gather(s, terrible, dice, limit, n, found);
            && |r.1| <= limit && m <= |r.0.random|
            && Listed(r.0, terrible, m, r.1) && (|r.1| < limit ==> m == |r.0.random|)
    decreases |s.random| - n
  {
    hide *;
    if n < |s.random| && |found| < limit {
      var t, next := GatherNext(s, terrible, dice, limit, n, found);
      m := GatherLists(t, terrible, dice, limit, n + 1, next);
    } else {
      GatherEnds(s, terrible, dice, limit, n, found);
      m := n;
    }
  }

  lemma GatherEnds(s: State, terrible: Stats -> bool, dice: nat -> nat, limit: nat, n: nat, found: seq<Address>)
    requires RandomOk(s) && (n >= |s.random| || |found| >= limit)
    ensures Gather(s, terrible, dice, limit, n, found) == (s, found)
  {
    hide RandomOk;
  }

  lemma GatherNext(s: State, terrible: Stats -> bool, dice: nat -> nat, limit: nat, n: nat, found: seq<Address>)
    returns (t: State, next: seq<Address>)
    requires RandomOk(s) && AddrOk(s) && n < |s.random| && |found| < limit && Listed(s, terrible, n, found)
    ensures RandomOk(t) && AddrOk(t) && |t.random| == |s.random| && |next| <= limit && Listed(t, terrible, n + 1, next)
    ensures Gather(s, terrible, dice, limit, n, found) == Gather(t, terrible, dice, limit, n + 1, next)
  {
    hide *;
    var p;
    p, t, next := GatherUnfolds(s, terrible, dice, limit, n, found);
    ListedAfterSwap(s, terrible, n, p, found);
    ListedNext(t, terrible, n, found);
  }

  lemma GatherUnfolds(s: State, terrible: Stats -> bool, dice: nat -> nat, limit: nat, n: nat, found: seq<Address>)
    returns (p: nat, t: State, next: seq<Address>)
    requires RandomOk(s) && n < |s.random| && |found| < limit
    ensures n <= p < |s.random| && p == Draw(dice, n, |s.random|) && t == SwapRandom(s, n, p)
    ensures RandomOk(t) && |t.random| == |s.random| && t.random[n] in t.infos
    ensures next == Collect(found, t.infos[t.random[n]], terrible) && |next| <= limit
    ensures Gather(s, terrible, dice, limit, n, found) == Gather(t, terrible, dice, limit, n + 1, next)
  {
    p := Draw(dice, n, |s.random|);
    SwapRandomKeepsRandom(s, n, p);
    t := SwapRandom(s, n, p);
    assert |t.random| == |s.random| && t.random[n] in t.infos;
    hide SwapRandom;
    hide RandomOk;
    hide Draw;
    next := Collect(found, t.infos[t.random[n]], terrible);
  }

  /** A getaddr answer names acceptable entries of the tables, each once, and at most 23 percent
      of them or 2500; it leaves an acceptable entry out only when it is full. */
  lemma GetAddrAnswers(h: Hasher, s: State, terrible: Stats -> bool, dice: nat -> nat)
    requires Consistent(h, s)
    ensures var r, most := GetAddr(h, s, terrible, dice).1, if 23 * |s.random| / 100 <= 2500 then 23 * |s.random| / 100 else 2500;
            && |r| <= most
            && (forall i :: 0 <= i < |r| ==> ListedEntry(s, terrible, |s.random|, r[i]))
            && (forall i, j :: 0 <= i < j < |r| ==> r[i].service.ip != r[j].service.ip)
            && (|r| < most ==>
                  forall id :: id in s.infos && !terrible(s.infos[id].stats) ==> AddressOf(s.infos[id]) in r)
  {
    var limit := GetAddrLimit(|s.random|);
    assert limit == if 23 * |s.random| / 100 <= 2500 then 23 * |s.random| / 100 else 2500;
    var m := GatherLists(s, terrible, dice, limit, 0, []);
    GatherKeeps(s, terrible, dice, limit, 0, []);
    var r := Gather(s, terrible, dice, limit, 0, []);
    assert GetAddr(h, s, terrible, dice) == r;
    assert RandomOk(s) && RandomOk(r.0);
    hide *;
    ListedBack(s, r.0, terrible, m, r.1);
  }

  /** What is listed after a reordering, told of the state before it. */
  lemma ListedBack(s: State, t: State, terrible: Stats -> bool, m: nat, found: seq<Address>)
    requires PositionOnly(s, t) && RandomOk(s) && RandomOk(t) && Listed(t, terrible, m, found) && m <= |t.random|
    ensures forall i :: 0 <= i < |found| ==> ListedEntry(s, terrible, |s.random|, found[i])
    ensures forall i, j :: 0 <= i < j < |found| ==> found[i].service.ip != found[j].service.ip
    ensures m == |t.random| ==>
              forall id :: id in s.infos && !terrible(s.infos[id].stats) ==> AddressOf(s.infos[id]) in found
  {
    forall i | 0 <= i < |found| ensures ListedEntry(s, terrible, |s.random|, found[i]) {
      assert ListedEntry(t, terrible, m, found[i]);
      var id := s.byIp[found[i].service.ip];
      assert id in s.infos && t.infos[id].stats == s.infos[id].stats;
    }
    if m == |t.random| {
      forall id | id in s.infos && !terrible(s.infos[id].stats) ensures AddressOf(s.infos[id]) in found {
        assert id in t.infos;
      }
    }
  }

  // ----- Whole runs

  datatype Op =
    | OpAdd(env: Env, addr: Address, source: Ip, penalty: int)
    | OpGood(service: Service, when: int)
    | OpAttempt(service: Service, countFailure: bool, when: int)
    | OpConnected(service: Service, seen: int)
    | OpSetServices(service: Service, services: bv64)
    | OpGetAddr(terrible: Stats -> bool, dice: nat -> nat)

  function Step(h: Hasher, s: State, op: Op): (r: State)
    requires Consistent(h, s)
    ensures Consistent(h, r)
  {
    match op
    case OpAdd(env, addr, source, penalty) => Add(h, env, s, addr, source, penalty).0
    case OpGood(a, time) => Good(h, s, a, time)
    case OpAttempt(a, countFailure, time) => Attempt(h, s, a, countFailure, time)
    case OpConnected(a, time) => Connected(h, s, a, time)
    case OpSetServices(a, services) => SetServices(h, s, a, services)
    case OpGetAddr(terrible, dice) => GetAddr(h, s, terrible, dice).0
  }

  function Run(h: Hasher, s: State, ops: seq<Op>): State
    requires Consistent(h, s)
    decreases |ops|
  {
    if ops == [] then s else Run(h, Step(h, s, ops[0]), ops[1..])
  }

  lemma EmptyConsistent(h: Hasher)
    ensures Consistent(h, Empty) && TimesOk(Empty)
  {
    assert NewIds(Empty.infos) == {} && TriedIds(Empty.infos) == {};
  }

  /** Every run keeps the consistency predicate. */
  lemma {:induction false} RunKeepsConsistent(h: Hasher, s: State, ops: seq<Op>)
    requires Consistent(h, s)
    ensures Consistent(h, Run(h, s, ops))
    decreases |ops|
  {
    if ops != [] {
      hide Consistent;
      RunKeepsConsistent(h, Step(h, s, ops[0]), ops[1..]);
    }
  }

  // ----- The clauses of `Check_` about times

  /** Whether the exact service, port included, is known. */
  predicate Knows(s: State, a: Service)
    requires a.ip in s.byIp ==> s.byIp[a.ip] in s.infos
  {
    a.ip in s.byIp && s.infos[s.byIp[a.ip]].service == a
  }

  /** The three ends of the last part: nothing changes, the slot `q` is cleared and taken, or the entry is deleted. */
  lemma InsertCases(h: Hasher, terrible: Stats -> bool, s: State, id: int, source: Ip) returns (t: State, q: Slot)
    requires Base(h, s, 0, {id}) && id in s.infos
    requires !s.infos[id].inTried && s.infos[id].refCount < NEW_BUCKETS_PER_ADDRESS
    ensures var r := Insert(h, terrible, s, id, source);
            || r == s || Without(s, r, id)
            || (id in t.infos && Cleared(s, t, q) && (q in s.newTable ==> s.newTable[q] != id) && r == Place(t, q, id))
  {
    t := s;
    q := NewSlot(h, s.infos[id].service, source);
    hide NewSlot;
    if q in s.newTable && s.newTable[q] == id {
      hide Base;
    } else if MayTake(terrible, s, q, id) {
      ClearForKeeps(h, s, q, id);
      hide Base;
      ClearNewFrame(s, q);
      t := ClearNew(s, q);
      hide ClearNew;
    } else if s.infos[id].refCount == 0 {
      DeleteFrame(s, id);
      hide Base;
      hide Delete;
    }
  }

  lemma InsertTimes(h: Hasher, terrible: Stats -> bool, s: State, id: int, source: Ip)
    requires Base(h, s, 0, {id}) && id in s.infos && TimesOk(s)
    requires !s.infos[id].inTried && s.infos[id].refCount < NEW_BUCKETS_PER_ADDRESS
    ensures TimesOk(Insert(h, terrible, s, id, source))
  {
    var t, q := InsertCases(h, terrible, s, id, source);
    hide Insert;
    hide Base;
  }

  lemma TouchTimes(s: State, id: int, info: Info)
    requires TimesOk(s) && id in s.infos && info.inTried == s.infos[id].inTried
    requires info.stats.lastTry == s.infos[id].stats.lastTry && info.stats.lastSuccess == s.infos[id].stats.lastSuccess
    ensures TimesOk(Touch(s, id, info))
  {
  }

  lemma CreatedTimes(s: State, addr: Address, source: Ip, penalty: int)
    requires TimesOk(s)
    ensures TimesOk(Created(s, addr, source, penalty))
  {
  }

  lemma AddTimes(h: Hasher, env: Env, s: State, addr: Address, source: Ip, penaltyIn: int)
    requires Consistent(h, s) && TimesOk(s)
    ensures TimesOk(Add(h, env, s, addr, source, penaltyIn).0)
  {
    hide Insert;
    var penalty := if addr.service.ip == source then 0 else penaltyIn;
    if env.routable(addr.service.ip) {
      if addr.service.ip in s.byIp {
        var id := s.byIp[addr.service.ip];
        var info := s.infos[id].(stats := Refresh(s.infos[id].stats, addr, penalty, env.now));
        var t := Touch(s, id, info);
        TouchTimes(s, id, info);
        hide TimesOk;
        TouchKeeps(h, s, id, info, 0, {});
        if MayGain(info, addr, env.dice) {
          GrowZero(h, t, id);
          hide Base;
          InsertTimes(h, env.terrible, t, id, source);
        }
      } else {
        var t := Created(s, addr, source, penalty);
        CreatedTimes(s, addr, source, penalty);
        hide TimesOk;
        CreatedKeeps(h, s, addr, source, penalty);
        hide Base;
        InsertTimes(h, env.terrible, t, s.idCount, source);
      }
    }
  }

  /** `MakeTried` keeps the recorded times and makes nobody but `id` tried. */
  lemma MakeTriedTimes(h: Hasher, s: State, id: int)
    requires Consistent(h, s) && id in s.infos && !s.infos[id].inTried
    ensures var r := MakeTried(h, s, id);
            forall x :: x in r.infos ==>
              && x in s.infos && (r.infos[x].inTried ==> x == id || s.infos[x].inTried)
              && r.infos[x].stats == s.infos[x].stats
  {
    hide *;
    var u, q, v := MakeTriedSteps(h, s, id);
    SeatTimes(s, u, v, q, id);
  }

  lemma SeatTimes(s: State, u: State, v: State, q: Slot, id: int)
    requires TimesKept(s, u) && TimesKept(u, v) && id in v.infos
    ensures var r := Seat(v, q, id);
            forall x :: x in r.infos ==>
              && x in s.infos && (r.infos[x].inTried ==> x == id || s.infos[x].inTried)
              && r.infos[x].stats == s.infos[x].stats
  {
    assert forall x :: x in v.infos ==> x in u.infos;
  }

  /** A known service ends up tried with the given times, and nobody else joins the tried set. */
  lemma GoodOutcome(h: Hasher, s: State, a: Service, time: int)
    requires Consistent(h, s) && Knows(s, a)
    ensures var r, id := Good(h, s, a, time), s.byIp[a.ip];
            && id in r.infos && r.infos[id].inTried && r.infos[id].stats.lastTry == time && r.infos[id].stats.lastSuccess == time
            && (forall x :: x in r.infos && x != id ==>
                  && x in s.infos && (r.infos[x].inTried ==> s.infos[x].inTried)
                  && r.infos[x].stats == s.infos[x].stats)
  {
    var s0, id := s.(lastGood := time), s.byIp[a.ip];
    var t := Praise(s0, id, time);
    GoodCases(h, s, a, time);
    if !t.infos[id].inTried {
      hide Base;
      hide MakeTried;
      hide Good;
      MakeTriedTimes(h, t, id);
      MakeTriedMoves(h, t, id);
    }
  }

  lemma GoodCases(h: Hasher, s: State, a: Service, time: int)
    requires Consistent(h, s) && Knows(s, a)
    ensures var s0, id := s.(lastGood := time), s.byIp[a.ip];
            var t := Praise(s0, id, time);
            && Consistent(h, t)
            && Good(h, s, a, time) == if t.infos[id].inTried then t else MakeTried(h, t, id)
  {
    var s0, id := s.(lastGood := time), s.byIp[a.ip];
    var t := Praise(s0, id, time);
    TouchKeeps(h, s0, id, t.infos[id], 0, {});
    hide Base;
    hide MakeTried;
    hide BucketsOf;
    if !t.infos[id].inTried {
      GoodAlwaysFindsBucket(h, t, id);
    }
  }

  /** `Good_` keeps the clauses about times exactly when it is given a positive time, or finds nothing to do. */
  lemma GoodTimes(h: Hasher, s: State, a: Service, time: int)
    requires Consistent(h, s) && TimesOk(s)
    ensures TimesOk(Good(h, s, a, time)) <==> (Knows(s, a) ==> time > 0)
  {
    if Knows(s, a) {
      GoodOutcome(h, s, a, time);
      hide Good;
    }
  }

  lemma AttemptTimes(h: Hasher, s: State, a: Service, countFailure: bool, time: int)
    requires Consistent(h, s) && TimesOk(s)
    ensures TimesOk(Attempt(h, s, a, countFailure, time)) <==> (Knows(s, a) ==> time >= 0)
  {
    if Knows(s, a) {
      var id := s.byIp[a.ip];
      assert Attempt(h, s, a, countFailure, time).infos[id].stats.lastTry == time;
    }
  }

  predicate ClockRuns(op: Op) {
    (op.OpGood? ==> op.when > 0) && (op.OpAttempt? ==> op.when >= 0)
  }

  lemma StepTimes(h: Hasher, s: State, op: Op)
    requires Consistent(h, s) && TimesOk(s) && ClockRuns(op)
    ensures TimesOk(Step(h, s, op))
  {
    hide Consistent;
    hide TimesOk;
    hide Add;
    hide Good;
    hide Attempt;
    hide Connected;
    hide SetServices;
    hide GetAddr;
    match op
    case OpAdd(env, addr, source, penalty) => AddTimes(h, env, s, addr, source, penalty);
    case OpGood(a, time) => GoodTimes(h, s, a, time);
    case OpAttempt(a, countFailure, time) => AttemptTimes(h, s, a, countFailure, time);
    case OpConnected(a, time) => ConnectedTimes(h, s, a, time);
    case OpSetServices(a, services) => SetServicesTimes(h, s, a, services);
    case OpGetAddr(terrible, dice) => GetAddrTimes(h, s, terrible, dice);
  }

  lemma ConnectedTimes(h: Hasher, s: State, a: Service, time: int)
    requires Consistent(h, s) && TimesOk(s)
    ensures TimesOk(Connected(h, s, a, time))
  {
    if a.ip in s.byIp && s.infos[s.byIp[a.ip]].service == a {
      var id, t := s.byIp[a.ip], Connected(h, s, a, time);
      assert t == Touch(s, id, t.infos[id]);
      hide Base;
      TouchTimes(s, id, t.infos[id]);
    }
  }

  lemma SetServicesTimes(h: Hasher, s: State, a: Service, services: bv64)
    requires Consistent(h, s) && TimesOk(s)
    ensures TimesOk(SetServices(h, s, a, services))
  {
    if a.ip in s.byIp && s.infos[s.byIp[a.ip]].service == a {
      var id, t := s.byIp[a.ip], SetServices(h, s, a, services);
      assert t == Touch(s, id, t.infos[id]);
      hide Base;
      TouchTimes(s, id, t.infos[id]);
    }
  }

  lemma GetAddrTimes(h: Hasher, s: State, terrible: Stats -> bool, dice: nat -> nat)
    requires Consistent(h, s) && TimesOk(s)
    ensures TimesOk(GetAddr(h, s, terrible, dice).0)
  {
    GatherKeeps(s, terrible, dice, GetAddrLimit(|s.random|), 0, []);
    hide Base;
    hide Gather;
  }

  /** From the empty tables, every run under a running clock satisfies the whole of `Check_`. */
  lemma {:induction false} RunsPassCheck(h: Hasher, s: State, ops: seq<Op>)
    requires Consistent(h, s) && TimesOk(s) && forall op :: op in ops ==> ClockRuns(op)
    ensures Consistent(h, Run(h, s, ops)) && TimesOk(Run(h, s, ops))
    ensures |Run(h, s, ops).random| == Run(h, s, ops).nTried + Run(h, s, ops).nNew
    decreases |ops|
  {
    if ops == [] {
      RandomCounted(h, s);
    } else {
      StepTimes(h, s, ops[0]);
      hide Consistent;
      hide TimesOk;
      RunsPassCheck(h, Step(h, s, ops[0]), ops[1..]);
    }
  }

  /** `vRandom` lists every entry once, so it is as long as both counters together. */
  lemma RandomCounted(h: Hasher, s: State)
    requires Consistent(h, s)
    ensures |s.random| == s.nTried + s.nNew
  {
    RandomLists(s);
    KeysSplit(s.infos);
    hide RandomOk;
    hide AddrOk;
    hide TriedOk;
    hide NewOk;
    hide TriedIds;
    hide NewIds;
  }

  lemma RandomLists(s: State)
    requires RandomOk(s)
    ensures |s.random| == |s.infos.Keys|
  {
    DistinctSize(s.random);
    var ids := set i | 0 <= i < |s.random| :: s.random[i];
    assert forall id :: id in ids <==> id in s.infos.Keys;
    assert ids == s.infos.Keys;
  }

  lemma KeysSplit(infos: map<int, Info>)
    ensures |infos.Keys| == |TriedIds(infos)| + |NewIds(infos)|
  {
    assert forall id :: id in infos.Keys <==> id in TriedIds(infos) + NewIds(infos);
    assert infos.Keys == TriedIds(infos) + NewIds(infos);
    assert TriedIds(infos) !! NewIds(infos);
  }

  lemma {:induction false} DistinctSize(s: seq<int>)
    requires forall i, j :: 0 <= i < j < |s| ==> s[i] != s[j]
    ensures |set i | 0 <= i < |s| :: s[i]| == |s|
  {
    var ids := set i | 0 <= i < |s| :: s[i];
    if s == [] {
      assert ids == {};
    } else {
      var n := |s| - 1;
      var h := s[..n];
      DistinctSize(h);
      var rest := set i | 0 <= i < |h| :: h[i];
      assert forall x :: x in ids <==> x in rest + {s[n]};
      assert ids == rest + {s[n]};
    }
  }
}
