/** Saving the address manager to a stream and loading it again. */
module AddrManDisk {
  import opened AddrMan

  const FORMAT_VERSION: nat := 1
  const KEY_SIZE: nat := 32
  const BUCKETS_MASK: nat := 0x4000_0000

  /** What is written of an entry: the rest is memory only. */
  datatype Saved = Saved(
    service: Service, services: bv64, time: nat, source: Ip, lastSuccess: int, attempts: int)

  /** The sections of the stream, in order. */
  datatype Stream = Stream(
    version: nat, keySize: nat, key: nat, nNew: nat, nTried: nat, uBuckets: nat,
    newEntries: seq<Saved>, triedEntries: seq<Saved>, rows: seq<seq<int>>)

  datatype Failure = BadKeySize | TooManyNew | TooManyTried | EndOfStream
  datatype Loaded = Loaded(key: nat, state: State) | Failed(why: Failure)

  function Save(info: Info): Saved {
    Saved(info.service, info.stats.services, info.stats.time, info.source, info.stats.lastSuccess, info.stats.attempts)
  }

  function Load(x: Saved): Info {
    Info(x.service, x.source, Stats(x.services, x.time, 0, 0, x.lastSuccess, x.attempts), 0, false, -1)
  }

  // ----- Saving

  predicate Wanted(info: Info, tried: bool) {
    if tried then info.inTried else info.refCount != 0
  }

  /** The ids below `n` of the tried entries, or of those with a reference, in the order of `mapInfo`. */
  function IdList(s: State, tried: bool, n: nat): seq<int> {
    if n == 0 then [] else
      IdList(s, tried, n - 1) + (if n - 1 in s.infos && Wanted(s.infos[n - 1], tried) then [n - 1] else [])
  }

  function SaveAll(s: State, ids: seq<int>): (r: seq<Saved>)
    requires forall i :: 0 <= i < |ids| ==> ids[i] in s.infos
    ensures |r| == |ids| && forall i :: 0 <= i < |ids| ==> r[i] == Save(s.infos[ids[i]])
  {
    seq(|ids|, i requires 0 <= i < |ids| => Save(s.infos[ids[i]]))
  }

  /** An entry's place among the referenced ones. */
  function Rank(s: State, id: int): nat {
    if id < 0 then 0 else |IdList(s, false, id)|
  }

  /** The indexes written for the first `p` positions of bucket `b`. */
  function Row(s: State, b: nat, p: nat): seq<int> {
    if p == 0 then [] else
      Row(s, b, p - 1) +
        (if Slot(b, p - 1) in s.newTable then [Rank(s, s.newTable[Slot(b, p - 1)])] else [])
  }

  function Serialize(key: nat, s: State): Stream
    requires s.idCount >= 0 && s.nNew >= 0 && s.nTried >= 0
  {
    IdListSpec(s, true, s.idCount);
    IdListSpec(s, false, s.idCount);
    Stream(FORMAT_VERSION, KEY_SIZE, key, s.nNew, s.nTried, Toggle(NEW_BUCKET_COUNT),
           SaveAll(s, IdList(s, false, s.idCount)), SaveAll(s, IdList(s, true, s.idCount)),
           seq(NEW_BUCKET_COUNT, b requires 0 <= b => Row(s, b, BUCKET_SIZE)))
  }

  /** Exclusive or with two to the thirtieth. */
  function Toggle(n: nat): nat {
    if (n / BUCKETS_MASK) % 2 == 1 then n - BUCKETS_MASK else n + BUCKETS_MASK
  }

  ghost predicate Ascending(ids: seq<int>) {
    forall i, j :: 0 <= i < j < |ids| ==> ids[i] < ids[j]
  }

  ghost function Elements(ids: seq<int>): set<int> {
    set x | x in ids
  }

  lemma {:induction false} IdListMembers(s: State, tried: bool, n: nat)
    ensures forall x :: x in IdList(s, tried, n) <==> 0 <= x < n && x in s.infos && Wanted(s.infos[x], tried)
  {
    if n > 0 {
      IdListMembers(s, tried, n - 1);
      hide Wanted;
      var rest, all := IdList(s, tried, n - 1), IdList(s, tried, n);
      assert all == rest || all == rest + [n - 1];
    }
  }

  lemma {:induction false} IdListSpec(s: State, tried: bool, n: nat)
    ensures forall i :: 0 <= i < |IdList(s, tried, n)| ==>
              var x := IdList(s, tried, n)[i]; 0 <= x < n && x in s.infos && Wanted(s.infos[x], tried)
    ensures forall x :: 0 <= x < n && x in s.infos && Wanted(s.infos[x], tried) ==> x in IdList(s, tried, n)
    ensures Ascending(IdList(s, tried, n))
  {
    IdListMembers(s, tried, n);
    IdListAscends(s, tried, n);
    hide Wanted;
    hide IdList;
    hide Ascending;
    var ids := IdList(s, tried, n);
    assert forall i :: 0 <= i < |ids| ==> ids[i] in ids;
  }

  lemma {:induction false} IdListAscends(s: State, tried: bool, n: nat)
    ensures Ascending(IdList(s, tried, n))
  {
    if n > 0 {
      IdListAscends(s, tried, n - 1);
      IdListMembers(s, tried, n - 1);
      hide Wanted;
      var rest, all := IdList(s, tried, n - 1), IdList(s, tried, n);
      assert all == rest || all == rest + [n - 1];
      assert forall i :: 0 <= i < |rest| ==> rest[i] in rest;
      hide IdList;
    }
  }

  lemma AscendingSize(ids: seq<int>)
    requires Ascending(ids)
    ensures |Elements(ids)| == |ids|
  {
    if ids != [] {
      var last := ids[|ids| - 1];
      var rest := ids[..|ids| - 1];
      AscendingSize(rest);
      assert last !in rest;
      assert Elements(ids) == Elements(rest) + {last};
    }
  }

  lemma IdListElements(s: State, tried: bool, want: set<int>)
    requires s.idCount >= 0
    requires forall x :: x in want <==> 0 <= x < s.idCount && x in s.infos && Wanted(s.infos[x], tried)
    ensures |IdList(s, tried, s.idCount)| == |want|
  {
    var ids := IdList(s, tried, s.idCount);
    IdListSpec(s, tried, s.idCount);
    AscendingSize(ids);
    forall x ensures x in Elements(ids) <==> x in want {
      if x in ids {
        var i :| 0 <= i < |ids| && ids[i] == x;
      }
    }
    assert Elements(ids) == want;
  }

  /** The asserts on `nNew` and `nTried` while saving: the sections have exactly the promised lengths. */
  lemma ListSizes(h: Hasher, s: State)
    requires Consistent(h, s)
    ensures |IdList(s, false, s.idCount)| == s.nNew && |IdList(s, true, s.idCount)| == s.nTried
  {
    forall id | id in s.infos && s.infos[id].inTried ensures s.infos[id].refCount == 0 {
      TriedHasNoRefs(h, s, id, {});
    }
    IdListElements(s, false, NewIds(s.infos));
    IdListElements(s, true, TriedIds(s.infos));
  }

  /** An entry's index in the list is its rank. */
  lemma RankIsIndex(s: State, n: nat, id: int)
    requires 0 <= id < n && id in s.infos && s.infos[id].refCount != 0
    ensures Rank(s, id) < |IdList(s, false, n)| && IdList(s, false, n)[Rank(s, id)] == id
  {
  }

  // ----- Loading

  /** The entries are numbered from zero in the order of `vRandom`. */
  ghost predicate Numbered(t: State) {
    && (forall i :: 0 <= i < |t.random| ==> t.random[i] == i && i in t.infos && t.infos[i].randomPos == i)
    && (forall x :: x in t.infos ==> 0 <= x < |t.random|)
  }

  /** One round of the first loop: the entry `x` gets the next number. */
  function LoadNewOne(h: Hasher, place: bool, t: State, x: Saved): State {
    var k := |t.random|;
    var info := Load(x).(randomPos := k);
    var u := t.(infos := t.infos[k := info], byIp := t.byIp[info.service.ip := k], random := t.random + [k]);
    var q := NewSlot(h, info.service, info.source);
    if place && q !in u.newTable then Place(u, q, k) else u
  }

  function LoadNews(h: Hasher, place: bool, start: State, xs: seq<Saved>): (r: State)
    requires start.random == [] && Numbered(start)
    ensures |r.random| == |xs| && Numbered(r)
  {
    if xs == [] then start else LoadNewOne(h, place, LoadNews(h, place, start, xs[..|xs| - 1]), xs[|xs| - 1])
  }

  /** The loop over the entries, one round at a time. */
  lemma LoadNewsStep(h: Hasher, place: bool, start: State, xs: seq<Saved>, n: nat)
    requires start.random == [] && Numbered(start) && n < |xs|
    ensures LoadNews(h, place, start, []) == start
    ensures LoadNews(h, place, start, xs[..n + 1]) == LoadNewOne(h, place, LoadNews(h, place, start, xs[..n]), xs[n])
  {
    hide Numbered;
    hide LoadNewOne;
    assert xs[..n + 1][..n] == xs[..n];
  }

  /** One round of the second loop; an entry whose slot is taken is lost. */
  function LoadTriedOne(h: Hasher, t: State, x: Saved): State {
    var q := TriedSlot(h, x.service);
    if q in t.triedTable then t.(nTried := t.nTried - 1) else
      var k := t.idCount;
      var info := Load(x).(randomPos := |t.random|, inTried := true);
      t.(infos := t.infos[k := info], byIp := t.byIp[info.service.ip := k],
         random := t.random + [k], triedTable := t.triedTable[q := k], idCount := k + 1)
  }

  function LoadTrieds(h: Hasher, start: State, xs: seq<Saved>): (r: State)
    requires start.idCount == |start.random| && Numbered(start)
    ensures r.idCount == |r.random| && Numbered(r)
  {
    if xs == [] then start else LoadTriedOne(h, LoadTrieds(h, start, xs[..|xs| - 1]), xs[|xs| - 1])
  }

  /** One index of the bucket section. */
  function LoadIndex(h: Hasher, usable: bool, t: State, b: nat, k: int): State {
    if 0 <= k < t.nNew && k in t.infos then
      var q := NewSlotIn(h, b, t.infos[k].service);
      if usable && q !in t.newTable && t.infos[k].refCount < NEW_BUCKETS_PER_ADDRESS then Place(t, q, k) else t
    else t
  }

  function LoadRow(h: Hasher, usable: bool, t: State, b: nat, row: seq<int>): (r: State)
    requires Numbered(t)
    ensures Numbered(r) && r.random == t.random && r.idCount == t.idCount
  {
    if row == [] then t else
      LoadIndex(h, usable, LoadRow(h, usable, t, b, row[..|row| - 1]), b, row[|row| - 1])
  }

  function LoadRows(h: Hasher, usable: bool, t: State, rows: seq<seq<int>>): (r: State)
    requires Numbered(t)
    ensures Numbered(r) && r.random == t.random && r.idCount == t.idCount
  {
    if rows == [] then t else
      var n := |rows| - 1;
      LoadRow(h, usable, LoadRows(h, usable, t, rows[..n]), n, rows[n])
  }

  /** Delete the entries below `n` that got no reference. */
  function Prune(t: State, n: nat): (r: State)
    requires RandomOk(t)
    ensures RandomOk(r)
  {
    if n == 0 then t else
      var u := Prune(t, n - 1);
      if n - 1 in u.infos && !u.infos[n - 1].inTried && u.infos[n - 1].refCount == 0 then
        DeleteKeepsRandom(u, n - 1);
        Delete(u, n - 1)
      else u
  }

  lemma DeleteKeepsRandom(s: State, id: int)
    requires RandomOk(s) && id in s.infos && !s.infos[id].inTried && s.infos[id].refCount == 0
    ensures RandomOk(Delete(s, id))
  {
    DeletePops(s, id);
    var i := s.infos[id].randomPos;
    hide *;
    PopKeepsRandom(SwapRandom(s, i, |s.random| - 1));
  }

  function Unserialize(hashers: nat -> Hasher, d: Stream): Loaded {
    if d.keySize != KEY_SIZE then Failed(BadKeySize) else
      var h := hashers(d.key);
      var buckets := if d.version != 0 then Toggle(d.uBuckets) else d.uBuckets;
      if d.nNew > NEW_BUCKET_COUNT * BUCKET_SIZE then Failed(TooManyNew)
      else if d.nTried > TRIED_BUCKET_COUNT * BUCKET_SIZE then Failed(TooManyTried)
      else if |d.newEntries| < d.nNew || |d.triedEntries| < d.nTried || |d.rows| < buckets then Failed(EndOfStream)
      else
        var usable := d.version == FORMAT_VERSION && buckets == NEW_BUCKET_COUNT;
        var t := LoadNews(h, !usable, Empty.(nNew := d.nNew, nTried := d.nTried), d.newEntries[..d.nNew]);
        var u := LoadTrieds(h, t.(idCount := d.nNew), d.triedEntries[..d.nTried]);
        var v := LoadRows(h, usable, u, d.rows[..buckets]);
        Loaded(d.key, Prune(v, v.idCount))
  }

  // ----- Loading what was saved

  /** The addresses of the first `n` entries are indexed, and nothing else is. */
  ghost predicate Indexed(t: State) {
    && (forall ip :: ip in t.byIp ==> t.byIp[ip] in t.infos && t.infos[t.byIp[ip]].service.ip == ip)
    && (forall k :: k in t.infos ==> t.infos[k].service.ip in t.byIp)
  }

  /** After the first loop, when the bucket section can be used. */
  lemma {:induction false} LoadNewsSpec(h: Hasher, start: State, xs: seq<Saved>)
    requires start.random == [] && start.infos == map[] && start.byIp == map[]
    ensures var t := LoadNews(h, false, start, xs);
            && Indexed(t)
            && (forall k :: 0 <= k < |xs| ==> t.infos[k] == Load(xs[k]).(randomPos := k))
            && t.newTable == start.newTable && t.triedTable == start.triedTable
            && t.nNew == start.nNew && t.nTried == start.nTried
  {
    if xs != [] {
      LoadNewsSpec(h, start, xs[..|xs| - 1]);
      hide Load;
    }
  }

  /** Entry number `k` was loaded from `x`, as a tried one if `k >= n`. */
  ghost predicate FromSaved(h: Hasher, t: State, n: int, x: Saved, k: int) {
    && k in t.infos && t.infos[k] == Load(x).(randomPos := k, inTried := k >= n)
    && (k >= n ==> TriedSlot(h, x.service) in t.triedTable && t.triedTable[TriedSlot(h, x.service)] == k)
  }

  /** The entries of `t` are those of `all`, none lost, the tried ones from number `n` on. */
  ghost predicate AllLoaded(h: Hasher, t: State, n: int, all: seq<Saved>) {
    && |all| == t.idCount
    && (forall k :: 0 <= k < |all| ==> FromSaved(h, t, n, all[k], k))
    && SlotsLoaded(h, t, n, all)
  }

  ghost predicate SlotsLoaded(h: Hasher, t: State, n: int, all: seq<Saved>) {
    forall q :: q in t.triedTable ==>
      var k := t.triedTable[q]; 0 <= k < |all| && n <= k && q == TriedSlot(h, all[k].service)
  }

  lemma LoadTriedSlots(h: Hasher, t: State, n: int, all: seq<Saved>, x: Saved)
    requires SlotsLoaded(h, t, n, all) && t.idCount == |all| && n <= |all|
    requires forall k :: 0 <= k < |all| && n <= k ==> TriedSlot(h, all[k].service) != TriedSlot(h, x.service)
    ensures TriedSlot(h, x.service) !in t.triedTable
    ensures SlotsLoaded(h, LoadTriedOne(h, t, x), n, all + [x])
  {
    hide TriedSlot;
    var u, q := LoadTriedOne(h, t, x), TriedSlot(h, x.service);
    forall p | p in u.triedTable
      ensures var k := u.triedTable[p]; 0 <= k < |all| + 1 && n <= k && p == TriedSlot(h, (all + [x])[k].service)
    {
      if p != q {
        assert p in t.triedTable;
      }
    }
  }

  lemma LoadTriedStep(h: Hasher, t: State, n: int, all: seq<Saved>, x: Saved)
    requires AllLoaded(h, t, n, all) && t.idCount == |t.random| && n <= |all|
    requires forall k :: 0 <= k < |all| && n <= k ==> TriedSlot(h, all[k].service) != TriedSlot(h, x.service)
    ensures AllLoaded(h, LoadTriedOne(h, t, x), n, all + [x])
  {
    LoadTriedSlots(h, t, n, all, x);
    hide Load;
    hide TriedSlot;
    hide SlotsLoaded;
    var u := LoadTriedOne(h, t, x);
    forall k | 0 <= k < |all| + 1 ensures FromSaved(h, u, n, (all + [x])[k], k) {
      if k < |all| {
        assert FromSaved(h, t, n, all[k], k);
      }
    }
  }

  lemma LoadTriedIndexes(h: Hasher, t: State, x: Saved)
    requires t.idCount == |t.random| && Numbered(t) && Indexed(t)
    ensures Indexed(LoadTriedOne(h, t, x))
  {
    hide TriedSlot;
  }

  ghost predicate DistinctSlots(h: Hasher, xs: seq<Saved>) {
    forall i, j :: 0 <= i < j < |xs| ==> TriedSlot(h, xs[i].service) != TriedSlot(h, xs[j].service)
  }

  /** After the second loop, when no two entries share a slot. */
  lemma {:induction false} LoadTriedsSpec(h: Hasher, start: State, base: seq<Saved>, xs: seq<Saved>)
    requires start.idCount == |start.random| && Numbered(start) && Indexed(start)
    requires AllLoaded(h, start, |base|, base) && DistinctSlots(h, xs)
    ensures var t := LoadTrieds(h, start, xs);
            && Indexed(t) && AllLoaded(h, t, |base|, base + xs)
            && t.newTable == start.newTable && t.nNew == start.nNew && t.nTried == start.nTried
  {
    if xs == [] {
      assert base + xs == base;
    } else {
      var n := |xs| - 1;
      var t := LoadTrieds(h, start, xs[..n]);
      assert LoadTrieds(h, start, xs) == LoadTriedOne(h, t, xs[n]);
      hide LoadTrieds;
      DistinctBefore(h, base, xs);
      LoadTriedsSpec(h, start, base, xs[..n]);
      hide *;
      LoadTriedNext(h, t, base, xs);
    }
  }

  lemma DistinctBefore(h: Hasher, base: seq<Saved>, xs: seq<Saved>)
    requires xs != [] && DistinctSlots(h, xs)
    ensures DistinctSlots(h, xs[..|xs| - 1])
    ensures var n, all := |xs| - 1, base + xs[..|xs| - 1];
            forall k :: 0 <= k < |all| && |base| <= k ==> TriedSlot(h, all[k].service) != TriedSlot(h, xs[n].service)
  {
    hide TriedSlot;
    var n, all := |xs| - 1, base + xs[..|xs| - 1];
    forall k | 0 <= k < |all| && |base| <= k
      ensures TriedSlot(h, all[k].service) != TriedSlot(h, xs[n].service)
    {
      assert all[k] == xs[k - |base|];
    }
  }

  lemma LoadTriedNext(h: Hasher, t: State, base: seq<Saved>, xs: seq<Saved>)
    requires xs != [] && DistinctSlots(h, xs) && t.idCount == |t.random| && Numbered(t) && Indexed(t)
    requires AllLoaded(h, t, |base|, base + xs[..|xs| - 1])
    ensures var u := LoadTriedOne(h, t, xs[|xs| - 1]);
            && Indexed(u) && AllLoaded(h, u, |base|, base + xs)
            && u.newTable == t.newTable && u.nNew == t.nNew && u.nTried == t.nTried
  {
    hide *;
    var n, all := |xs| - 1, base + xs[..|xs| - 1];
    DistinctBefore(h, base, xs);
    LoadedSlots(h, t, |base|, all);
    LoadTriedStep(h, t, |base|, all, xs[n]);
    LoadTriedIndexes(h, t, xs[n]);
    LoadTriedSlots(h, t, |base|, all, xs[n]);
    LoadTriedFrame(h, t, xs[n]);
    assert all + [xs[n]] == base + xs;
  }

  lemma LoadTriedFrame(h: Hasher, t: State, x: Saved)
    requires TriedSlot(h, x.service) !in t.triedTable
    ensures var u := LoadTriedOne(h, t, x); u.newTable == t.newTable && u.nNew == t.nNew && u.nTried == t.nTried
  {
    hide TriedSlot;
  }

  lemma LoadedSlots(h: Hasher, t: State, n: int, all: seq<Saved>)
    requires AllLoaded(h, t, n, all)
    ensures SlotsLoaded(h, t, n, all) && t.idCount == |all|
  {
    hide SlotsLoaded;
    hide FromSaved;
  }

  /** Slots in the order in which they are written. */
  ghost predicate Before(q: Slot, b: nat, p: nat) {
    q.bucket < b || (q.bucket == b && q.pos < p)
  }

  /** `t` holds the references of `s` before slot (`b`, `p`), with entry `k` standing for `ids[k]`. */
  ghost predicate TableLoaded(s: State, ids: seq<int>, t: State, b: nat, p: nat) {
    && (forall q :: q in t.newTable <==> q in s.newTable && Before(q, b, p))
    && (forall q :: q in t.newTable ==> 0 <= t.newTable[q] < |ids| && ids[t.newTable[q]] == s.newTable[q])
  }

  /** `t` is `t0` with references, and counts them. */
  ghost predicate Counted(t0: State, t: State) {
    && t.idCount == t0.idCount && t.byIp == t0.byIp && t.random == t0.random
    && t.nTried == t0.nTried && t.triedTable == t0.triedTable && t.nNew == t0.nNew
    && (forall k :: k in t.infos <==> k in t0.infos)
    && (forall k :: k in t.infos ==> t.infos[k] == t0.infos[k].(refCount := |SlotsOf(t.newTable, k)|))
  }

  /** The numbers of `t0` below `|ids|` stand for the referenced entries `ids` of `s`. */
  ghost predicate Stands(s: State, ids: seq<int>, t0: State) {
    && s.idCount >= 0 && ids == IdList(s, false, s.idCount) && t0.nNew == |ids|
    && Ascending(ids)
    && forall k :: 0 <= k < |ids| ==>
         ids[k] in s.infos && k in t0.infos && t0.infos[k].service == s.infos[ids[k]].service
  }

  lemma CountsStayLow(s: State, ids: seq<int>, t: State, b: nat, p: nat, k: int)
    requires TableLoaded(s, ids, t, b, p) && Slot(b, p) in s.newTable
    requires 0 <= k < |ids| && ids[k] == s.newTable[Slot(b, p)]
    ensures |SlotsOf(t.newTable, k)| < |SlotsOf(s.newTable, ids[k])|
  {
    var some, all := SlotsOf(t.newTable, k), SlotsOf(s.newTable, ids[k]);
    assert Slot(b, p) in all && Slot(b, p) !in some;
    assert some < all;
    SubsetSize(some, all);
  }

  lemma SubsetSize(a: set<Slot>, b: set<Slot>)
    requires a < b
    ensures |a| < |b|
  {
    assert b == a + (b - a);
    assert |b| == |a| + |b - a|;
    assert b - a != {};
  }

  lemma LoadIndexStep(h: Hasher, s: State, ids: seq<int>, t0: State, t: State, b: nat, p: nat)
    requires Consistent(h, s) && Stands(s, ids, t0) && Counted(t0, t)
    requires TableLoaded(s, ids, t, b, p) && Slot(b, p) in s.newTable
    ensures var k, q := Rank(s, s.newTable[Slot(b, p)]), Slot(b, p);
            && 0 <= k < |ids| && ids[k] == s.newTable[q] && k in t.infos && q !in t.newTable
            && LoadIndex(h, true, t, b, k) == Place(t, q, k)
  {
    var q := Slot(b, p);
    var id := s.newTable[q];
    var k := Rank(s, id);
    assert q in SlotsOf(s.newTable, id);
    assert id in s.infos && s.infos[id].refCount > 0;
    RankIsIndex(s, s.idCount, id);
    assert q == NewSlotIn(h, b, s.infos[id].service);
    CountsStayLow(s, ids, t, b, p, k);
  }

  lemma PlaceLoads(s: State, ids: seq<int>, t0: State, t: State, b: nat, p: nat, k: int)
    requires Counted(t0, t) && TableLoaded(s, ids, t, b, p) && Slot(b, p) in s.newTable && Slot(b, p) !in t.newTable
    requires 0 <= k < |ids| && ids[k] == s.newTable[Slot(b, p)] && k in t.infos
    ensures Counted(t0, Place(t, Slot(b, p), k)) && TableLoaded(s, ids, Place(t, Slot(b, p), k), b, p + 1)
  {
    forall x | x in t.infos
      ensures |SlotsOf(t.newTable[Slot(b, p) := k], x)| == |SlotsOf(t.newTable, x)| + (if x == k then 1 else 0)
    {
      SlotsAfterAdd(t.newTable, Slot(b, p), k, x);
    }
  }

  lemma {:induction false} LoadRowSpec(h: Hasher, s: State, ids: seq<int>, t0: State, t: State, b: nat, p: nat)
    requires Consistent(h, s) && Stands(s, ids, t0) && Numbered(t)
    requires Counted(t0, t) && TableLoaded(s, ids, t, b, 0)
    ensures var r := LoadRow(h, true, t, b, Row(s, b, p)); Counted(t0, r) && TableLoaded(s, ids, r, b, p)
  {
    hide Consistent;
    hide Stands;
    hide Numbered;
    hide Counted;
    hide TableLoaded;
    if p > 0 {
      LoadRowSpec(h, s, ids, t0, t, b, p - 1);
      var u, row := LoadRow(h, true, t, b, Row(s, b, p - 1)), Row(s, b, p);
      if Slot(b, p - 1) in s.newTable {
        var k := Rank(s, s.newTable[Slot(b, p - 1)]);
        LoadIndexStep(h, s, ids, t0, u, b, p - 1);
        PlaceLoads(s, ids, t0, u, b, p - 1, k);
        assert row[..|row| - 1] == Row(s, b, p - 1) && row[|row| - 1] == k;
      } else {
        SkipSlot(s, ids, u, b, p - 1);
        assert row == Row(s, b, p - 1);
      }
    }
  }

  lemma SkipSlot(s: State, ids: seq<int>, t: State, b: nat, p: nat)
    requires TableLoaded(s, ids, t, b, p) && Slot(b, p) !in s.newTable
    ensures TableLoaded(s, ids, t, b, p + 1)
  {
    forall q | q in s.newTable ensures Before(q, b, p) <==> Before(q, b, p + 1) {
      assert q == Slot(q.bucket, q.pos);
    }
  }

  lemma PositionsFit(h: Hasher, s: State)
    requires Consistent(h, s)
    ensures forall q :: q in s.newTable ==> q.pos < BUCKET_SIZE
  {
  }

  lemma NextBucket(s: State, ids: seq<int>, t: State, n: nat)
    requires TableLoaded(s, ids, t, n, BUCKET_SIZE) && forall q :: q in s.newTable ==> q.pos < BUCKET_SIZE
    ensures TableLoaded(s, ids, t, n + 1, 0)
  {
    assert forall q :: q in s.newTable ==> (Before(q, n, BUCKET_SIZE) <==> Before(q, n + 1, 0));
    hide Before;
  }

  lemma NothingLoaded(s: State, ids: seq<int>, t0: State)
    requires t0.newTable == map[] && forall k :: k in t0.infos ==> t0.infos[k].refCount == 0
    ensures Counted(t0, t0) && TableLoaded(s, ids, t0, 0, 0)
  {
    forall k ensures |SlotsOf(t0.newTable, k)| == 0 {
      assert SlotsOf(t0.newTable, k) == {};
    }
  }

  lemma {:induction false} LoadRowsSpec(h: Hasher, s: State, ids: seq<int>, t0: State, rows: seq<seq<int>>)
    requires Consistent(h, s) && Stands(s, ids, t0) && Numbered(t0) && t0.newTable == map[]
    requires forall k :: k in t0.infos ==> t0.infos[k].refCount == 0
    requires forall b :: 0 <= b < |rows| ==> rows[b] == Row(s, b, BUCKET_SIZE)
    ensures var r := LoadRows(h, true, t0, rows); Counted(t0, r) && TableLoaded(s, ids, r, |rows|, 0)
  {
    hide Consistent;
    if rows == [] {
      NothingLoaded(s, ids, t0);
      hide Counted;
    } else {
      var n := |rows| - 1;
      PositionsFit(h, s);
      hide Stands;
      hide Counted;
      hide Numbered;
      LoadRowsSpec(h, s, ids, t0, rows[..n]);
      var t := LoadRows(h, true, t0, rows[..n]);
      LoadRowSpec(h, s, ids, t0, t, n, BUCKET_SIZE);
      NextBucket(s, ids, LoadRow(h, true, t, n, rows[n]), n);
      hide TableLoaded;
    }
  }

  // ----- The round trip

  /** The new number `k` stands for the old id `Order(s)[k]`. */
  ghost function Order(s: State): seq<int>
    requires s.idCount >= 0
  {
    IdList(s, false, s.idCount) + IdList(s, true, s.idCount)
  }

  /** `order` lists the ids of `s`, each once. */
  ghost predicate Enumerates(order: seq<int>, s: State) {
    && (forall k :: 0 <= k < |order| ==> order[k] in s.infos)
    && (forall j, k :: 0 <= j < k < |order| ==> order[j] != order[k])
    && (forall id :: id in s.infos ==> id in order)
  }

  /** The loaded entry tells the same of its address as the one that was saved; the tries of the last run are forgotten. */
  predicate SameEntry(was: Info, now: Info) {
    && now.service == was.service && now.source == was.source
    && now.stats.services == was.stats.services && now.stats.time == was.stats.time
    && now.stats.lastSuccess == was.stats.lastSuccess && now.stats.attempts == was.stats.attempts
    && now.stats.lastTry == 0 && now.stats.lastCountAttempt == 0
  }

  /** `t` has the entries and tables of `s`, with `k` in place of `order[k]`. */
  ghost predicate Isomorphic(s: State, t: State, order: seq<int>) {
    && Enumerates(order, s)
    && (forall k :: k in t.infos <==> 0 <= k < |order|)
    && (forall k :: 0 <= k < |order| ==>
          && SameEntry(s.infos[order[k]], t.infos[k])
          && t.infos[k].refCount == s.infos[order[k]].refCount
          && t.infos[k].inTried == s.infos[order[k]].inTried)
    && SameTable(s.newTable, t.newTable, order) && SameTable(s.triedTable, t.triedTable, order)
    && t.nNew == s.nNew && t.nTried == s.nTried
  }

  ghost predicate SameTable(a: map<Slot, int>, b: map<Slot, int>, order: seq<int>) {
    && (forall q :: q in b <==> q in a)
    && (forall q :: q in b ==> 0 <= b[q] < |order| && order[b[q]] == a[q])
  }

  lemma OrderSplits(h: Hasher, s: State)
    requires Consistent(h, s)
    ensures |Order(s)| == s.nNew + s.nTried && s.nNew >= 0
    ensures forall k :: 0 <= k < |Order(s)| ==>
              var id := Order(s)[k]; id in s.infos && (s.infos[id].inTried <==> k >= s.nNew)
  {
    ListSizes(h, s);
    IdListSpec(s, false, s.idCount);
    IdListSpec(s, true, s.idCount);
    forall id | id in s.infos && s.infos[id].inTried ensures s.infos[id].refCount == 0 {
      TriedHasNoRefs(h, s, id, {});
    }
    hide Consistent;
  }

  lemma OrderCovers(h: Hasher, s: State, id: int)
    requires Consistent(h, s) && id in s.infos
    ensures id in Order(s)
  {
    IdListSpec(s, s.infos[id].inTried, s.idCount);
    assert id in IdList(s, s.infos[id].inTried, s.idCount);
  }

  lemma OrderDistinct(h: Hasher, s: State, j: int, k: int)
    requires Consistent(h, s) && 0 <= j < k < |Order(s)|
    ensures Order(s)[j] != Order(s)[k]
  {
    OrderSplits(h, s);
    ListSizes(h, s);
    IdListSpec(s, false, s.idCount);
    IdListSpec(s, true, s.idCount);
    hide Consistent;
  }

  lemma OrderEnumerates(h: Hasher, s: State)
    requires Consistent(h, s)
    ensures Enumerates(Order(s), s)
  {
    OrderSplits(h, s);
    forall id | id in s.infos ensures id in Order(s) {
      OrderCovers(h, s, id);
    }
    forall j, k | 0 <= j < k < |Order(s)| ensures Order(s)[j] != Order(s)[k] {
      OrderDistinct(h, s, j, k);
    }
    hide Consistent;
    hide Order;
  }

  lemma RangeSize(ids: set<int>, lo: int, hi: int)
    requires lo <= hi && forall x :: x in ids <==> lo <= x < hi
    ensures |ids| == hi - lo
    decreases hi - lo
  {
    if lo == hi {
      assert forall x :: x !in ids;
      assert ids == {};
    } else {
      RangeSize(ids - {hi - 1}, lo, hi - 1);
    }
  }

  ghost function ValuesOf(t: map<Slot, int>): set<int> {
    set q | q in t :: t[q]
  }

  lemma ValuesFew(t: map<Slot, int>)
    ensures |ValuesOf(t)| <= |t.Keys|
    decreases |t.Keys|
  {
    if t.Keys != {} {
      var p :| p in t.Keys;
      var rest := t - {p};
      assert rest.Keys == t.Keys - {p};
      ValuesFew(rest);
      forall v | v in ValuesOf(t) ensures v in ValuesOf(rest) + {t[p]} {
        var q :| q in t && t[q] == v;
        assert q != p ==> q in rest;
      }
      SetSize(ValuesOf(t), ValuesOf(rest) + {t[p]});
    }
  }

  ghost function Column(b: nat, size: nat): set<Slot> {
    set p: nat | p < size :: Slot(b, p)
  }

  ghost function Grid(buckets: nat): set<Slot> {
    if buckets == 0 then {} else Grid(buckets - 1) + Column(buckets - 1, BUCKET_SIZE)
  }

  lemma ColumnSize(b: nat, size: nat)
    ensures |Column(b, size)| == size
  {
    if size > 0 {
      ColumnSize(b, size - 1);
      assert Column(b, size) == Column(b, size - 1) + {Slot(b, size - 1)};
    } else {
      assert Column(b, 0) == {};
    }
  }

  lemma {:induction false} GridMembers(buckets: nat)
    ensures forall q :: q in Grid(buckets) <==> q.bucket < buckets && q.pos < BUCKET_SIZE
  {
    if buckets > 0 {
      GridMembers(buckets - 1);
      forall q ensures q in Column(buckets - 1, BUCKET_SIZE) <==> q.bucket == buckets - 1 && q.pos < BUCKET_SIZE {
        assert q == Slot(q.bucket, q.pos);
      }
    }
  }

  lemma {:induction false} GridSize(buckets: nat)
    ensures |Grid(buckets)| == buckets * BUCKET_SIZE
  {
    if buckets > 0 {
      GridSize(buckets - 1);
      ColumnSize(buckets - 1, BUCKET_SIZE);
      ColumnApart(buckets - 1);
      assert Grid(buckets) == Grid(buckets - 1) + Column(buckets - 1, BUCKET_SIZE);
      hide *;
      DisjointSize(Grid(buckets - 1), Column(buckets - 1, BUCKET_SIZE));
    }
  }

  lemma ColumnApart(b: nat)
    ensures forall q :: q in Grid(b) ==> q !in Column(b, BUCKET_SIZE)
  {
    GridMembers(b);
    hide Grid;
  }

  lemma DisjointSize(a: set<Slot>, b: set<Slot>)
    requires forall q :: q in a ==> q !in b
    ensures |a + b| == |a| + |b|
  {
    assert a !! b;
  }

  /** A table with `buckets` buckets has room for no more entries than the loader admits. */
  lemma TableBound(t: map<Slot, int>, ids: set<int>, buckets: nat)
    requires forall q :: q in t ==> q.bucket < buckets && q.pos < BUCKET_SIZE
    requires forall id :: id in ids ==> exists q :: q in t && t[q] == id
    ensures |ids| <= buckets * BUCKET_SIZE
  {
    ValuesFew(t);
    GridMembers(buckets);
    GridSize(buckets);
    assert forall id :: id in ids ==> id in ValuesOf(t);
    SetSize(ids, ValuesOf(t));
    assert forall q :: q in t.Keys ==> q in Grid(buckets);
    SetSize(t.Keys, Grid(buckets));
  }

  lemma SetSize<T>(a: set<T>, b: set<T>)
    requires a <= b
    ensures |a| <= |b|
  {
    assert b == a + (b - a);
  }

  lemma SavedCountsAdmitted(h: Hasher, s: State)
    requires Consistent(h, s)
    ensures 0 <= s.nNew <= NEW_BUCKET_COUNT * BUCKET_SIZE && 0 <= s.nTried <= TRIED_BUCKET_COUNT * BUCKET_SIZE
  {
    forall id | id in NewIds(s.infos) ensures exists q :: q in s.newTable && s.newTable[q] == id {
      assert SlotsOf(s.newTable, id) != {};
      var q :| q in SlotsOf(s.newTable, id);
    }
    TableBound(s.newTable, NewIds(s.infos), NEW_BUCKET_COUNT);
    TableBound(s.triedTable, TriedIds(s.infos), TRIED_BUCKET_COUNT);
  }

  /** With every entry referenced or tried there is nothing to prune. */
  lemma {:induction false} PruneNothing(t: State, n: nat)
    requires RandomOk(t) && forall k :: k in t.infos ==> t.infos[k].inTried || t.infos[k].refCount > 0
    ensures Prune(t, n) == t
  {
    if n > 0 {
      PruneNothing(t, n - 1);
    }
  }

  /** The two entry sections together, in the order of the new numbers. */
  ghost function SavedAll(s: State): (all: seq<Saved>)
    requires s.idCount >= 0
    ensures |all| == |Order(s)|
    ensures forall k :: 0 <= k < |all| ==> Order(s)[k] in s.infos && all[k] == Save(s.infos[Order(s)[k]])
  {
    IdListSpec(s, false, s.idCount);
    IdListSpec(s, true, s.idCount);
    SaveAll(s, IdList(s, false, s.idCount)) + SaveAll(s, IdList(s, true, s.idCount))
  }

  /** The state after the two entry loops. */
  ghost predicate EntriesBack(h: Hasher, s: State, t: State) {
    && s.idCount >= 0 && t.idCount == |t.random| && Numbered(t) && Indexed(t) && AllLoaded(h, t, s.nNew, SavedAll(s))
    && t.newTable == map[] && t.nNew == s.nNew && t.nTried == s.nTried
  }

  lemma TriedSlotsDistinct(h: Hasher, s: State)
    requires Consistent(h, s)
    ensures forall i :: 0 <= i < |IdList(s, true, s.idCount)| ==> IdList(s, true, s.idCount)[i] in s.infos
    ensures DistinctSlots(h, SaveAll(s, IdList(s, true, s.idCount)))
  {
    IdListSpec(s, true, s.idCount);
    var tried := IdList(s, true, s.idCount);
    var xs := SaveAll(s, tried);
    hide IdList;
    hide TriedSlot;
    forall i, j | 0 <= i < j < |xs| ensures TriedSlot(h, xs[i].service) != TriedSlot(h, xs[j].service) {
      assert s.triedTable[TriedSlot(h, s.infos[tried[i]].service)] == tried[i];
      assert s.triedTable[TriedSlot(h, s.infos[tried[j]].service)] == tried[j];
    }
  }

  /** The state after the first loop. */
  lemma LoadNewsBack(h: Hasher, start: State, xs: seq<Saved>)
    requires start.random == [] && start.infos == map[] && start.byIp == map[]
    requires start.newTable == map[] && start.triedTable == map[]
    ensures var t := LoadNews(h, false, start, xs).(idCount := |xs|);
            && t.idCount == |t.random| && Numbered(t) && Indexed(t) && AllLoaded(h, t, |xs|, xs)
            && t.newTable == map[] && t.nNew == start.nNew && t.nTried == start.nTried
  {
    LoadNewsSpec(h, start, xs);
    hide LoadNews;
    hide Load;
    hide TriedSlot;
  }

  lemma LoadEntries(h: Hasher, s: State, xs: seq<Saved>, ys: seq<Saved>)
    requires Consistent(h, s) && s.nNew >= 0 && |xs| == s.nNew && DistinctSlots(h, ys) && xs + ys == SavedAll(s)
    ensures var t := LoadNews(h, false, Empty.(nNew := s.nNew, nTried := s.nTried), xs);
            EntriesBack(h, s, LoadTrieds(h, t.(idCount := s.nNew), ys))
  {
    hide DistinctSlots;
    hide SavedAll;
    hide Numbered;
    hide Indexed;
    hide AllLoaded;
    assert s.idCount >= 0;
    hide Consistent;
    var start := Empty.(nNew := s.nNew, nTried := s.nTried);
    assert Numbered(start) by { EmptyNumbered(start); }
    LoadNewsBack(h, start, xs);
    var t := LoadNews(h, false, start, xs).(idCount := s.nNew);
    LoadTriedsSpec(h, t, xs, ys);
  }

  lemma EmptyNumbered(t: State)
    requires t.random == [] && t.infos == map[]
    ensures Numbered(t)
  {
  }

  // The state `t` after the bucket section, described by where it came from.

  ghost predicate TablesBack(h: Hasher, s: State, t0: State, t: State) {
    && s.idCount >= 0 && EntriesBack(h, s, t0) && Counted(t0, t) && Numbered(t)
    && |Order(s)| == s.nNew + s.nTried && Enumerates(Order(s), s) && s.nNew == |IdList(s, false, s.idCount)|
    && TableLoaded(s, IdList(s, false, s.idCount), t, NEW_BUCKET_COUNT, 0)
  }

  lemma EntryBack(h: Hasher, s: State, t0: State, t: State, k: int)
    requires Consistent(h, s) && TablesBack(h, s, t0, t) && 0 <= k < |Order(s)|
    ensures k in t.infos && Order(s)[k] in s.infos
    ensures SameEntry(s.infos[Order(s)[k]], t.infos[k])
    ensures t.infos[k].inTried == s.infos[Order(s)[k]].inTried == (k >= s.nNew)
    ensures t.infos[k].refCount == |SlotsOf(t.newTable, k)|
  {
    OrderSplits(h, s);
    assert FromSaved(h, t0, s.nNew, SavedAll(s)[k], k);
    hide Consistent;
    hide Order;
    hide SlotsOf;
    hide TableLoaded;
    hide Numbered;
    hide Indexed;
  }

  lemma AllBefore(h: Hasher, s: State)
    requires Consistent(h, s)
    ensures forall q :: q in s.newTable ==> Before(q, NEW_BUCKET_COUNT, 0)
  {
  }

  lemma NewTableBack(h: Hasher, s: State, t0: State, t: State)
    requires Consistent(h, s) && TablesBack(h, s, t0, t)
    ensures SameTable(s.newTable, t.newTable, Order(s))
    ensures forall q :: q in t.newTable ==> t.newTable[q] < s.nNew
  {
    hide Consistent;
    hide EntriesBack;
    hide Counted;
    hide Numbered;
    hide Enumerates;
    AllBefore(h, s);
    var refs, order := IdList(s, false, s.idCount), Order(s);
    assert |refs| <= |order| && forall k :: 0 <= k < |refs| ==> order[k] == refs[k];
    hide IdList;
    hide Order;
    forall q | q in t.newTable
      ensures q in s.newTable && 0 <= t.newTable[q] < |order| && order[t.newTable[q]] == s.newTable[q]
    {
      var k := t.newTable[q];
      assert refs[k] == s.newTable[q];
    }
  }

  lemma SlotsBack(h: Hasher, s: State, t0: State, t: State, k: int)
    requires Consistent(h, s) && TablesBack(h, s, t0, t) && 0 <= k < |Order(s)|
    ensures SlotsOf(t.newTable, k) == SlotsOf(s.newTable, Order(s)[k])
  {
    hide Consistent;
    hide EntriesBack;
    hide Counted;
    hide Numbered;
    hide Order;
    hide TableLoaded;
    NewTableBack(h, s, t0, t);
    var order := Order(s);
    forall q ensures q in SlotsOf(t.newTable, k) <==> q in SlotsOf(s.newTable, order[k]) {
      if q in t.newTable {
        var j := t.newTable[q];
        assert order[j] == s.newTable[q];
        assert j != k ==> order[j] != order[k];
      }
    }
  }

  lemma TriedTableBack(h: Hasher, s: State, t0: State, t: State)
    requires Consistent(h, s) && TablesBack(h, s, t0, t)
    ensures SameTable(s.triedTable, t.triedTable, Order(s))
  {
    var order, all := Order(s), SavedAll(s);
    OrderSplits(h, s);
    forall q | q in t.triedTable ensures q in s.triedTable && 0 <= t.triedTable[q] < |order| && order[t.triedTable[q]] == s.triedTable[q] {
      var k := t.triedTable[q];
      assert q == TriedSlot(h, all[k].service);
      assert s.infos[order[k]].inTried;
    }
    forall q | q in s.triedTable ensures q in t.triedTable {
      var id := s.triedTable[q];
      assert id in order;
      var k :| 0 <= k < |order| && order[k] == id;
      assert FromSaved(h, t0, s.nNew, all[k], k);
    }
  }

  lemma IsomorphicBack(h: Hasher, s: State, t0: State, t: State)
    requires Consistent(h, s) && TablesBack(h, s, t0, t)
    ensures Isomorphic(s, t, Order(s))
  {
    hide Consistent;
    hide Order;
    hide SameTable;
    hide SameEntry;
    hide TableLoaded;
    hide Enumerates;
    hide SlotsOf;
    NewTableBack(h, s, t0, t);
    TriedTableBack(h, s, t0, t);
    forall k | 0 <= k < |Order(s)|
      ensures k in t.infos && Order(s)[k] in s.infos
      ensures SameEntry(s.infos[Order(s)[k]], t.infos[k])
      ensures t.infos[k].refCount == s.infos[Order(s)[k]].refCount
      ensures t.infos[k].inTried == s.infos[Order(s)[k]].inTried
    {
      EntryBack(h, s, t0, t, k);
      SlotsBack(h, s, t0, t, k);
      RefCountIs(h, s, Order(s)[k]);
    }
  }

  lemma RefCountIs(h: Hasher, s: State, id: int)
    requires Consistent(h, s) && id in s.infos
    ensures s.infos[id].refCount == |SlotsOf(s.newTable, id)| <= NEW_BUCKETS_PER_ADDRESS
    ensures s.infos[id].inTried || s.infos[id].refCount > 0
  {
  }

  // An isomorphic state whose `vRandom` and `mapAddr` are in order is consistent.

  lemma IsomorphicAddr(h: Hasher, s: State, t: State, order: seq<int>)
    requires AddrOk(s) && Isomorphic(s, t, order) && Indexed(t) && t.idCount == |order|
    ensures AddrOk(t)
  {
    forall k | k in t.infos ensures t.byIp[t.infos[k].service.ip] == k {
      var j := t.byIp[t.infos[k].service.ip];
      assert t.infos[j].service.ip == t.infos[k].service.ip;
      assert SameEntry(s.infos[order[j]], t.infos[j]) && SameEntry(s.infos[order[k]], t.infos[k]);
      assert order[j] == order[k];
    }
  }

  lemma IsomorphicTried(h: Hasher, s: State, t: State, order: seq<int>)
    requires TriedOk(h, s) && Isomorphic(s, t, order)
    ensures TriedOk(h, t)
  {
    hide TriedSlot;
    forall q | q in t.triedTable
      ensures var k := t.triedTable[q]; k in t.infos && t.infos[k].inTried && q == TriedSlot(h, t.infos[k].service)
    {
      var k := t.triedTable[q];
      var id := order[k];
      assert SameEntry(s.infos[id], t.infos[k]) && id in s.infos && t.infos[k].inTried == s.infos[id].inTried;
    }
    forall k | k in t.infos && t.infos[k].inTried
      ensures var q := TriedSlot(h, t.infos[k].service); q in t.triedTable && t.triedTable[q] == k
    {
      assert SameEntry(s.infos[order[k]], t.infos[k]);
      var id := order[k];
      assert id in s.infos && s.infos[id].inTried && t.infos[k].service == s.infos[id].service;
      var q := TriedSlot(h, s.infos[id].service);
      assert s.triedTable[q] == id;
      var j := t.triedTable[q];
      assert order[j] == order[k];
    }
  }

  lemma IsomorphicNew(h: Hasher, s: State, t: State, order: seq<int>)
    requires NewOk(h, s, {}) && Isomorphic(s, t, order)
    requires forall k :: k in t.infos ==> t.infos[k].refCount == |SlotsOf(t.newTable, k)|
    ensures NewOk(h, t, {})
  {
    hide SlotsOf;
    hide NewSlotIn;
    hide Isomorphic;
    forall q | q in t.newTable
      ensures var k := t.newTable[q];
              && k in t.infos && !t.infos[k].inTried && q.bucket < NEW_BUCKET_COUNT
              && q == NewSlotIn(h, q.bucket, t.infos[k].service)
    {
      IsomorphicSlot(h, s, t, order, q);
    }
    forall k | k in t.infos
      ensures t.infos[k].refCount <= NEW_BUCKETS_PER_ADDRESS && (t.infos[k].inTried || t.infos[k].refCount > 0)
    {
      IsomorphicRefs(h, s, t, order, k);
    }
  }

  lemma IsomorphicSlot(h: Hasher, s: State, t: State, order: seq<int>, q: Slot)
    requires NewOk(h, s, {}) && Isomorphic(s, t, order) && q in t.newTable
    ensures var k := t.newTable[q];
            && k in t.infos && !t.infos[k].inTried && q.bucket < NEW_BUCKET_COUNT
            && q == NewSlotIn(h, q.bucket, t.infos[k].service)
  {
    hide SlotsOf;
    hide NewSlotIn;
    var k := t.newTable[q];
    assert SameEntry(s.infos[order[k]], t.infos[k]);
  }

  lemma IsomorphicRefs(h: Hasher, s: State, t: State, order: seq<int>, k: int)
    requires NewOk(h, s, {}) && Isomorphic(s, t, order) && k in t.infos
    ensures t.infos[k].refCount <= NEW_BUCKETS_PER_ADDRESS && (t.infos[k].inTried || t.infos[k].refCount > 0)
  {
    hide SlotsOf;
    hide NewSlotIn;
    hide SameTable;
    hide SameEntry;
    var id := order[k];
    assert id in s.infos && t.infos[k].refCount == s.infos[id].refCount;
  }

  lemma IsomorphicCounts(h: Hasher, s: State, t: State, order: seq<int>)
    requires Isomorphic(s, t, order) && 0 <= s.nNew && 0 <= s.nTried && |order| == s.nNew + s.nTried
    requires forall k :: 0 <= k < |order| ==> (t.infos[k].inTried <==> k >= s.nNew)
    ensures CountsOk(t, 0)
  {
    RangeSize(NewIds(t.infos), 0, s.nNew);
    RangeSize(TriedIds(t.infos), s.nNew, |order|);
  }

  lemma ConsistentBack(h: Hasher, s: State, t0: State, t: State)
    requires Consistent(h, s) && TablesBack(h, s, t0, t)
    ensures Consistent(h, t)
  {
    var order := Order(s);
    IsomorphicBack(h, s, t0, t);
    forall k | k in t.infos
      ensures t.infos[k].refCount == |SlotsOf(t.newTable, k)| && (t.infos[k].inTried <==> k >= s.nNew)
    {
      EntryBack(h, s, t0, t, k);
    }
    IndexedBack(h, s, t0, t);
    SavedCountsAdmitted(h, s);
    assert |order| == s.nNew + s.nTried;
    hide TablesBack;
    hide Order;
    hide Isomorphic;
    hide Indexed;
    hide SlotsOf;
    IsomorphicAddr(h, s, t, order);
    IsomorphicTried(h, s, t, order);
    IsomorphicNew(h, s, t, order);
    IsomorphicCounts(h, s, t, order);
  }

  lemma IndexedBack(h: Hasher, s: State, t0: State, t: State)
    requires TablesBack(h, s, t0, t)
    ensures Indexed(t) && RandomOk(t) && t.idCount == |Order(s)|
  {
    hide SlotsOf;
    hide TableLoaded;
    hide Order;
    forall ip | ip in t.byIp ensures t.byIp[ip] in t.infos && t.infos[t.byIp[ip]].service.ip == ip {
      var k := t.byIp[ip];
      assert k in t0.infos && t0.infos[k].service.ip == ip;
    }
  }

  lemma StandsBack(h: Hasher, s: State, t0: State)
    requires Consistent(h, s) && EntriesBack(h, s, t0)
    ensures Stands(s, IdList(s, false, s.idCount), t0)
    ensures forall k :: k in t0.infos ==> t0.infos[k].refCount == 0
  {
    ListSizes(h, s);
    IdListSpec(s, false, s.idCount);
    hide Consistent;
    var refs, all := IdList(s, false, s.idCount), SavedAll(s);
    assert forall k :: 0 <= k < |refs| ==> Order(s)[k] == refs[k];
    hide IdList;
    hide Order;
    forall k | k in t0.infos ensures t0.infos[k].refCount == 0 {
      assert FromSaved(h, t0, s.nNew, all[k], k);
    }
    forall k | 0 <= k < |refs| ensures refs[k] in s.infos && k in t0.infos && t0.infos[k].service == s.infos[refs[k]].service {
      assert FromSaved(h, t0, s.nNew, all[k], k);
    }
  }

  /** The sections of a stream written from `s`. */
  ghost predicate Sections(h: Hasher, s: State, xs: seq<Saved>, ys: seq<Saved>, rows: seq<seq<int>>) {
    && s.idCount >= 0 && |xs| == s.nNew && |ys| == s.nTried
    && DistinctSlots(h, ys) && xs + ys == SavedAll(s)
    && |rows| == NEW_BUCKET_COUNT && forall b :: 0 <= b < |rows| ==> rows[b] == Row(s, b, BUCKET_SIZE)
  }

  lemma SerializeSections(h: Hasher, key: nat, s: State)
    requires Consistent(h, s)
    ensures s.nNew >= 0 && s.nTried >= 0
    ensures var d := Serialize(key, s); Sections(h, s, d.newEntries, d.triedEntries, d.rows)
  {
    SavedCountsAdmitted(h, s);
    ListSizes(h, s);
    TriedSlotsDistinct(h, s);
    hide Base;
    hide DistinctSlots;
    hide IdList;
    hide Row;
  }

  lemma SectionsBack(h: Hasher, s: State, xs: seq<Saved>, ys: seq<Saved>, rows: seq<seq<int>>)
    requires Consistent(h, s) && Sections(h, s, xs, ys, rows)
    ensures var t := LoadNews(h, false, Empty.(nNew := s.nNew, nTried := s.nTried), xs);
            var t0 := LoadTrieds(h, t.(idCount := s.nNew), ys);
            TablesBack(h, s, t0, LoadRows(h, true, t0, rows))
  {
    hide Consistent;
    OrderSplits(h, s);
    OrderEnumerates(h, s);
    ListSizes(h, s);
    LoadEntries(h, s, xs, ys);
    var t := LoadNews(h, false, Empty.(nNew := s.nNew, nTried := s.nTried), xs);
    var t0 := LoadTrieds(h, t.(idCount := s.nNew), ys);
    hide LoadNews;
    hide LoadTrieds;
    hide DistinctSlots;
    hide SavedAll;
    StandsBack(h, s, t0);
    hide Stands;
    hide Numbered;
    LoadRowsSpec(h, s, IdList(s, false, s.idCount), t0, rows);
    hide Counted;
    hide TableLoaded;
    hide Order;
    hide Enumerates;
    hide Row;
  }

  lemma IsomorphicTimes(s: State, t: State, order: seq<int>)
    requires Isomorphic(s, t, order) && TimesOk(s)
    ensures TimesOk(t)
  {
    hide SameTable;
    forall k | k in t.infos
      ensures t.infos[k].stats.lastTry >= 0 && t.infos[k].stats.lastSuccess >= 0
      ensures t.infos[k].inTried ==> t.infos[k].stats.lastSuccess != 0
    {
      var id := order[k];
      assert SameEntry(s.infos[id], t.infos[k]) && id in s.infos && t.infos[k].inTried == s.infos[id].inTried;
    }
  }

  /** Loading what was saved loses nothing: the same key, the same entries and the same tables, with
      the entries renumbered, and all that `Check_` asks for. */
  lemma RoundTrip(hashers: nat -> Hasher, key: nat, s: State)
    requires Consistent(hashers(key), s)
    ensures s.nNew >= 0 && s.nTried >= 0
    ensures var r := Unserialize(hashers, Serialize(key, s));
            && r.Loaded? && r.key == key
            && Isomorphic(s, r.state, Order(s)) && Consistent(hashers(key), r.state)
            && (TimesOk(s) ==> TimesOk(r.state))
  {
    var h := hashers(key);
    assert s.idCount >= 0;
    hide Consistent;
    hide Isomorphic;
    SavedCountsAdmitted(h, s);
    SerializeSections(h, key, s);
    var d := Serialize(key, s);
    SectionsBack(h, s, d.newEntries, d.triedEntries, d.rows);
    UnserializeUsable(hashers, d, s.nNew, s.nTried);
    hide Serialize;
    var t0, v := TwoLoops(h, s.nNew, s.nTried, d.newEntries, d.triedEntries), Unpruned(h, s.nNew, s.nTried, d);
    IsomorphicBack(h, s, t0, v);
    if TimesOk(s) {
      IsomorphicTimes(s, v, Order(s));
    }
    hide TimesOk;
    ConsistentBack(h, s, t0, v);
    NothingToPrune(h, v);
    PruneNothing(v, v.idCount);
  }

  /** The state after the two entry loops, and after the bucket section. */
  ghost function TwoLoops(h: Hasher, nNew: nat, nTried: nat, xs: seq<Saved>, ys: seq<Saved>): (t0: State)
    requires |xs| == nNew
    ensures Numbered(t0)
  {
    LoadTrieds(h, LoadNews(h, false, Empty.(nNew := nNew, nTried := nTried), xs).(idCount := nNew), ys)
  }

  ghost function Unpruned(h: Hasher, nNew: nat, nTried: nat, d: Stream): (v: State)
    requires |d.newEntries| == nNew
    ensures Numbered(v) && v.idCount >= 0
  {
    LoadRows(h, true, TwoLoops(h, nNew, nTried, d.newEntries, d.triedEntries), d.rows)
  }

  lemma NumberedRandom(t: State)
    requires Numbered(t)
    ensures RandomOk(t)
  {
  }

  lemma UnserializeUsable(hashers: nat -> Hasher, d: Stream, nNew: nat, nTried: nat)
    requires d.version == FORMAT_VERSION && d.keySize == KEY_SIZE && d.uBuckets == Toggle(NEW_BUCKET_COUNT)
    requires nNew == d.nNew == |d.newEntries| <= NEW_BUCKET_COUNT * BUCKET_SIZE
    requires nTried == d.nTried == |d.triedEntries| <= TRIED_BUCKET_COUNT * BUCKET_SIZE
    requires |d.rows| == NEW_BUCKET_COUNT
    ensures var v := Unpruned(hashers(d.key), nNew, nTried, d);
            RandomOk(v) && Unserialize(hashers, d) == Loaded(d.key, Prune(v, v.idCount))
  {
    assert Toggle(d.uBuckets) == NEW_BUCKET_COUNT;
    assert d.newEntries[..d.nNew] == d.newEntries && d.triedEntries[..d.nTried] == d.triedEntries;
    assert d.rows[..NEW_BUCKET_COUNT] == d.rows;
    NumberedRandom(Unpruned(hashers(d.key), nNew, nTried, d));
    hide Numbered;
    hide RandomOk;
    hide LoadNews;
    hide LoadTrieds;
    hide LoadRows;
    hide Prune;
  }

  lemma NothingToPrune(h: Hasher, v: State)
    requires Consistent(h, v)
    ensures RandomOk(v) && forall k :: k in v.infos ==> v.infos[k].inTried || v.infos[k].refCount > 0
  {
  }
}
