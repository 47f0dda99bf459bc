/** What a promotion, and the operations on a single entry, do beside keeping the state consistent. */
module AddrManGood {
  import opened AddrMan

  /** The same entry as far as it is not a matter of tables: who it is, and what is recorded about it. */
  ghost predicate SameRecord(was: Info, now: Info) {
    now.service == was.service && now.source == was.source && now.stats == was.stats
  }

  // ----- Promotion

  lemma ReleaseLeaves(h: Hasher, s: State, id: int)
    requires Consistent(h, s) && id in s.infos
    ensures var u := Release(h, s, id);
            && u.newTable == s.newTable - SlotsOf(s.newTable, id) && u.triedTable == s.triedTable
            && u.infos == s.infos[id := s.infos[id].(refCount := 0)] && u.lastGood == s.lastGood
  {
    DropNewRefsKeepsNew(h, s, id);
    hide Base;
    hide BucketsOf;
    hide SlotsIn;
    hide SlotsOf;
  }

  /** The entry that gives way when `gone` goes back to slot `home`: its only reference was there. */
  ghost predicate GivesWay(s: State, home: Slot, x: int) {
    home in s.newTable && s.newTable[home] == x && x in s.infos && s.infos[x].refCount == 1
  }

  /** `gone` is referenced from `home`, whose holder lost that reference; everything recorded stays. */
  ghost predicate Returned(s: State, r: State, home: Slot, gone: int) {
    && r.newTable == s.newTable[home := gone] && r.lastGood == s.lastGood
    && (forall x :: x in r.infos <==> x in s.infos && !GivesWay(s, home, x))
    && (forall x :: x in r.infos ==> SameRecord(s.infos[x], r.infos[x]))
  }

  lemma ClearNewLeaves(t: State, home: Slot)
    requires Clearable(t, home)
    ensures var u := ClearNew(t, home);
            && u.newTable == t.newTable - {home} && u.lastGood == t.lastGood
            && (forall x :: x in u.infos <==> x in t.infos && !GivesWay(t, home, x))
            && (forall x :: x in u.infos ==> SameRecord(t.infos[x], u.infos[x]))
  {
    if home in t.newTable {
      var id := t.newTable[home];
      var u := Unref(t, home);
      if u.infos[id].refCount == 0 {
        assert RandomOk(u);
        DeleteFrame(u, id);
        hide RandomOk;
        hide Delete;
      }
    } else {
      assert t.newTable - {home} == t.newTable;
    }
  }

  lemma RehomeReturns(s: State, t: State, u: State, home: Slot, gone: int)
    requires t.newTable == s.newTable && (forall x :: x in t.infos <==> x in s.infos) && gone in u.infos
    requires forall x :: x in t.infos ==> SameRecord(s.infos[x], t.infos[x]) && t.infos[x].refCount == s.infos[x].refCount
    requires u.newTable == t.newTable - {home} && u.lastGood == s.lastGood
    requires forall x :: x in u.infos <==> x in t.infos && !GivesWay(t, home, x)
    requires forall x :: x in u.infos ==> SameRecord(t.infos[x], u.infos[x])
    ensures Returned(s, Rehome(u, home, gone), home, gone)
  {
    assert (s.newTable - {home})[home := gone] == s.newTable[home := gone];
    forall x ensures GivesWay(t, home, x) <==> GivesWay(s, home, x) {
    }
    hide GivesWay;
  }

  lemma EvictSteps(h: Hasher, s: State, q: Slot, id: int)
    requires Base(h, s, 1, {id}) && id in s.infos && !s.infos[id].inTried && s.infos[id].refCount == 0 && q in s.triedTable
    ensures s.triedTable[q] in s.infos
    ensures var t, home, gone := Unseat(s, q), Home(h, s, q), s.triedTable[q];
            && Clearable(t, home) && gone in ClearNew(t, home).infos
            && Evict(h, s, q, id) == Rehome(ClearNew(t, home), home, gone)
  {
    var gone, home := s.triedTable[q], Home(h, s, q);
    UnseatKeeps(h, s, q, 1, {id});
    assert {id} + {gone} == {id, gone};
    var t := Unseat(s, q);
    ClearBeside(h, t, home, id, gone);
    hide Base;
    hide Home;
    hide TimesKept;
    hide ClearNew;
    hide Clearable;
  }

  lemma UnseatLeaves(s: State, q: Slot)
    requires q in s.triedTable && s.triedTable[q] in s.infos
    ensures var t := Unseat(s, q);
            && t.newTable == s.newTable && t.lastGood == s.lastGood && (forall x :: x in t.infos <==> x in s.infos)
            && forall x :: x in t.infos ==> SameRecord(s.infos[x], t.infos[x]) && t.infos[x].refCount == s.infos[x].refCount
  {
  }

  /** The occupant of the tried slot goes back to the new slot that its own source selects. */
  lemma EvictReturns(h: Hasher, s: State, q: Slot, id: int)
    requires Base(h, s, 1, {id}) && id in s.infos && !s.infos[id].inTried && s.infos[id].refCount == 0
    ensures q in s.triedTable ==> s.triedTable[q] in s.infos
    ensures var r := Evict(h, s, q, id);
            if q in s.triedTable then Returned(s, r, Home(h, s, q), s.triedTable[q]) else r == s
  {
    if q in s.triedTable {
      hide *;
      EvictSteps(h, s, q, id);
      var gone, home := s.triedTable[q], Home(h, s, q);
      var t := Unseat(s, q);
      UnseatLeaves(s, q);
      ClearNewLeaves(t, home);
      RehomeReturns(s, t, ClearNew(t, home), home, gone);
    }
  }

  /** What a promotion leaves: `id` gives up its references and takes its tried slot; the occupant of that slot, if there is
      one, returns to the new slot of its own source, at the expense of that slot's holder. Nothing recorded changes. */
  ghost predicate Promoted(h: Hasher, s: State, r: State, id: int)
    requires id in s.infos
  {
    var q, left := TriedSlot(h, s.infos[id].service), s.newTable - SlotsOf(s.newTable, id);
    && r.triedTable == s.triedTable[q := id] && id in r.infos && r.infos[id].inTried && r.lastGood == s.lastGood
    && (forall x :: x in r.infos ==> x in s.infos && SameRecord(s.infos[x], r.infos[x]))
    && if q in s.triedTable && s.triedTable[q] in s.infos then
         var home := Home(h, s, q);
         && r.newTable == left[home := s.triedTable[q]]
         && forall x :: x in s.infos ==>
              (x in r.infos <==> !(home in left && left[home] == x && s.infos[x].refCount == 1))
       else
         r.newTable == left && r.infos.Keys == s.infos.Keys
  }

  lemma PromotedWhen(h: Hasher, s: State, u: State, v: State, q: Slot, id: int)
    requires id in s.infos && q == TriedSlot(h, s.infos[id].service) && id in v.infos
    requires u.newTable == s.newTable - SlotsOf(s.newTable, id) && u.triedTable == s.triedTable
    requires u.infos == s.infos[id := s.infos[id].(refCount := 0)] && u.lastGood == s.lastGood
    requires q in s.triedTable ==> s.triedTable[q] in s.infos && s.triedTable[q] != id
    requires if q in u.triedTable then Returned(u, v, Home(h, u, q), u.triedTable[q]) else v == u
    requires Seat(v, q, id).triedTable == s.triedTable[q := id]
    ensures Promoted(h, s, Seat(v, q, id), id)
  {
    hide TriedSlot;
    hide NewSlot;
    var r, left := Seat(v, q, id), u.newTable;
    assert forall p :: p in left ==> left[p] != id by {
      forall p | p in left ensures left[p] != id {
        assert p !in SlotsOf(s.newTable, id);
      }
    }
    hide SlotsOf;
    if q in s.triedTable {
      var home := Home(h, s, q);
      assert home == Home(h, u, q);
      hide Home;
      forall x | x in s.infos ensures x in r.infos <==> !(home in left && left[home] == x && s.infos[x].refCount == 1) {
        assert GivesWay(u, home, x) <==> home in left && left[home] == x && s.infos[x].refCount == 1;
      }
    }
  }

  lemma MakeTriedPromotes(h: Hasher, s: State, id: int)
    requires Consistent(h, s) && id in s.infos && !s.infos[id].inTried
    ensures Promoted(h, s, MakeTried(h, s, id), id)
  {
    OccupantElsewhere(h, s, id);
    hide *;
    var u, q, v := MakeTriedSteps(h, s, id);
    ReleaseLeaves(h, s, id);
    EvictReturns(h, u, q, id);
    MakeTriedMoves(h, s, id);
    PromotedWhen(h, s, u, v, q, id);
  }

  lemma OccupantElsewhere(h: Hasher, s: State, id: int)
    requires Consistent(h, s) && id in s.infos && !s.infos[id].inTried
    ensures var q := TriedSlot(h, s.infos[id].service);
            q in s.triedTable ==> s.triedTable[q] in s.infos && s.triedTable[q] != id
  {
  }

  /** `Good_` on a known service: success, last try and attempts are set, the clock of counted attempts is set back, and the
      entry is promoted unless it is tried already. */
  lemma GoodPromotes(h: Hasher, s: State, a: Service, time: int)
    requires Consistent(h, s)
    ensures !Knows(s, a) ==> Good(h, s, a, time) == s.(lastGood := time)
    ensures Knows(s, a) ==>
              var id := s.byIp[a.ip];
              var was := s.infos[id];
              var praised := s.(lastGood := time,
                                infos := s.infos[id := was.(stats := was.stats.(lastSuccess := time, lastTry := time,
                                                            attempts := 0))]);
              if was.inTried then Good(h, s, a, time) == praised
              else Promoted(h, praised, Good(h, s, a, time), id)
  {
    if Knows(s, a) {
      var s0, id := s.(lastGood := time), s.byIp[a.ip];
      var t := Praise(s0, id, time);
      GoodCases(h, s, a, time);
      hide Base;
      hide MakeTried;
      hide Good;
      hide Promoted;
      if !t.infos[id].inTried {
        MakeTriedPromotes(h, t, id);
      }
    }
  }

  // ----- Operations that only rewrite one entry

  /** Nothing differs but what is recorded about `id`. */
  ghost predicate OnlyRecord(s: State, r: State, id: int) {
    && r == s.(infos := r.infos) && id in s.infos && (forall x :: x in r.infos <==> x in s.infos)
    && (forall x :: x in s.infos && x != id ==> r.infos[x] == s.infos[x])
    && r.infos[id] == s.infos[id].(stats := r.infos[id].stats)
  }

  lemma OwnerThere(h: Hasher, s: State, a: Service)
    requires Consistent(h, s)
    ensures a.ip in s.byIp ==> s.byIp[a.ip] in s.infos
  {
  }

  /** An attempt sets the last try, and is counted only if asked to be and if none was counted since the last success of
      anybody; nothing else changes. */
  lemma AttemptOutcome(h: Hasher, s: State, a: Service, countFailure: bool, time: int)
    requires Consistent(h, s)
    ensures !Knows(s, a) ==> Attempt(h, s, a, countFailure, time) == s
    ensures Knows(s, a) ==>
              var r, id := Attempt(h, s, a, countFailure, time), s.byIp[a.ip];
              OnlyRecord(s, r, id) &&
              var was, now := s.infos[id].stats, r.infos[id].stats;
              && now.lastTry == time && now.services == was.services && now.time == was.time && now.lastSuccess == was.lastSuccess
              && (countFailure && was.lastCountAttempt < s.lastGood ==>
                    now.lastCountAttempt == time && now.attempts == was.attempts + 1)
              && (!countFailure || was.lastCountAttempt >= s.lastGood ==>
                    now.lastCountAttempt == was.lastCountAttempt && now.attempts == was.attempts)
  {
    OwnerThere(h, s, a);
    hide Base;
  }

  /** Between two successes at most one attempt on an address is counted. */
  lemma AttemptsCountOnce(h: Hasher, s: State, a: Service, time: int, countFailure: bool, later: int)
    requires Consistent(h, s) && Knows(s, a) && time >= s.lastGood
    ensures var r := Attempt(h, s, a, true, time);
            var id := s.byIp[a.ip];
            id in r.infos && Knows(r, a) && id in Attempt(h, r, a, countFailure, later).infos
            && Attempt(h, r, a, countFailure, later).infos[id].stats.attempts == r.infos[id].stats.attempts
            && r.infos[id].stats.attempts <= s.infos[id].stats.attempts + 1
  {
    OwnerThere(h, s, a);
    hide Base;
  }

  /** A connection refreshes a time that is more than twenty minutes old, and nothing else. */
  lemma ConnectedOutcome(h: Hasher, s: State, a: Service, time: int)
    requires Consistent(h, s)
    ensures !Knows(s, a) ==> Connected(h, s, a, time) == s
    ensures Knows(s, a) ==>
              var r, id := Connected(h, s, a, time), s.byIp[a.ip];
              OnlyRecord(s, r, id) &&
              var was, now := s.infos[id].stats, r.infos[id].stats;
              now == was.(time := if time > was.time + 1200 then time % TIME_MODULUS else was.time)
  {
    OwnerThere(h, s, a);
    hide Base;
  }

  /** The services of a known address are replaced, and nothing else. */
  lemma SetServicesOutcome(h: Hasher, s: State, a: Service, services: bv64)
    requires Consistent(h, s)
    ensures !Knows(s, a) ==> SetServices(h, s, a, services) == s
    ensures Knows(s, a) ==>
              var r, id := SetServices(h, s, a, services), s.byIp[a.ip];
              OnlyRecord(s, r, id) && r.infos[id].stats == s.infos[id].stats.(services := services)
  {
    OwnerThere(h, s, a);
    hide Base;
  }
}
