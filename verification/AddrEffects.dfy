/** What the main operations of the address manager achieve, besides keeping it consistent. */
module AddrEffects {
  import opened AddrTable

  function Holder(table: map<Slot, nat>, slot: Slot): set<nat> {
    if slot in table then {table[slot]} else {}
  }

  /** No id is forgotten but one in `gone`. */
  predicate LosesOnly(s: State, t: State, gone: set<nat>) {
    forall id :: id in s.mapInfo && id !in gone ==> id in t.mapInfo
  }

  /** The occupant of a tried slot is sent back to its place in new. */
  lemma EvictMoves(h: Hashes, s: State, slot: Slot, loose: set<nat>, owed: int)
    requires ConsistentBut(h, s, loose, owed) && slot in s.vvTried
    ensures s.vvTried[slot] in s.mapInfo
    ensures var id, t := s.vvTried[slot], Evict(h, s, slot, loose, owed);
            var home := HomeSlot(h, s.nKey, s.mapInfo[id]);
            && id in t.mapInfo && !t.mapInfo[id].fInTried && t.vvNew == s.vvNew[home := id]
            && LosesOnly(s, t, Holder(s.vvNew, home))
  {
    hide AddrOk, RandomOk, TriedSlotsOk, NewSlotsOk, RefsOk, CountsOk, SettledBut, TriedSlot, NewSlot, ClearNew, IdsOk;
    UntryOk(h, s, slot, loose, owed);
    var id := s.vvTried[slot];
    var home := HomeSlot(h, s.nKey, s.mapInfo[id]);
    var u := Untry(s, slot);
    ClearNewOk(h, u, home, loose + {id}, owed + 1);
    ClearNewKeeps(u, home);
    LooseIn(h, ClearNew(u, home), loose + {id}, owed + 1);
    assert (s.vvNew - {home})[home := id] == s.vvNew[home := id];
  }

  /** An id moved to tried takes its slot; the slot's occupant, and nobody else, goes back to new. */
  lemma MakeTriedMoves(h: Hashes, s: State, id: nat)
    requires Consistent(h, s) && id in s.mapInfo && !s.mapInfo[id].fInTried
    ensures var t, slot := MakeTried(h, s, id), TriedSlot(h, s.nKey, s.mapInfo[id].address.service);
            && id in t.mapInfo && t.mapInfo[id].fInTried && t.vvTried == s.vvTried[slot := id]
            && InfosKept(s.mapInfo[id := s.mapInfo[id].(fInTried := true)], t.mapInfo)
            && if slot !in s.vvTried then t.mapInfo.Keys == s.mapInfo.Keys && t.vvNew == Without(s.vvNew, id)
               else
                 && s.vvTried[slot] in s.mapInfo && s.vvTried[slot] != id
                 && var out := s.vvTried[slot];
                    var home := HomeSlot(h, s.nKey, s.mapInfo[out]);
                    && out in t.mapInfo && !t.mapInfo[out].fInTried && t.vvNew == Without(s.vvNew, id)[home := out]
                    && LosesOnly(s, t, Holder(s.vvNew, home))
  {
    hide IdsOk, AddrOk, RandomOk, NewSlotsOk, RefsOk, CountsOk, SettledBut, NewSlot, Evict, ClearNew, Without;
    hide InfosKept, TriedSlot, GetNewBucket, Keeps;
    MakeTriedOk(h, s, id);
    LoosenOk(h, s, id);
    var slot := TriedSlot(h, s.nKey, s.mapInfo[id].address.service);
    var t := Loosen(s, id);
    if slot in t.vvTried {
      EvictMoves(h, t, slot, {id}, 1);
      var out := s.vvTried[slot];
      var home := HomeSlot(h, s.nKey, s.mapInfo[out]);
      WithoutOthers(s.vvNew, id, home);
    }
  }

  lemma WithoutOthers(table: map<Slot, nat>, id: nat, slot: Slot)
    ensures slot in Without(table, id) ==> slot in table && Without(table, id)[slot] == table[slot]
  {
  }

  /** The info of an id after a successful connection. */
  function Succeeded(info: Info, time: int): Info {
    info.(nLastSuccess := time, nLastTry := time, nAttempts := 0)
  }

  /** What a successful connection records, moves and displaces. */
  lemma GoodMoves(h: Hashes, s: State, svc: Service, testBeforeEvict: bool, time: int)
    requires Consistent(h, s)
    ensures var t := Good(h, s, svc, testBeforeEvict, time);
            && t.nLastGood == time
            && if !FindsService(s, svc) then t == s.(nLastGood := time)
               else
                 var id, slot := s.mapAddr[svc.addr], TriedSlot(h, s.nKey, svc);
                 var touched := Succeeded(s.mapInfo[id], time);
                 if s.mapInfo[id].fInTried then t == s.(nLastGood := time, mapInfo := s.mapInfo[id := touched])
                 else if testBeforeEvict && slot in s.vvTried then
                   t == s.(nLastGood := time, mapInfo := s.mapInfo[id := touched],
                           collisions := if |s.collisions| < 10 then s.collisions + {id} else s.collisions)
                 else
                   && id in t.mapInfo && t.mapInfo[id].fInTried && t.vvTried == s.vvTried[slot := id]
                   && t.collisions == s.collisions && t.nKey == s.nKey
                   && InfosKept(s.mapInfo[id := touched.(fInTried := true)], t.mapInfo)
                   && (slot in s.vvTried ==> s.vvTried[slot] in t.mapInfo && !t.mapInfo[s.vvTried[slot]].fInTried)
                   && (slot !in s.vvTried ==> t.mapInfo.Keys == s.mapInfo.Keys)
  {
    hide IdsOk, AddrOk, RandomOk, TriedSlotsOk, NewSlotsOk, RefsOk, CountsOk, SettledBut, TriedSlot, MakeTried;
    hide InfosKept;
    if FindsService(s, svc) {
      var s0 := s.(nLastGood := time);
      var id := s.mapAddr[svc.addr];
      var touched := Succeeded(s.mapInfo[id], time);
      TouchOk(h, s0, id, touched, {}, 0);
      var s1 := Touch(s0, id, touched);
      if !s.mapInfo[id].fInTried {
        UntriedIsInABucket(h, s, id);
        if !(testBeforeEvict && TriedSlot(h, s.nKey, svc) in s.vvTried) {
          MakeTriedOk(h, s1, id);
          MakeTriedMoves(h, s1, id);
          assert s1.mapInfo[id := touched.(fInTried := true)] == s.mapInfo[id := touched.(fInTried := true)];
        }
      }
    }
  }

  /** Placing an id: it takes the slot its source selects, or is turned away by an occupant worth keeping. */
  lemma PlaceMoves(h: Hashes, s: State, id: nat, source: NetAddr, now: int, loose: set<nat>)
    requires ConsistentBut(h, s, loose, 0) && loose <= {id} && id in s.mapInfo && !s.mapInfo[id].fInTried
    requires s.mapInfo[id].nRefCount < ADDRMAN_NEW_BUCKETS_PER_ADDRESS
    ensures var t := Place(h, s, id, source, now, loose);
            var info := s.mapInfo[id];
            var slot := NewSlot(h, s.nKey, info.address.service, GetNewBucket(h, s.nKey, info.address.service, source));
            if slot !in s.vvNew || s.vvNew[slot] == id || IsTerrible(s.mapInfo[s.vvNew[slot]], now)
               || (s.mapInfo[s.vvNew[slot]].nRefCount > 1 && id in loose)
            then id in t.mapInfo && t.vvNew == s.vvNew[slot := id] && LosesOnly(s, t, Holder(s.vvNew, slot) - {id})
            else t.vvNew == s.vvNew && (id in t.mapInfo <==> id !in loose) && LosesOnly(s, t, {id})
  {
    hide IdsOk, AddrOk, RandomOk, TriedSlotsOk, NewSlotsOk, RefsOk;
    hide CountsOk, SettledBut, NewSlot, ClearNew, Delete, IsTerrible, GetNewBucket;
    var info := s.mapInfo[id];
    var slot := NewSlot(h, s.nKey, info.address.service, GetNewBucket(h, s.nKey, info.address.service, source));
    RefsKnown(h, s, id, loose);
    LooseHasNoSlot(h, s, slot, loose);
    ClearNewKeeps(s, slot);
    DeleteShape(s, id);
    assert (s.vvNew - {slot})[slot := id] == s.vvNew[slot := id];
    if slot in s.vvNew && s.vvNew[slot] == id {
      assert s.vvNew[slot := id] == s.vvNew;
    }
  }

  /** The new slot an address heard from `source` goes to. */
  function SlotFor(h: Hashes, s: State, svc: Service, source: NetAddr): Slot {
    NewSlot(h, s.nKey, svc, GetNewBucket(h, s.nKey, svc, source))
  }

  /** Whether the holder of a new slot makes room for an address not seen before. */
  predicate MakesRoom(s: State, slot: Slot, now: int) {
    || slot !in s.vvNew || s.vvNew[slot] !in s.mapInfo
    || IsTerrible(s.mapInfo[s.vvNew[slot]], now) || s.mapInfo[s.vvNew[slot]].nRefCount > 1
  }

  /**
   * A new address is entered exactly when its slot makes room; a known one is never forgotten by hearing of it
   * again.
   */
  lemma AddMoves(h: Hashes, s: State, addr: Address, source: NetAddr, penalty: int, routable: bool, now: int,
                 lucky: bool)
    requires Consistent(h, s)
    ensures var r := Add(h, s, addr, source, penalty, routable, now, lucky);
            var t, slot := r.0, SlotFor(h, s, addr.service, source);
            var p := if addr.service.addr == source then 0 else penalty;
            && t.vvTried == s.vvTried && t.collisions == s.collisions
            && (r.1 <==> routable && !Finds(s, addr.service.addr))
            && (!routable ==> t == s)
            && (routable && !Finds(s, addr.service.addr) ==> EntersOrNot(s, t, slot, now, addr, source, p))
            && (routable && Finds(s, addr.service.addr) ==> s.mapAddr[addr.service.addr] in t.mapInfo)
  {
    hide Add, Consistent, EntersOrNot, SlotFor;
    if routable {
      if Finds(s, addr.service.addr) {
        AddKnown(h, s, addr, source, penalty, now, lucky);
      } else {
        AddUnknown(h, s, addr, source, penalty, now, lucky);
      }
    } else {
      AddUnroutable(h, s, addr, source, penalty, now, lucky);
    }
  }

  lemma AddUnroutable(h: Hashes, s: State, addr: Address, source: NetAddr, penalty: int, now: int, lucky: bool)
    requires Consistent(h, s)
    ensures Add(h, s, addr, source, penalty, false, now, lucky) == (s, false)
  {
    hide Place, Create, Refreshed, Consistent;
  }

  lemma AddKnown(h: Hashes, s: State, addr: Address, source: NetAddr, penalty: int, now: int, lucky: bool)
    requires Consistent(h, s) && Finds(s, addr.service.addr)
    ensures var r := Add(h, s, addr, source, penalty, true, now, lucky);
            !r.1 && r.0.vvTried == s.vvTried
            && r.0.collisions == s.collisions && s.mapAddr[addr.service.addr] in r.0.mapInfo
  {
    hide Place, Create, Refreshed, Consistent;
    AddKnownMoves(h, s, addr, source, if addr.service.addr == source then 0 else penalty, now);
  }

  lemma AddUnknown(h: Hashes, s: State, addr: Address, source: NetAddr, penalty: int, now: int, lucky: bool)
    requires Consistent(h, s) && !Finds(s, addr.service.addr)
    ensures var r := Add(h, s, addr, source, penalty, true, now, lucky);
            && r.1 && r.0.vvTried == s.vvTried && r.0.collisions == s.collisions
            && EntersOrNot(s, r.0, SlotFor(h, s, addr.service, source), now, addr, source,
                           if addr.service.addr == source then 0 else penalty)
  {
    hide Place, Create, Refreshed, Consistent, ConsistentBut, EntersOrNot, SlotFor, Touch;
    var p := if addr.service.addr == source then 0 else penalty;
    AddUnknownMoves(h, s, addr, source, p, now);
    var t := Create(s, addr, source);
    var info := t.mapInfo[s.nIdCount].(address := addr.(nTime := Max0(addr.nTime - p)));
    var u := Touch(t, s.nIdCount, info).(nNew := s.nNew + 1);
    assert Add(h, s, addr, source, penalty, true, now, lucky)
             == (Place(h, u, s.nIdCount, source, now, {s.nIdCount}), true);
  }

  /** Nothing is recorded about the address yet but where it comes from and its time less the penalty. */
  predicate JustHeard(info: Info, addr: Address, source: NetAddr, p: int) {
    && info.address == addr.(nTime := if addr.nTime > p then addr.nTime - p else 0) && info.source == source
    && info.nLastTry == info.nLastCountAttempt == info.nLastSuccess == info.nAttempts == 0 && !info.fInTried
  }

  predicate EntersOrNot(s: State, t: State, slot: Slot, now: int, addr: Address, source: NetAddr, p: int) {
    if MakesRoom(s, slot, now) then
      && s.nIdCount in t.mapInfo && JustHeard(t.mapInfo[s.nIdCount], addr, source, p)
      && t.vvNew == s.vvNew[slot := s.nIdCount]
      && LosesOnly(s, t, Holder(s.vvNew, slot))
    else
      t.vvNew == s.vvNew && t.mapInfo.Keys == s.mapInfo.Keys
  }

  lemma AddKnownMoves(h: Hashes, s: State, addr: Address, source: NetAddr, p: int, now: int)
    requires Consistent(h, s) && Finds(s, addr.service.addr)
    ensures var id := s.mapAddr[addr.service.addr];
            var info := Refreshed(s.mapInfo[id], addr, p, now);
            var t := Touch(s, id, info);
            && Consistent(h, t)
            && (!info.fInTried && info.nRefCount != ADDRMAN_NEW_BUCKETS_PER_ADDRESS ==>
                 var r := Place(h, t, id, source, now, {});
                 id in r.mapInfo && r.vvTried == s.vvTried && r.collisions == s.collisions)
  {
    hide IdsOk, AddrOk, RandomOk, TriedSlotsOk, NewSlotsOk, RefsOk, CountsOk, SettledBut, Place, Refreshed;
    var id := s.mapAddr[addr.service.addr];
    RefreshedShape(s.mapInfo[id], addr, p, now);
    var info := Refreshed(s.mapInfo[id], addr, p, now);
    var t := Touch(s, id, info);
    TouchOk(h, s, id, info, {}, 0);
    RefCountBound(h, s, id);
    if !info.fInTried && info.nRefCount != ADDRMAN_NEW_BUCKETS_PER_ADDRESS {
      PlaceOk(h, t, id, source, now, {});
      PlaceMoves(h, t, id, source, now, {});
    }
  }

  lemma AddUnknownMoves(h: Hashes, s: State, addr: Address, source: NetAddr, p: int, now: int)
    requires Consistent(h, s) && !Finds(s, addr.service.addr)
    ensures var id := s.nIdCount;
            var t := Create(s, addr, source);
            && id in t.mapInfo
            && var info := t.mapInfo[id].(address := addr.(nTime := Max0(addr.nTime - p)));
               var u := Touch(t, id, info).(nNew := s.nNew + 1);
               && ConsistentBut(h, u, {id}, 0) && id in u.mapInfo && !u.mapInfo[id].fInTried
               && var r := Place(h, u, id, source, now, {id});
                  && r.vvTried == s.vvTried && r.collisions == s.collisions
                  && EntersOrNot(s, r, SlotFor(h, s, addr.service, source), now, addr, source, p)
  {
    hide ConsistentBut, Place, IsTerrible, NewSlot, GetNewBucket, LosesOnly, InfosKept, EntersOrNot;
    var id := s.nIdCount;
    AddUnknownOk(h, s, addr, source, p, now);
    var t := Create(s, addr, source);
    var info := t.mapInfo[id].(address := addr.(nTime := Max0(addr.nTime - p)));
    var u := Touch(t, id, info).(nNew := s.nNew + 1);
    PlaceOk(h, u, id, source, now, {id});
    PlaceMoves(h, u, id, source, now, {id});
    SlotsKnown(h, s);
    assert u.mapInfo == s.mapInfo[id := info];
    var r := Place(h, u, id, source, now, {id});
    PlacedIsEntered(s, info, u, r, SlotFor(h, s, addr.service, source), now, addr, source, p);
  }

  /** What placing a fresh id does to the manager it was added to. */
  lemma PlacedIsEntered(s: State, info: Info, u: State, r: State, slot: Slot, now: int, addr: Address, source: NetAddr,
                        p: int)
    requires u.mapInfo == s.mapInfo[s.nIdCount := info] && u.vvNew == s.vvNew && JustHeard(info, addr, source, p)
    requires s.nIdCount !in s.mapInfo
    requires forall q :: q in s.vvNew ==> s.vvNew[q] in s.mapInfo && s.vvNew[q] < s.nIdCount
    requires InfosKept(u.mapInfo, r.mapInfo)
    requires if slot !in u.vvNew || u.vvNew[slot] == s.nIdCount || IsTerrible(u.mapInfo[u.vvNew[slot]], now)
                || u.mapInfo[u.vvNew[slot]].nRefCount > 1
             then
               && s.nIdCount in r.mapInfo && r.vvNew == u.vvNew[slot := s.nIdCount]
               && LosesOnly(u, r, Holder(u.vvNew, slot) - {s.nIdCount})
             else r.vvNew == u.vvNew && s.nIdCount !in r.mapInfo && LosesOnly(u, r, {s.nIdCount})
    ensures EntersOrNot(s, r, slot, now, addr, source, p)
  {
    hide IsTerrible;
  }

  lemma SlotsKnown(h: Hashes, s: State)
    requires Consistent(h, s)
    ensures forall slot :: slot in s.vvNew ==> s.vvNew[slot] in s.mapInfo && s.vvNew[slot] < s.nIdCount
    ensures s.nIdCount !in s.mapInfo
  {
  }
}
