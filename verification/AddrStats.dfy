/** What the address manager records about an address: attempts, times, services, and when an address is terrible. */
module AddrStats {
  import opened AddrTable
  import opened AddrEffects

  /** Only the info of `id` differs. */
  ghost predicate OnlyInfo(s: State, t: State, id: nat) {
    id in s.mapInfo && id in t.mapInfo && t == s.(mapInfo := s.mapInfo[id := t.mapInfo[id]])
  }

  // ----- Attempts -----

  /** An attempt is timed always, and counted only as the first since the last success of any address. */
  lemma AttemptMoves(s: State, svc: Service, countFailure: bool, time: int)
    ensures var t := Attempt(s, svc, countFailure, time);
            if !FindsService(s, svc) then t == s
            else
              var id := s.mapAddr[svc.addr];
              && OnlyInfo(s, t, id)
              && var was, now := s.mapInfo[id], t.mapInfo[id];
                 && now ==
                    was.(nLastTry := time, nLastCountAttempt := now.nLastCountAttempt, nAttempts := now.nAttempts)
                 && (countFailure && was.nLastCountAttempt < s.nLastGood ==>
                       now.nLastCountAttempt == time && now.nAttempts == was.nAttempts + 1)
                 && (!countFailure || was.nLastCountAttempt >= s.nLastGood ==>
                       now.nLastCountAttempt == was.nLastCountAttempt && now.nAttempts == was.nAttempts)
  {
  }

  function Attempts(s: State, svc: Service, times: seq<int>): State {
    if times == [] then s else Attempt(Attempts(s, svc, times[..|times| - 1]), svc, true, times[|times| - 1])
  }

  /** Between two successes any number of failed attempts counts as one, unless the clock runs back. */
  lemma {:induction false} AttemptsCountOnce(s: State, svc: Service, times: seq<int>)
    requires FindsService(s, svc) && forall i :: 0 <= i < |times| ==> times[i] >= s.nLastGood
    ensures var id, t := s.mapAddr[svc.addr], Attempts(s, svc, times);
            && FindsService(t, svc) && t.nLastGood == s.nLastGood && t.mapAddr == s.mapAddr
            && t.mapInfo[id].nAttempts == s.mapInfo[id].nAttempts
                 + (if times != [] && s.mapInfo[id].nLastCountAttempt < s.nLastGood then 1 else 0)
            && (times != [] ==> t.mapInfo[id].nLastTry == times[|times| - 1])
            && (if times == [] then t.mapInfo[id].nLastCountAttempt == s.mapInfo[id].nLastCountAttempt
                else t.mapInfo[id].nLastCountAttempt >= s.nLastGood)
    decreases |times|
  {
    if times != [] {
      AttemptsCountOnce(s, svc, times[..|times| - 1]);
    }
  }

  // ----- Times and services -----

  /** A connection moves the time on, but not by twenty minutes or less. */
  lemma ConnectedMoves(s: State, svc: Service, time: int)
    ensures var t := Connected(s, svc, time);
            if FindsService(s, svc) && time > s.mapInfo[s.mapAddr[svc.addr]].address.nTime + 1200 then
              var id := s.mapAddr[svc.addr];
              && OnlyInfo(s, t, id)
              && t.mapInfo[id] == s.mapInfo[id].(address := s.mapInfo[id].address.(nTime := time))
            else t == s
  {
  }

  /** Services are replaced as a whole, for the exact address and port only. */
  lemma SetServicesMoves(s: State, svc: Service, services: set<nat>)
    ensures var t := SetServices(s, svc, services);
            if !FindsService(s, svc) then t == s
            else
              var id := s.mapAddr[svc.addr];
              && OnlyInfo(s, t, id)
              && t.mapInfo[id] == s.mapInfo[id].(address := s.mapInfo[id].address.(nServices := services))
  {
  }

  /**
   * Hearing of a known address again adds services. It moves the time to the announced one less the penalty, and only
   * if that is by more than an hour for a recent announcement and a day for an older one.
   */
  lemma RefreshedTimes(info: Info, addr: Address, penalty: int, now: int)
    ensures var r := Refreshed(info, addr, penalty, now);
            && r == info.(address := r.address) && r.address.service == info.address.service
            && r.address.nServices == info.address.nServices + addr.nServices
            && var gap := if addr.nTime > now - 86400 then 3600 else 86400;
               if addr.nTime == 0 || (info.address.nTime != 0 && addr.nTime - penalty - info.address.nTime <= gap)
               then r.address.nTime == info.address.nTime
               else r.address.nTime == if addr.nTime > penalty then addr.nTime - penalty else 0
  {
  }

  // ----- Terrible addresses -----

  /** Five grounds, none of which counts within a minute of an attempt. */
  lemma TerribleIff(info: Info, now: int)
    ensures IsTerrible(info, now) <==>
              && (info.nLastTry == 0 || now - info.nLastTry > 60)
              && (|| info.address.nTime - now > 600 || info.address.nTime == 0 || now - info.address.nTime > 2592000
                  || (info.nLastSuccess == 0 && info.nAttempts >= 3)
                  || (now - info.nLastSuccess > 604800 && info.nAttempts >= 10))
  {
  }

  /** An address seen this month and reached this week is not terrible, however often it failed since. */
  lemma ReachedThisWeek(info: Info, now: int)
    requires now - 2592000 <= info.address.nTime <= now && info.address.nTime != 0
    requires info.nLastSuccess != 0 && now - info.nLastSuccess <= 604800
    ensures !IsTerrible(info, now)
  {
  }

  // ----- Hearing of a known address again -----

  /** A known address may get another new slot: the announcement is news, and its reference count allows it. */
  predicate Spreads(info: Info, addr: Address, lucky: bool) {
    && addr.nTime != 0 && (info.address.nTime == 0 || addr.nTime > info.address.nTime)
    && !info.fInTried && info.nRefCount < 8 && lucky
  }

  /** A known address keeps its slots and gains one exactly if it spreads to a slot that is free or badly held. */
  lemma HeardAgain(h: Hashes, s: State, addr: Address, source: NetAddr, penalty: int, now: int, lucky: bool)
    requires Consistent(h, s) && Finds(s, addr.service.addr)
    ensures var t := Add(h, s, addr, source, penalty, true, now, lucky).0;
            var id := s.mapAddr[addr.service.addr];
            var p := if addr.service.addr == source then 0 else penalty;
            var info := Refreshed(s.mapInfo[id], addr, p, now);
            var slot := SlotFor(h, s, s.mapInfo[id].address.service, source);
            && id in t.mapInfo && t.mapInfo[id].address == info.address && t.mapInfo[id].fInTried == info.fInTried
            && if && Spreads(info, addr, lucky)
                  && (slot in s.vvNew && s.vvNew[slot] in s.mapInfo && s.vvNew[slot] != id ==>
                        IsTerrible(s.mapInfo[s.vvNew[slot]], now))
               then t.vvNew == s.vvNew[slot := id] && LosesOnly(s, t, Holder(s.vvNew, slot) - {id})
               else t.vvNew == s.vvNew && t.mapInfo.Keys == s.mapInfo.Keys
  {
    hide ConsistentBut, Refreshed, Place, NewSlot, GetNewBucket, IsTerrible, InfosKept;
    var id := s.mapAddr[addr.service.addr];
    var p := if addr.service.addr == source then 0 else penalty;
    var info := Refreshed(s.mapInfo[id], addr, p, now);
    RefreshedShape(s.mapInfo[id], addr, p, now);
    KnownIsCounted(h, s, id);
    var t := Touch(s, id, info);
    TouchOk(h, s, id, info, {}, 0);
    if !info.fInTried && info.nRefCount != 8 {
      PlaceOk(h, t, id, source, now, {});
      PlaceMoves(h, t, id, source, now, {});
      var slot := SlotFor(h, s, s.mapInfo[id].address.service, source);
      PlacedIsSpread(s, t, Place(h, t, id, source, now, {}), id, slot, now);
    }
  }

  /** What placing a known id does, told from the manager before its info was refreshed. */
  lemma PlacedIsSpread(s: State, t: State, r: State, id: nat, slot: Slot, now: int)
    requires id in s.mapInfo && OnlyInfo(s, t, id) && !t.mapInfo[id].fInTried && InfosKept(t.mapInfo, r.mapInfo)
    requires forall q :: q in s.vvNew ==> s.vvNew[q] in s.mapInfo
    requires if slot !in t.vvNew || t.vvNew[slot] == id || IsTerrible(t.mapInfo[t.vvNew[slot]], now)
             then id in r.mapInfo && r.vvNew == t.vvNew[slot := id] && LosesOnly(t, r, Holder(t.vvNew, slot) - {id})
             else r.vvNew == t.vvNew && id in r.mapInfo && LosesOnly(t, r, {id})
    ensures id in r.mapInfo && r.mapInfo[id].address == t.mapInfo[id].address && !r.mapInfo[id].fInTried
    ensures if slot in s.vvNew && s.vvNew[slot] in s.mapInfo && s.vvNew[slot] != id ==>
                 IsTerrible(s.mapInfo[s.vvNew[slot]], now)
            then r.vvNew == s.vvNew[slot := id] && LosesOnly(s, r, Holder(s.vvNew, slot) - {id})
            else r.vvNew == s.vvNew && r.mapInfo.Keys == s.mapInfo.Keys
  {
    hide IsTerrible;
  }

  lemma KnownIsCounted(h: Hashes, s: State, id: nat)
    requires Consistent(h, s) && id in s.mapInfo
    ensures 0 <= s.mapInfo[id].nRefCount <= 8 && (!s.mapInfo[id].fInTried ==> s.mapInfo[id].nRefCount > 0)
    ensures forall slot :: slot in s.vvNew ==> s.vvNew[slot] in s.mapInfo
  {
    hide IdsOk, AddrOk, RandomOk, TriedSlotsOk, CountsOk, TriedSlot, NewSlot;
    RefCountBound(h, s, id);
    assert Settled(h, s.nKey, s.mapInfo[id], id, s.vvTried);
  }
}
