/** How pending collisions are decided, told from clock readings and tables alone. */
module AddrResolve {
  import opened AddrTable
  import opened AddrEffects

  /** The occupant was reached within the last four hours. */
  predicate Alive(held: Info, now: int) { now - held.nLastSuccess < 4 * 60 * 60 }

  /**
   * The occupant was tried within four hours, more than a minute ago; or it was not, and the newcomer has waited for
   * more than forty minutes.
   */
  predicate GivenUp(held: Info, newcomer: Info, now: int) {
    var sinceTry := now - held.nLastTry;
    60 < sinceTry < 4 * 60 * 60 || (sinceTry >= 4 * 60 * 60 && now - newcomer.nLastSuccess > 40 * 60)
  }

  /** The id is in its tried slot, whoever was there is back in new, and no other id changes but for its places. */
  ghost predicate Displaced(h: Hashes, s: State, t: State, id: nat, now: int)
    requires id in s.mapInfo
  {
    var slot := TriedSlot(h, s.nKey, s.mapInfo[id].address.service);
    && id in t.mapInfo && t.mapInfo[id].fInTried && t.vvTried == s.vvTried[slot := id]
    && (slot in s.vvTried && s.vvTried[slot] != id ==>
          s.vvTried[slot] in t.mapInfo && !t.mapInfo[s.vvTried[slot]].fInTried)
    && InfosKept(s.mapInfo[id := Succeeded(s.mapInfo[id], now).(fInTried := true)], t.mapInfo)
    && t.nLastGood == now && t.collisions == s.collisions - {id} && t.nKey == s.nKey
  }

  /** What becomes of one pending collision. */
  ghost predicate Decided(h: Hashes, s: State, t: State, id: nat, now: int, valid: Service -> bool) {
    if id !in s.mapInfo || !valid(s.mapInfo[id].address.service) then t == s.(collisions := s.collisions - {id})
    else
      var slot := TriedSlot(h, s.nKey, s.mapInfo[id].address.service);
      if slot !in s.vvTried then Displaced(h, s, t, id, now)
      else
        && s.vvTried[slot] in s.mapInfo
        && var held := s.mapInfo[s.vvTried[slot]];
           if Alive(held, now) then t == s.(collisions := s.collisions - {id})
           else if GivenUp(held, s.mapInfo[id], now) then Displaced(h, s, t, id, now)
           else t == s
  }

  lemma ReplacedMoves(h: Hashes, s: State, id: nat, now: int)
    requires Consistent(h, s) && id in s.mapInfo
    ensures Displaced(h, s, Replaced(h, s, id, now), id, now)
  {
    hide IdsOk, RandomOk, NewSlotsOk, RefsOk, CountsOk, TriedSlot, Good, InfosKept;
    var svc := s.mapInfo[id].address.service;
    GoodMoves(h, s, svc, false, now);
    var touched := Succeeded(s.mapInfo[id], now);
    if s.mapInfo[id].fInTried {
      assert Settled(h, s.nKey, s.mapInfo[id], id, s.vvTried);
      assert touched.(fInTried := true) == touched;
      KeptAsIs(s.mapInfo[id := touched]);
    }
  }

  lemma KeptAsIs(m: map<nat, Info>)
    ensures InfosKept(m, m)
  {
  }

  /** One collision is decided by its occupant's and its newcomer's time stamps. */
  lemma ResolveMoves(h: Hashes, s: State, id: nat, now: int, valid: Service -> bool)
    requires Consistent(h, s)
    ensures Decided(h, s, ResolveOne(h, s, id, now, valid), id, now, valid)
  {
    hide TriedSlot, Replaced, Displaced, ConsistentBut;
    if id in s.mapInfo {
      ReplacedMoves(h, s, id, now);
      TriedHolder(h, s, TriedSlot(h, s.nKey, s.mapInfo[id].address.service));
    }
  }

  lemma TriedHolder(h: Hashes, s: State, slot: Slot)
    requires Consistent(h, s)
    ensures slot in s.vvTried ==> s.vvTried[slot] in s.mapInfo
  {
  }

  // ----- All collisions -----

  /** The collisions are decided one after the other, in id order. */
  ghost predicate DecidedAll(h: Hashes, s: State, t: State, todo: set<nat>, now: int, valid: Service -> bool)
    decreases |todo|
  {
    if todo == {} then t == s else
      exists u :: Decided(h, s, u, Least(todo), now, valid) && DecidedAll(h, u, t, todo - {Least(todo)}, now, valid)
  }

  lemma {:induction false} ResolveAllMoves(h: Hashes, s: State, todo: set<nat>, now: int, valid: Service -> bool)
    requires Sound(h, s)
    ensures DecidedAll(h, s, Resolve(h, s, todo, now, valid), todo, now, valid)
    decreases |todo|
  {
    hide Consistent, CollisionsOk, ResolveOne, Decided;
    if todo != {} {
      var id := Least(todo);
      ResolveOneOk(h, s, id, now, valid);
      ResolveMoves(h, s, id, now, valid);
      ResolveAllMoves(h, ResolveOne(h, s, id, now, valid), todo - {id}, now, valid);
    }
  }

  /** The slot is held by an id that was reached within four hours. */
  ghost predicate HeldAlive(s: State, slot: Slot, now: int) {
    slot in s.vvTried && s.vvTried[slot] in s.mapInfo && Alive(s.mapInfo[s.vvTried[slot]], now)
  }

  lemma DecisionProtects(h: Hashes, s: State, t: State, id: nat, now: int, valid: Service -> bool, slot: Slot)
    requires Consistent(h, s) && Decided(h, s, t, id, now, valid) && HeldAlive(s, slot, now) && Consistent(h, t)
    ensures HeldAlive(t, slot, now) && t.vvTried[slot] == s.vvTried[slot]
  {
    hide TriedSlot, IdsOk, AddrOk, RandomOk, NewSlotsOk, RefsOk, CountsOk, SettledBut;
  }

  /** Nobody who was reached within four hours loses a place in the tried table. */
  lemma {:induction false} ResolveProtects(h: Hashes, s: State, todo: set<nat>, now: int, valid: Service -> bool,
                                           slot: Slot)
    requires Sound(h, s) && HeldAlive(s, slot, now)
    ensures var t := Resolve(h, s, todo, now, valid); HeldAlive(t, slot, now) && t.vvTried[slot] == s.vvTried[slot]
    decreases |todo|
  {
    hide Consistent, CollisionsOk, ResolveOne, Decided, HeldAlive;
    if todo != {} {
      var id := Least(todo);
      ResolveOneOk(h, s, id, now, valid);
      ResolveMoves(h, s, id, now, valid);
      var t := ResolveOne(h, s, id, now, valid);
      DecisionProtects(h, s, t, id, now, valid, slot);
      ResolveProtects(h, t, todo - {id}, now, valid, slot);
    }
  }
}
