/**
  The address manager as an object: each method does what the corresponding step on
  values does, with the tables held in fixed arrays where -1 marks a free position.
 */
module AddrMan {

  import T = AddrTable
  import opened AddrTable
  import opened AddrDump
  import opened AddrResolve
  import opened Numbers

  /** The occupied positions of a table. */
  ghost function Table(a: array2<int>): map<Slot, nat>
    reads a
  {
    map slot | slot in Positions(a.Length0, a.Length1) && a[slot.bucket, slot.pos] >= 0 :: a[slot.bucket, slot.pos]
  }

  lemma TableAt(a: array2<int>, slot: Slot)
    requires slot.bucket < a.Length0 && slot.pos < a.Length1
    ensures slot in Table(a) <==> a[slot.bucket, slot.pos] >= 0
    ensures slot in Table(a) ==> Table(a)[slot] == a[slot.bucket, slot.pos]
  {
  }

  ghost predicate TableOk(a: array2<int>)
    reads a
  {
    forall b, p :: 0 <= b < a.Length0 && 0 <= p < a.Length1 ==> a[b, p] >= -1
  }

  lemma TableEmpty(a: array2<int>)
    requires forall b, p :: 0 <= b < a.Length0 && 0 <= p < a.Length1 ==> a[b, p] == -1
    ensures TableOk(a) && Table(a) == map[]
  {
  }

  method Put(a: array2<int>, slot: Slot, id: nat)
    requires slot.bucket < a.Length0 && slot.pos < a.Length1 && TableOk(a)
    modifies a
    ensures TableOk(a) && Table(a) == old(Table(a))[slot := id]
  {
    a[slot.bucket, slot.pos] := id;
  }

  method Free(a: array2<int>, slot: Slot)
    requires slot.bucket < a.Length0 && slot.pos < a.Length1 && TableOk(a)
    modifies a
    ensures TableOk(a) && Table(a) == old(Table(a)) - {slot}
  {
    a[slot.bucket, slot.pos] := -1;
  }

  lemma IdAtPosition(m: map<nat, Info>, vRandom: seq<nat>, id: nat)
    requires RandomOk(m, vRandom) && id in m
    ensures 0 <= m[id].nRandomPos < |vRandom|
  {
  }

  const ADDRMAN_GETADDR_MAX_PCT := 23
  const ADDRMAN_GETADDR_MAX := 2500

  /** An address of a known id that is not terrible. */
  ghost predicate Offered(m: map<nat, Info>, mapAddr: map<NetAddr, nat>, addr: Address, now: int) {
    && addr.service.addr in mapAddr && mapAddr[addr.service.addr] in m
    && m[mapAddr[addr.service.addr]].address == addr && !IsTerrible(m[mapAddr[addr.service.addr]], now)
  }

  /** The addresses drawn so far are those of the ids already visited that are not terrible, in order of position. */
  ghost predicate Drawn(m: map<nat, Info>, ids: seq<nat>, vAddr: seq<Address>, from: seq<nat>, now: int) {
    && |from| == |vAddr|
    && (forall i :: 0 <= i < |from| ==>
         from[i] < |ids| && ids[from[i]] in m
         && m[ids[from[i]]].address == vAddr[i] && !IsTerrible(m[ids[from[i]]], now))
    && (forall i, j :: 0 <= i < j < |from| ==> from[i] < from[j])
    && (forall p :: 0 <= p < |ids| && ids[p] in m && !IsTerrible(m[ids[p]], now) ==> p in from)
  }

  lemma NoneDrawn(m: map<nat, Info>, ids: seq<nat>, now: int)
    ensures Drawn(m, ids[..0], [], [], now)
  {
  }

  lemma DrawOne(m: map<nat, Info>, n: map<nat, Info>, ids: seq<nat>, id: nat, vAddr: seq<Address>, from: seq<nat>,
                now: int)
    requires Drawn(m, ids, vAddr, from, now) && Reshuffled(m, n) && id in n
    ensures IsTerrible(n[id], now) ==> Drawn(n, ids + [id], vAddr, from, now)
    ensures !IsTerrible(n[id], now) ==> Drawn(n, ids + [id], vAddr + [n[id].address], from + [|ids|], now)
  {
    hide IsTerrible;
    forall i | 0 <= i < |from|
      ensures (ids + [id])[from[i]] == ids[from[i]]
      ensures IsTerrible(n[ids[from[i]]], now) == IsTerrible(m[ids[from[i]]], now)
    {
      PositionIrrelevant(m[ids[from[i]]], n[ids[from[i]]], now);
    }
    forall p | 0 <= p < |ids| && ids[p] in n && !IsTerrible(n[ids[p]], now)
      ensures p in from && (ids + [id])[p] == ids[p]
    {
      PositionIrrelevant(m[ids[p]], n[ids[p]], now);
    }
  }

  lemma PositionIrrelevant(a: Info, b: Info, now: int)
    requires b == a.(nRandomPos := b.nRandomPos)
    ensures IsTerrible(a, now) == IsTerrible(b, now)
  {
  }

  lemma Listed(h: Hashes, s: State, n: nat)
    requires Sound(h, s) && n < |s.vRandom|
    ensures RandomOk(s.mapInfo, s.vRandom)
  {
  }

  lemma DrawnOk(h: Hashes, s: State, n: nat, vAddr: seq<Address>, from: seq<nat>, now: int)
    requires Sound(h, s) && n <= |s.vRandom| && Drawn(s.mapInfo, s.vRandom[..n], vAddr, from, now)
    ensures forall i :: 0 <= i < |vAddr| ==> Offered(s.mapInfo, s.mapAddr, vAddr[i], now)
    ensures forall i, j :: 0 <= i < j < |vAddr| ==> vAddr[i].service.addr != vAddr[j].service.addr
    ensures n == |s.vRandom| ==>
              forall id :: id in s.mapInfo && !IsTerrible(s.mapInfo[id], now) ==> s.mapInfo[id].address in vAddr
  {
    hide IsTerrible, IdsOk, TriedSlotsOk, NewSlotsOk, RefsOk, SettledBut, CountsOk, CollisionsOk;
    forall i | 0 <= i < |vAddr|
      ensures Offered(s.mapInfo, s.mapAddr, vAddr[i], now) && s.mapAddr[vAddr[i].service.addr] == s.vRandom[from[i]]
    {
      assert s.vRandom[..n][from[i]] == s.vRandom[from[i]];
    }
    forall i, j | 0 <= i < j < |vAddr|
      ensures s.vRandom[from[i]] != s.vRandom[from[j]]
    {
      assert s.mapInfo[s.vRandom[from[i]]].nRandomPos == from[i] && s.mapInfo[s.vRandom[from[j]]].nRandomPos == from[j];
    }
    forall id | n == |s.vRandom| && id in s.mapInfo && !IsTerrible(s.mapInfo[id], now)
      ensures s.mapInfo[id].address in vAddr
    {
      var p := s.mapInfo[id].nRandomPos;
      assert s.vRandom[..n][p] == id && p in from;
      var i :| 0 <= i < |from| && from[i] == p;
      assert vAddr[i] == s.mapInfo[id].address;
    }
  }

  /** A draw below 2^n is zero once in 2^n times. */
  predicate OneIn(n: nat, draw: nat) {
    draw % Pow2(n) == 0
  }

  /** The stochastic test for a known address: each reference makes the next one twice as hard. */
  predicate Lucky(s: State, addr: NetAddr, draw: nat) {
    Finds(s, addr) ==> OneIn(Max0(s.mapInfo[s.mapAddr[addr]].nRefCount), draw)
  }

  class CAddrMan {
    const h: Hashes
    var nKey: Key
    var nIdCount: nat
    var mapInfo: map<nat, Info>
    var mapAddr: map<NetAddr, nat>
    var vRandom: seq<nat>
    var nTried: int
    const vvTried: array2<int>
    var nNew: int
    const vvNew: array2<int>
    var nLastGood: int
    var collisions: set<nat>

    ghost predicate Shaped()
      reads this, vvTried, vvNew
    {
      && vvTried != vvNew
      && vvTried.Length0 == ADDRMAN_TRIED_BUCKET_COUNT && vvTried.Length1 == ADDRMAN_BUCKET_SIZE && TableOk(vvTried)
      && vvNew.Length0 == ADDRMAN_NEW_BUCKET_COUNT && vvNew.Length1 == ADDRMAN_BUCKET_SIZE && TableOk(vvNew)
    }

    /** The manager's state as a value. */
    ghost function Abs(): State
      reads this, vvTried, vvNew
    {
      State(nKey, nIdCount, mapInfo, mapAddr, vRandom, nTried, Table(vvTried), nNew, Table(vvNew), nLastGood,
        collisions)
    }

    /** The invariant between calls: the debug check's structure and a sound collision set. */
    ghost predicate Valid()
      reads this, vvTried, vvNew
    {
      Shaped() && Sound(h, Abs())
    }

    constructor (hashes: Hashes, key: Key)
      ensures Valid() && Abs() == Cleared(key) && StampsOk(Abs()) && h == hashes
      ensures fresh(vvTried) && fresh(vvNew)
      ensures vvTried.Length0 == 256 && vvNew.Length0 == 1024 && vvTried.Length1 == vvNew.Length1 == 64
    {
      hide Sound, StampsOk, Table;
      h := hashes;
      nKey, nIdCount, mapInfo, mapAddr, vRandom := key, 0, map[], map[], [];
      nTried, nNew, nLastGood, collisions := 0, 0, 1, {};
      vvTried := new int[ADDRMAN_TRIED_BUCKET_COUNT, ADDRMAN_BUCKET_SIZE]((_, _) => -1);
      vvNew := new int[ADDRMAN_NEW_BUCKET_COUNT, ADDRMAN_BUCKET_SIZE]((_, _) => -1);
      new;
      TableEmpty(vvTried);
      TableEmpty(vvNew);
      ClearedOk(h, key);
    }

    method Find(addr: NetAddr) returns (found: bool, id: nat)
      ensures found <==> Finds(Abs(), addr)
      ensures found ==> id == mapAddr[addr]
      ensures AddrOk(mapInfo, mapAddr) ==>
                && (found <==> exists i :: i in mapInfo && mapInfo[i].address.service.addr == addr)
                && (found ==> forall i :: i in mapInfo ==> (mapInfo[i].address.service.addr == addr <==> i == id))
    {
      if addr in mapAddr && mapAddr[addr] in mapInfo {
        found, id := true, mapAddr[addr];
      } else {
        found, id := false, 0;
      }
    }

    method Create(addr: Address, source: NetAddr) returns (id: nat)
      modifies this
      ensures id == old(nIdCount) && Abs() == T.Create(old(Abs()), addr, source)
    {
      hide Table;
      id := nIdCount;
      nIdCount := nIdCount + 1;
      mapInfo := mapInfo[id := Info(addr, source, 0, 0, 0, 0, 0, false, -1)];
      mapAddr := mapAddr[addr.service.addr := id];
      mapInfo := mapInfo[id := mapInfo[id].(nRandomPos := |vRandom|)];
      vRandom := vRandom + [id];
      assert mapInfo == old(mapInfo)[id := Info(addr, source, 0, 0, 0, 0, 0, false, |old(vRandom)|)];
    }

    method SwapRandom(i: nat, j: nat)
      requires RandomOk(mapInfo, vRandom) && i < |vRandom| && j < |vRandom|
      modifies this
      ensures Abs() == T.SwapRandom(old(Abs()), i, j)
    {
      hide Table;
      if i == j {
        return;
      }
      var id1, id2 := vRandom[i], vRandom[j];
      assert id1 in mapInfo && id2 in mapInfo;
      mapInfo := mapInfo[id1 := mapInfo[id1].(nRandomPos := j)];
      mapInfo := mapInfo[id2 := mapInfo[id2].(nRandomPos := i)];
      vRandom := vRandom[i := id2];
      vRandom := vRandom[j := id1];
    }

    method Delete(id: nat)
      requires id in mapInfo && RandomOk(mapInfo, vRandom)
      requires !mapInfo[id].fInTried && mapInfo[id].nRefCount == 0
      modifies this
      ensures Abs() == T.Delete(old(Abs()), id)
    {
      hide Table, T.SwapRandom, RandomOk;
      var info := mapInfo[id];
      IdAtPosition(mapInfo, vRandom, id);
      SwapRandomOk(Abs(), info.nRandomPos, |vRandom| - 1);
      SwapRandom(info.nRandomPos, |vRandom| - 1);
      vRandom := vRandom[..|vRandom| - 1];
      mapAddr := mapAddr - {info.address.service.addr};
      mapInfo := mapInfo - {id};
      nNew := nNew - 1;
    }

    method ClearNew(slot: Slot)
      requires Shaped() && slot.bucket < ADDRMAN_NEW_BUCKET_COUNT && slot.pos < ADDRMAN_BUCKET_SIZE
      requires RandomOk(mapInfo, vRandom)
      requires slot in Table(vvNew) ==>
                 var id := Table(vvNew)[slot];
                 id in mapInfo && mapInfo[id].nRefCount > 0 && !mapInfo[id].fInTried
      modifies this, vvNew
      ensures Shaped()
      ensures Abs() == T.ClearNew(old(Abs()), slot)
    {
      hide Table, T.Delete, TableOk;
      TableAt(vvNew, slot);
      if vvNew[slot.bucket, slot.pos] != -1 {
        TableNonNegative(vvNew, slot);
        var id := vvNew[slot.bucket, slot.pos];
        var info := mapInfo[id];
        assert info.nRefCount > 0;
        mapInfo := mapInfo[id := info.(nRefCount := info.nRefCount - 1)];
        Free(vvNew, slot);
        InPlaceOk(old(mapInfo), id, mapInfo[id], old(Abs()));
        if info.nRefCount - 1 == 0 {
          Delete(id);
        }
      }
    }

    /** Takes an untried id out of every new bucket. */
    method RemoveFromNew(id: nat)
      requires Shaped() && id in mapInfo && !mapInfo[id].fInTried
      requires NewSlotsOk(h, nKey, mapInfo, Table(vvNew)) && RefsOk(mapInfo, Table(vvNew))
      modifies this, vvNew
      ensures Shaped() && Abs() == Loosen(old(Abs()), id)
    {
      hide Table, TableOk, NewSlotsOk, RefsOk, SlotsOf, Partly, Without;
      ghost var m, t := mapInfo, Table(vvNew);
      PartlyStart(m, t, id);
      for bucket := 0 to ADDRMAN_NEW_BUCKET_COUNT
        invariant Shaped() && Table(vvNew) == Partly(t, id, bucket)
        invariant mapInfo == WithRefs(m, id, |SlotsOf(Table(vvNew), id)|)
        invariant Abs() == old(Abs()).(mapInfo := mapInfo, vvNew := Table(vvNew))
      {
        var info := mapInfo[id];
        var slot := NewSlot(h, nKey, info.address.service, bucket);
        TableAt(vvNew, slot);
        PartlyStep(h, nKey, m, t, id, bucket);
        if vvNew[slot.bucket, slot.pos] == id {
          Free(vvNew, slot);
          mapInfo := mapInfo[id := info.(nRefCount := info.nRefCount - 1)];
        }
      }
      PartlyEnd(h, nKey, m, t, id);
      nNew := nNew - 1;
      assert mapInfo[id].nRefCount == 0;
    }

    /** Enters an id into a new slot and counts the reference. */
    method EnterNew(id: nat, slot: Slot)
      requires Shaped() && id in mapInfo && slot.bucket < ADDRMAN_NEW_BUCKET_COUNT && slot.pos < ADDRMAN_BUCKET_SIZE
      modifies this, vvNew
      ensures Shaped() && Abs() == Enter(old(Abs()), id, slot)
    {
      hide Table, TableOk;
      mapInfo := mapInfo[id := mapInfo[id].(nRefCount := mapInfo[id].nRefCount + 1)];
      Put(vvNew, slot, id);
    }

    /** Takes the occupant out of a tried slot. */
    method LeaveTried(slot: Slot) returns (id: nat)
      requires Shaped() && slot.bucket < ADDRMAN_TRIED_BUCKET_COUNT && slot.pos < ADDRMAN_BUCKET_SIZE
      requires slot in Table(vvTried) && Table(vvTried)[slot] in mapInfo
      modifies this, vvTried
      ensures Shaped() && id == old(Abs()).vvTried[slot] && Abs() == Untry(old(Abs()), slot)
    {
      hide Table, TableOk;
      TableAt(vvTried, slot);
      id := vvTried[slot.bucket, slot.pos];
      mapInfo := mapInfo[id := mapInfo[id].(fInTried := false)];
      Free(vvTried, slot);
      nTried := nTried - 1;
    }

    /** Sends the occupant of a tried slot back to its new slot. */
    method EvictTried(slot: Slot, ghost loose: set<nat>, ghost owed: int)
      requires Shaped() && ConsistentBut(h, Abs(), loose, owed)
      requires slot.bucket < ADDRMAN_TRIED_BUCKET_COUNT && slot.pos < ADDRMAN_BUCKET_SIZE
      requires slot in Table(vvTried)
      modifies this, vvTried, vvNew
      ensures Shaped() && Abs() == Evict(h, old(Abs()), slot, loose, owed)
    {
      hide Table, TableOk, T.ClearNew, ConsistentBut, NewSlot, GetNewBucket, RandomOk, InfosKept, TriedSlot;
      UntryOk(h, Abs(), slot, loose, owed);
      var id := LeaveTried(slot);
      ghost var u := Abs();
      assert HomeSlot(h, nKey, mapInfo[id]) == HomeSlot(h, nKey, old(mapInfo)[id]);

      var home := HomeSlot(h, nKey, mapInfo[id]);
      HomeInRange(h, nKey, mapInfo[id]);
      TableAt(vvNew, home);
      SlotOccupant(h, u, home, loose + {id}, owed + 1);
      ClearNew(home);
      ClearNewOk(h, u, home, loose + {id}, owed + 1);
      ClearNewKeeps(u, home);
      LooseIn(h, Abs(), loose + {id}, owed + 1);
      TableAt(vvNew, home);
      assert vvNew[home.bucket, home.pos] < 0;

      EnterNew(id, home);
      assert mapInfo[id].nRefCount == 1;
      nNew := nNew + 1;
    }

    method MakeTried(id: nat)
      requires Shaped() && Consistent(h, Abs()) && id in mapInfo && !mapInfo[id].fInTried
      modifies this, vvTried, vvNew
      ensures Shaped() && Abs() == T.MakeTried(h, old(Abs()), id)
    {
      hide Table, TableOk, T.ClearNew, IdsOk, AddrOk, TriedSlotsOk, NewSlotsOk;
      hide RefsOk, CountsOk, SettledBut, RandomOk, Evict, TriedSlot, Without;
      var slot := TriedSlot(h, nKey, mapInfo[id].address.service);
      TriedInRange(h, nKey, mapInfo[id].address.service);
      LoosenOk(h, Abs(), id);
      RemoveFromNew(id);
      TableAt(vvTried, slot);
      if vvTried[slot.bucket, slot.pos] != -1 {
        TableNonNegative(vvTried, slot);
        EvictOk(h, Abs(), slot, {id}, 1);
        EvictTried(slot, {id}, 1);
        TableAt(vvTried, slot);
        assert vvTried[slot.bucket, slot.pos] < 0;
      }
      Put(vvTried, slot, id);
      nTried := nTried + 1;
      mapInfo := mapInfo[id := mapInfo[id].(fInTried := true)];
    }

    /** Whether an id is in some new bucket, scanning from a random one. */
    method FindNewBucket(id: nat) returns (found: bool)
      requires Shaped() && id in mapInfo && Consistent(h, Abs())
      ensures found <==> SlotsOf(Table(vvNew), id) != {}
    {
      hide Table, TableOk, NewSlot, Consistent, Scanned, NewAt;
      var nRnd :| 0 <= nRnd < ADDRMAN_NEW_BUCKET_COUNT;
      ScannedNone(h, nKey, mapInfo[id], Table(vvNew), id, nRnd);
      for n := 0 to ADDRMAN_NEW_BUCKET_COUNT
        invariant Scanned(h, nKey, mapInfo[id], Table(vvNew), id, nRnd, n)
      {
        var bucket := (n + nRnd) % ADDRMAN_NEW_BUCKET_COUNT;
        var slot := NewSlot(h, nKey, mapInfo[id].address.service, bucket);
        NewInRange(h, nKey, mapInfo[id].address.service, bucket);
        TableAt(vvNew, slot);
        if vvNew[slot.bucket, slot.pos] == id {
          assert slot in SlotsOf(Table(vvNew), id);
          return true;
        }
        ScannedStep(h, nKey, mapInfo[id], Table(vvNew), id, nRnd, n);
      }
      ScannedAll(h, Abs(), id, nRnd);
      found := false;
    }

    method Good_(svc: Service, testBeforeEvict: bool, time: int)
      requires Valid()
      modifies this, vvTried, vvNew
      ensures Valid() && Abs() == Good(h, old(Abs()), svc, testBeforeEvict, time)
      ensures Keeps(old(Abs()), Abs())
    {
      hide Table, TableOk, TriedSlot, T.MakeTried, ConsistentBut, CollisionsOk, Keeps, SlotsOf;
      GoodOk(h, Abs(), svc, testBeforeEvict, time);
      ClockOk(h, Abs(), time);
      nLastGood := time;
      var found, id := Find(svc.addr);
      if !found {
        return;
      }
      var info := mapInfo[id];
      if info.address.service != svc {
        return;
      }
      mapInfo := mapInfo[id := info.(nLastSuccess := time, nLastTry := time, nAttempts := 0)];
      if info.fInTried {
        return;
      }
      TouchOk(h, old(Abs()).(nLastGood := time), id, mapInfo[id], {}, 0);
      var inBucket := FindNewBucket(id);
      UntriedIsInABucket(h, Abs(), id);
      assert inBucket;
      TestOrMove(id, testBeforeEvict);
    }

    /** Moves an id to tried, or notes a collision if the occupant is to be tested first. */
    method TestOrMove(id: nat, testBeforeEvict: bool)
      requires Shaped() && Consistent(h, Abs()) && id in mapInfo && !mapInfo[id].fInTried
      modifies this, vvTried, vvNew
      ensures Shaped()
      ensures var s := old(Abs());
              Abs() == if testBeforeEvict && TriedSlot(h, s.nKey, s.mapInfo[id].address.service) in s.vvTried then
                         if |s.collisions| < ADDRMAN_SET_TRIED_COLLISION_SIZE then s.(collisions := s.collisions + {id})
                         else s
                       else T.MakeTried(h, s, id)
    {
      hide Table, TableOk, TriedSlot, T.MakeTried, ConsistentBut;
      var slot := TriedSlot(h, nKey, mapInfo[id].address.service);
      TriedInRange(h, nKey, mapInfo[id].address.service);
      TableAt(vvTried, slot);
      if testBeforeEvict && vvTried[slot.bucket, slot.pos] != -1 {
        TableNonNegative(vvTried, slot);
        if |collisions| < ADDRMAN_SET_TRIED_COLLISION_SIZE {
          collisions := collisions + {id};
        }
      } else {
        MakeTried(id);
      }
    }

    /** Puts an untried id into the new slot its source selects, if the occupant may go. */
    method PlaceNew(id: nat, source: NetAddr, now: int, ghost loose: set<nat>)
      requires Shaped() && ConsistentBut(h, Abs(), loose, 0) && loose <= {id} && id in mapInfo && !mapInfo[id].fInTried
      requires mapInfo[id].nRefCount < ADDRMAN_NEW_BUCKETS_PER_ADDRESS
      modifies this, vvNew
      ensures Shaped() && Abs() == Place(h, old(Abs()), id, source, now, loose)
    {
      hide Table, TableOk, ConsistentBut, GetNewBucket, T.ClearNew, T.Delete, IsTerrible, NewSlot;
      var info := mapInfo[id];
      var bucket := GetNewBucket(h, nKey, info.address.service, source);
      var slot := NewSlot(h, nKey, info.address.service, bucket);
      NewBucketInRange(h, nKey, info.address.service, source);
      NewInRange(h, nKey, info.address.service, bucket);
      RefsKnown(h, Abs(), id, loose);
      SlotOccupant(h, Abs(), slot, loose, 0);
      TableAt(vvNew, slot);
      if vvNew[slot.bucket, slot.pos] != id {
        var fInsert := vvNew[slot.bucket, slot.pos] == -1;
        if !fInsert {
          TableNonNegative(vvNew, slot);
          var existing := mapInfo[vvNew[slot.bucket, slot.pos]];
          if IsTerrible(existing, now) || (existing.nRefCount > 1 && info.nRefCount == 0) {
            fInsert := true;
          }
        }
        if fInsert {
          ghost var s := Abs();
          ClearNew(slot);
          ClearNewKeeps(s, slot);
          EnterNew(id, slot);
        } else if info.nRefCount == 0 {
          Delete(id);
        }
      }
    }

    /** Whether an entry with this many references gets another one. */
    method Reinforce(nRefCount: nat, draw: nat) returns (ok: bool)
      ensures ok <==> OneIn(nRefCount, draw)
      ensures nRefCount == 0 ==> ok
    {
      var nFactor := 1;
      for n := 0 to nRefCount
        invariant nFactor == Pow2(n)
      {
        nFactor := nFactor * 2;
      }
      ok := !(nFactor > 1 && draw % nFactor != 0);
    }

    /** Brings the time and the services of a known address up to date. */
    method Refresh(was: Info, addr: Address, penalty: int, now: int) returns (info: Info)
      ensures info == Refreshed(was, addr, penalty, now)
    {
      info := was;
      var nUpdateInterval := if now - addr.nTime < 24 * 60 * 60 then 60 * 60 else 24 * 60 * 60;
      if addr.nTime != 0 && (info.address.nTime == 0 || info.address.nTime < addr.nTime - nUpdateInterval - penalty) {
        info := info.(address := info.address.(nTime := Max0(addr.nTime - penalty)));
      }
      info := info.(address := info.address.(nServices := info.address.nServices + addr.nServices));
    }

    /** The part of `Add_` for an address already known. */
    method AddKnown(id: nat, addr: Address, source: NetAddr, penalty: int, now: int, draw: nat)
      requires Valid() && Finds(Abs(), addr.service.addr) && id == mapAddr[addr.service.addr]
      modifies this, vvNew
      ensures Shaped()
      ensures var info := Refreshed(old(mapInfo)[id], addr, penalty, now);
              var t := Touch(old(Abs()), id, info);
              && Consistent(h, t)
              && Abs() ==
                 if || addr.nTime == 0 || (info.address.nTime != 0 && addr.nTime <= info.address.nTime)
                    || info.fInTried || info.nRefCount == ADDRMAN_NEW_BUCKETS_PER_ADDRESS
                    || (info.nRefCount > 0 && !Lucky(old(Abs()), addr.service.addr, draw))
                 then t else Place(h, t, id, source, now, {})
    {
      hide Table, TableOk, ConsistentBut, CollisionsOk, Keeps, Place, StampsOk, Refreshed, OneIn;
      RefreshedShape(mapInfo[id], addr, penalty, now);
      AddKnownOk(h, Abs(), addr, source, penalty, now, Lucky(Abs(), addr.service.addr, draw));
      RefCountBound(h, Abs(), id);
      var info := Refresh(mapInfo[id], addr, penalty, now);
      mapInfo := mapInfo[id := info];
      if addr.nTime == 0 || (info.address.nTime != 0 && addr.nTime <= info.address.nTime) {
        return;
      }
      if info.fInTried || info.nRefCount == ADDRMAN_NEW_BUCKETS_PER_ADDRESS {
        return;
      }
      var ok := Reinforce(info.nRefCount, draw);
      if !ok {
        return;
      }
      PlaceNew(id, source, now, {});
    }

    /** The part of `Add_` for an address not known yet. */
    method AddUnknown(addr: Address, source: NetAddr, penalty: int, now: int)
      requires Valid() && !Finds(Abs(), addr.service.addr)
      modifies this, vvNew
      ensures Shaped()
      ensures var id := old(nIdCount);
              var t := T.Create(old(Abs()), addr, source);
              var info := t.mapInfo[id].(address := addr.(nTime := Max0(addr.nTime - penalty)));
              var u := Touch(t, id, info).(nNew := old(nNew) + 1);
              ConsistentBut(h, u, {id}, 0) && Abs() == Place(h, u, id, source, now, {id})
    {
      hide Table, TableOk, ConsistentBut, CollisionsOk, Keeps, Place, StampsOk;
      AddUnknownOk(h, Abs(), addr, source, penalty, now);
      var id := Create(addr, source);
      mapInfo := mapInfo[id := mapInfo[id].(address := addr.(nTime := Max0(addr.nTime - penalty)))];
      nNew := nNew + 1;
      PlaceNew(id, source, now, {id});
    }

    method Add_(addr: Address, source: NetAddr, nTimePenalty: int, routable: bool, now: int, draw: nat)
      returns (fNew: bool)
      requires Valid()
      modifies this, vvNew
      ensures Valid()
      ensures (Abs(), fNew) == Add(h, old(Abs()), addr, source, nTimePenalty, routable, now,
                                   Lucky(old(Abs()), addr.service.addr, draw))
      ensures Keeps(old(Abs()), Abs())
    {
      hide Table, TableOk, ConsistentBut, CollisionsOk, Keeps, Place, StampsOk, Refreshed, T.Create, OneIn, Lucky;
      AddOk(h, Abs(), addr, source, nTimePenalty, routable, now, Lucky(Abs(), addr.service.addr, draw));
      if !routable {
        return false;
      }
      var penalty := if addr.service.addr == source then 0 else nTimePenalty;
      var found, id := Find(addr.service.addr);
      if found {
        fNew := false;
        AddKnown(id, addr, source, penalty, now, draw);
      } else {
        fNew := true;
        AddUnknown(addr, source, penalty, now);
      }
    }

    method Attempt_(svc: Service, countFailure: bool, time: int)
      requires Valid()
      modifies this
      ensures Valid() && Abs() == Attempt(old(Abs()), svc, countFailure, time)
    {
      hide Table, TableOk, ConsistentBut, CollisionsOk, Keeps, StampsOk;
      AttemptOk(h, Abs(), svc, countFailure, time);
      var found, id := Find(svc.addr);
      if !found || mapInfo[id].address.service != svc {
        return;
      }
      var info := mapInfo[id].(nLastTry := time);
      if countFailure && info.nLastCountAttempt < nLastGood {
        info := info.(nLastCountAttempt := time, nAttempts := info.nAttempts + 1);
      }
      mapInfo := mapInfo[id := info];
    }

    method Connected_(svc: Service, time: int)
      requires Valid()
      modifies this
      ensures Valid() && Abs() == Connected(old(Abs()), svc, time)
    {
      hide Table, TableOk, ConsistentBut, CollisionsOk, Keeps, StampsOk;
      ConnectedOk(h, Abs(), svc, time);
      var found, id := Find(svc.addr);
      if !found || mapInfo[id].address.service != svc {
        return;
      }
      var info := mapInfo[id];
      if time - info.address.nTime > 20 * 60 {
        mapInfo := mapInfo[id := info.(address := info.address.(nTime := time))];
      }
    }

    method SetServices_(svc: Service, services: set<nat>)
      requires Valid()
      modifies this
      ensures Valid() && Abs() == SetServices(old(Abs()), svc, services)
    {
      hide Table, TableOk, ConsistentBut, CollisionsOk, Keeps, StampsOk;
      SetServicesOk(h, Abs(), svc, services);
      var found, id := Find(svc.addr);
      if !found || mapInfo[id].address.service != svc {
        return;
      }
      mapInfo := mapInfo[id := mapInfo[id].(address := mapInfo[id].address.(nServices := services))];
    }

    /** Decides one pending collision. */
    method ResolveCollision(id: nat, now: int, valid: Service -> bool)
      requires Valid()
      modifies this, vvTried, vvNew
      ensures Valid() && Abs() == ResolveOne(h, old(Abs()), id, now, valid)
      ensures Decided(h, old(Abs()), Abs(), id, now, valid)
    {
      hide Table, TableOk, ConsistentBut, CollisionsOk, Keeps, StampsOk, TriedSlot, Good, Decided;
      ResolveOneOk(h, Abs(), id, now, valid);
      ResolveMoves(h, Abs(), id, now, valid);
      var erase := false;
      if id !in mapInfo {
        erase := true;
      } else {
        var info := mapInfo[id];
        var slot := TriedSlot(h, nKey, info.address.service);
        TriedInRange(h, nKey, info.address.service);
        TableAt(vvTried, slot);
        if !valid(info.address.service) {
          erase := true;
        } else if vvTried[slot.bucket, slot.pos] != -1 {
          TableNonNegative(vvTried, slot);
          TriedOccupant(h, Abs(), slot);
          var held := mapInfo[vvTried[slot.bucket, slot.pos]];
          if now - held.nLastSuccess < ADDRMAN_REPLACEMENT_HOURS * 60 * 60 {
            erase := true;
          } else if now - held.nLastTry < ADDRMAN_REPLACEMENT_HOURS * 60 * 60 {
            if now - held.nLastTry > 60 {
              Good_(info.address.service, false, now);
              erase := true;
            }
          } else if now - info.nLastSuccess > ADDRMAN_TEST_WINDOW {
            Good_(info.address.service, false, now);
            erase := true;
          }
        } else {
          Good_(info.address.service, false, now);
          erase := true;
        }
      }
      if erase {
        collisions := collisions - {id};
      }
    }

    /** Decides all pending collisions, in id order; whoever was reached within four hours keeps its tried slot. */
    method ResolveCollisions_(now: int, valid: Service -> bool)
      requires Valid()
      modifies this, vvTried, vvNew
      ensures Valid() && Abs() == Resolve(h, old(Abs()), old(collisions), now, valid)
      ensures DecidedAll(h, old(Abs()), Abs(), old(collisions), now, valid)
      ensures forall slot :: HeldAlive(old(Abs()), slot, now) ==>
                HeldAlive(Abs(), slot, now) && Abs().vvTried[slot] == old(Abs()).vvTried[slot]
      ensures Keeps(old(Abs()), Abs())
    {
      hide Shaped, Sound, ResolveOne, Keeps, StampsOk, DecidedAll, Decided;
      ResolveOk(h, Abs(), collisions, now, valid);
      ResolveAllMoves(h, Abs(), collisions, now, valid);
      forall slot | HeldAlive(Abs(), slot, now)
        ensures var t := Resolve(h, Abs(), collisions, now, valid);
                HeldAlive(t, slot, now) && t.vvTried[slot] == Abs().vvTried[slot]
      {
        ResolveProtects(h, Abs(), collisions, now, valid, slot);
      }
      var rest := collisions;
      while rest != {}
        invariant Valid()
        invariant Resolve(h, Abs(), rest, now, valid) == Resolve(h, old(Abs()), old(collisions), now, valid)
        decreases |rest|
      {
        LeastExists(rest);
        var id :| id in rest && forall j :: j in rest ==> id <= j;
        assert id == Least(rest);
        ResolveCollision(id, now, valid);
        rest := rest - {id};
      }
    }

    /** An occupant of tried that a pending newcomer would replace. */
    method SelectTriedCollision_() returns (found: bool, info: Info, ghost pick: nat)
      requires Valid()
      modifies this
      ensures Valid() && Abs() == Step(h, old(Abs()), SelectOp(pick))
      ensures found ==> pick in collisions && pick in mapInfo && info.fInTried
                        && TriedSlot(h, nKey, info.address.service) == TriedSlot(h, nKey, mapInfo[pick].address.service)
      ensures !found ==> old(collisions) == {} || pick !in mapInfo
    {
      hide Table, TableOk, ConsistentBut, TriedSlot, Keeps, StampsOk;
      var none := Info(Address(Service(NetAddr(0), 0), {}, 0), NetAddr(0), 0, 0, 0, 0, 0, false, -1);
      if collisions == {} {
        return false, none, 0;
      }
      var id :| id in collisions;
      SelectOk(h, Abs(), id);
      if id !in mapInfo {
        collisions := collisions - {id};
        return false, none, id;
      }
      CollisionHasOccupant(h, Abs(), id);
      var slot := TriedSlot(h, nKey, mapInfo[id].address.service);
      TriedInRange(h, nKey, mapInfo[id].address.service);
      TableAt(vvTried, slot);
      TriedOccupant(h, Abs(), slot);
      return true, mapInfo[vvTried[slot.bucket, slot.pos]], id;
    }

    /** Brings a random remaining id to position `n`. */
    method SwapNext(n: nat, draw: nat -> nat)
      requires Valid() && n < |vRandom|
      modifies this
      ensures Valid() && Keeps(old(Abs()), Abs())
      ensures |vRandom| == |old(vRandom)| && vRandom[..n] == old(vRandom)[..n] && vRandom[n] in mapInfo
      ensures Reshuffled(old(mapInfo), mapInfo)
    {
      hide Table, TableOk, Keeps, StampsOk, CollisionsOk, ConsistentBut;
      var nRndPos := n + draw(n) % (|vRandom| - n);
      Listed(h, Abs(), n);
      ShuffleOk(h, Abs(), n, nRndPos);
      SwapRandomOk(Abs(), n, nRndPos);
      SwapRandom(n, nRndPos);
      Listed(h, Abs(), n);
      assert vRandom[..n] == old(vRandom)[..n];
    }

    /**
      Draws addresses at random: known, not terrible, no network address twice, at most 23 per cent and 2500. A list
      that stays below the limit holds every address that is not terrible.
     */
    method GetAddr_(now: int, draw: nat -> nat) returns (vAddr: seq<Address>)
      requires Valid()
      modifies this
      ensures Valid() && Keeps(old(Abs()), Abs())
      ensures |vAddr| <= 2500 && 100 * |vAddr| <= 23 * |vRandom|
      ensures forall i :: 0 <= i < |vAddr| ==> Offered(mapInfo, mapAddr, vAddr[i], now)
      ensures forall i, j :: 0 <= i < j < |vAddr| ==> vAddr[i].service.addr != vAddr[j].service.addr
      ensures |vAddr| < 2500 && 100 * (|vAddr| + 1) <= 23 * |vRandom| ==>
                forall id :: id in mapInfo && !IsTerrible(mapInfo[id], now) ==> mapInfo[id].address in vAddr
    {
      hide Shaped, Keeps, Drawn, Sound, Offered, IsTerrible, Reshuffled;
      var nNodes := ADDRMAN_GETADDR_MAX_PCT * |vRandom| / 100;
      if nNodes > ADDRMAN_GETADDR_MAX {
        nNodes := ADDRMAN_GETADDR_MAX;
      }
      vAddr := [];
      ghost var from: seq<nat> := [];
      var n := 0;
      KeepsRefl(Abs());
      NoneDrawn(mapInfo, vRandom, now);
      while n < |vRandom| && |vAddr| < nNodes
        invariant n <= |vRandom| == |old(vRandom)| && |vAddr| <= nNodes
        invariant Valid() && Keeps(old(Abs()), Abs())
        invariant Drawn(mapInfo, vRandom[..n], vAddr, from, now)
      {
        ghost var s := Abs();
        SwapNext(n, draw);
        KeepsTrans(old(Abs()), s, Abs());
        var ai := mapInfo[vRandom[n]];
        DrawOne(s.mapInfo, mapInfo, s.vRandom[..n], vRandom[n], vAddr, from, now);
        if !IsTerrible(ai, now) {
          vAddr, from := vAddr + [ai.address], from + [n];
        }
        assert vRandom[..n + 1] == s.vRandom[..n] + [vRandom[n]];
        n := n + 1;
      }
      DrawnOk(h, Abs(), n, vAddr, from, now);
    }
  }

  /** A new table with an id already removed from the first buckets. */
  ghost function Partly(t: map<Slot, nat>, id: nat, bucket: nat): map<Slot, nat> {
    map slot | slot in t && !(t[slot] == id && slot.bucket < bucket) :: t[slot]
  }

  lemma PartlyStart(m: map<nat, Info>, t: map<Slot, nat>, id: nat)
    requires RefsOk(m, t) && id in m
    ensures Partly(t, id, 0) == t && m == WithRefs(m, id, |SlotsOf(t, id)|)
  {
  }

  lemma PartlyStep(h: Hashes, key: Key, m: map<nat, Info>, t: map<Slot, nat>, id: nat, bucket: nat)
    requires NewSlotsOk(h, key, m, t) && id in m
    ensures var slot := NewSlot(h, key, m[id].address.service, bucket);
            var now := Partly(t, id, bucket);
            if slot in now && now[slot] == id then
              && Partly(t, id, bucket + 1) == now - {slot}
              && |SlotsOf(now - {slot}, id)| == |SlotsOf(now, id)| - 1
            else Partly(t, id, bucket + 1) == now
  {
    var slot := NewSlot(h, key, m[id].address.service, bucket);
    var now := Partly(t, id, bucket);
    if slot in now && now[slot] == id {
      assert SlotsOf(now - {slot}, id) == SlotsOf(now, id) - {slot};
      assert slot in SlotsOf(now, id);
    }
  }

  lemma PartlyEnd(h: Hashes, key: Key, m: map<nat, Info>, t: map<Slot, nat>, id: nat)
    requires NewSlotsOk(h, key, m, t)
    ensures Partly(t, id, ADDRMAN_NEW_BUCKET_COUNT) == Without(t, id)
    ensures |SlotsOf(Without(t, id), id)| == 0
  {
    assert SlotsOf(Without(t, id), id) == {};
  }

  lemma HomeInRange(h: Hashes, key: Key, info: Info)
    ensures HomeSlot(h, key, info).bucket < ADDRMAN_NEW_BUCKET_COUNT && HomeSlot(h, key, info).pos < ADDRMAN_BUCKET_SIZE
  {
  }

  lemma TriedInRange(h: Hashes, key: Key, svc: Service)
    ensures TriedSlot(h, key, svc).bucket < ADDRMAN_TRIED_BUCKET_COUNT
    ensures TriedSlot(h, key, svc).pos < ADDRMAN_BUCKET_SIZE
  {
  }

  lemma TableNonNegative(a: array2<int>, slot: Slot)
    requires TableOk(a) && slot.bucket < a.Length0 && slot.pos < a.Length1 && a[slot.bucket, slot.pos] != -1
    ensures a[slot.bucket, slot.pos] >= 0
  {
  }

  /** The occupant of a new slot is an untried id with at least one slot. */
  lemma SlotOccupant(h: Hashes, s: State, slot: Slot, loose: set<nat>, owed: int)
    requires ConsistentBut(h, s, loose, owed)
    ensures slot in s.vvNew ==>
              s.vvNew[slot] in s.mapInfo && s.mapInfo[s.vvNew[slot]].nRefCount > 0 && !s.mapInfo[s.vvNew[slot]].fInTried
    ensures RandomOk(s.mapInfo, s.vRandom)
  {
    if slot in s.vvNew {
      assert slot in SlotsOf(s.vvNew, s.vvNew[slot]);
    }
  }

  lemma ClockOk(h: Hashes, s: State, time: int)
    requires Consistent(h, s)
    ensures Consistent(h, s.(nLastGood := time))
  {
  }

  lemma NewInRange(h: Hashes, key: Key, svc: Service, bucket: nat)
    ensures NewSlot(h, key, svc, bucket).bucket == bucket && NewSlot(h, key, svc, bucket).pos < ADDRMAN_BUCKET_SIZE
  {
  }

  ghost predicate NewAt(h: Hashes, key: Key, info: Info, t: map<Slot, nat>, id: nat, bucket: nat) {
    var slot := NewSlot(h, key, info.address.service, bucket);
    slot in t && t[slot] == id
  }

  /** The first `n` buckets from `start` on, cyclically, do not hold the id. */
  ghost predicate Scanned(h: Hashes, key: Key, info: Info, t: map<Slot, nat>, id: nat, start: nat, n: nat) {
    forall bucket: nat :: bucket < ADDRMAN_NEW_BUCKET_COUNT ==>
      (bucket + ADDRMAN_NEW_BUCKET_COUNT - start) % ADDRMAN_NEW_BUCKET_COUNT < n ==> !NewAt(h, key, info, t, id, bucket)
  }

  lemma ScannedNone(h: Hashes, key: Key, info: Info, t: map<Slot, nat>, id: nat, start: nat)
    ensures Scanned(h, key, info, t, id, start, 0)
  {
  }

  lemma ScannedStep(h: Hashes, key: Key, info: Info, t: map<Slot, nat>, id: nat, start: nat, n: nat)
    requires start < ADDRMAN_NEW_BUCKET_COUNT && n < ADDRMAN_NEW_BUCKET_COUNT
    requires Scanned(h, key, info, t, id, start, n)
    requires var slot := NewSlot(h, key, info.address.service, (n + start) % ADDRMAN_NEW_BUCKET_COUNT);
             !(slot in t && t[slot] == id)
    ensures Scanned(h, key, info, t, id, start, n + 1)
  {
  }

  lemma ScannedAll(h: Hashes, s: State, id: nat, start: nat)
    requires Consistent(h, s) && id in s.mapInfo && start < ADDRMAN_NEW_BUCKET_COUNT
    requires Scanned(h, s.nKey, s.mapInfo[id], s.vvNew, id, start, ADDRMAN_NEW_BUCKET_COUNT)
    ensures SlotsOf(s.vvNew, id) == {}
  {
    hide IdsOk, AddrOk, RandomOk, TriedSlotsOk, RefsOk, SettledBut, CountsOk;
    forall slot | slot in s.vvNew
      ensures s.vvNew[slot] != id
    {
      assert !NewAt(h, s.nKey, s.mapInfo[id], s.vvNew, id, slot.bucket);
    }
  }

  lemma TriedOccupant(h: Hashes, s: State, slot: Slot)
    requires Consistent(h, s)
    ensures slot in s.vvTried ==>
              && s.vvTried[slot] in s.mapInfo && s.mapInfo[s.vvTried[slot]].fInTried
              && slot == TriedSlot(h, s.nKey, s.mapInfo[s.vvTried[slot]].address.service)
  {
  }
}
