/**
  The address tables on values: what each step of the address manager does to its six
  redundant structures, and the consistency condition every step keeps.
 */
module AddrTable {

  const ADDRMAN_TRIED_BUCKET_COUNT := 256
  const ADDRMAN_NEW_BUCKET_COUNT := 1024
  const ADDRMAN_BUCKET_SIZE := 64
  const ADDRMAN_TRIED_BUCKETS_PER_GROUP := 8
  const ADDRMAN_NEW_BUCKETS_PER_SOURCE_GROUP := 64
  const ADDRMAN_NEW_BUCKETS_PER_ADDRESS := 8
  const ADDRMAN_HORIZON_DAYS := 30
  const ADDRMAN_RETRIES := 3
  const ADDRMAN_MAX_FAILURES := 10
  const ADDRMAN_MIN_FAIL_DAYS := 7
  const ADDRMAN_REPLACEMENT_HOURS := 4
  const ADDRMAN_SET_TRIED_COLLISION_SIZE := 10
  const ADDRMAN_TEST_WINDOW := 40 * 60

  type Key = nat

  datatype NetAddr = NetAddr(ip: nat)

  datatype Service = Service(addr: NetAddr, port: nat)

  datatype Address = Address(service: Service, nServices: set<nat>, nTime: int)

  datatype Info = Info(
    address: Address, source: NetAddr,
    nLastTry: int, nLastCountAttempt: int, nLastSuccess: int, nAttempts: int,
    nRefCount: int, fInTried: bool, nRandomPos: int)

  datatype Slot = Slot(bucket: nat, pos: nat)

  /** The network group of an address, and the keyed hashes before reduction to a bucket or a position. */
  datatype Hashes = Hashes(
    group: NetAddr -> nat,
    ofService: (Key, Service) -> nat,
    ofGroups: (Key, nat, nat) -> nat,
    triedChoice: (Key, nat, nat) -> nat,
    newChoice: (Key, nat, nat) -> nat,
    position: (Key, bool, nat, Service) -> nat)

  /** The tables hold only the occupied slots. */
  datatype State = State(
    nKey: Key, nIdCount: nat,
    mapInfo: map<nat, Info>, mapAddr: map<NetAddr, nat>, vRandom: seq<nat>,
    nTried: int, vvTried: map<Slot, nat>, nNew: int, vvNew: map<Slot, nat>,
    nLastGood: int, collisions: set<nat>)

  /** The full address chooses among the few buckets of its group. */
  function GetTriedBucket(h: Hashes, key: Key, svc: Service): nat {
    var choice := h.ofService(key, svc) % ADDRMAN_TRIED_BUCKETS_PER_GROUP;
    h.triedChoice(key, h.group(svc.addr), choice) % ADDRMAN_TRIED_BUCKET_COUNT
  }

  /** The group of the address chooses among the buckets of the group of the source. */
  function GetNewBucket(h: Hashes, key: Key, svc: Service, src: NetAddr): nat {
    var choice := h.ofGroups(key, h.group(svc.addr), h.group(src)) % ADDRMAN_NEW_BUCKETS_PER_SOURCE_GROUP;
    h.newChoice(key, h.group(src), choice) % ADDRMAN_NEW_BUCKET_COUNT
  }

  function GetBucketPosition(h: Hashes, key: Key, fNew: bool, bucket: nat, svc: Service): nat {
    h.position(key, fNew, bucket, svc) % ADDRMAN_BUCKET_SIZE
  }

  function TriedSlot(h: Hashes, key: Key, svc: Service): Slot {
    var bucket := GetTriedBucket(h, key, svc);
    Slot(bucket, GetBucketPosition(h, key, false, bucket, svc))
  }

  function NewSlot(h: Hashes, key: Key, svc: Service, bucket: nat): Slot {
    Slot(bucket, GetBucketPosition(h, key, true, bucket, svc))
  }

  /** Table order: bucket by bucket, position by position. */
  predicate Before(slot: Slot, bucket: nat, pos: nat) {
    slot.bucket < bucket || (slot.bucket == bucket && slot.pos < pos)
  }

  // ----- The consistency condition -----

  function SlotsOf(table: map<Slot, nat>, id: nat): set<Slot> {
    set slot | slot in table && table[slot] == id
  }

  function TriedIds(mapInfo: map<nat, Info>): set<nat> {
    set id | id in mapInfo && mapInfo[id].fInTried
  }

  function NewIds(mapInfo: map<nat, Info>): set<nat> {
    set id | id in mapInfo && !mapInfo[id].fInTried
  }

  predicate IdsOk(mapInfo: map<nat, Info>, collisions: set<nat>, nIdCount: nat) {
    && (forall id :: id in mapInfo ==> id < nIdCount)
    && (forall id :: id in collisions ==> id < nIdCount)
  }

  /** mapAddr and mapInfo are inverse to each other. */
  predicate AddrOk(mapInfo: map<nat, Info>, mapAddr: map<NetAddr, nat>) {
    && (forall id :: id in mapInfo ==>
         mapInfo[id].address.service.addr in mapAddr && mapAddr[mapInfo[id].address.service.addr] == id)
    && (forall a :: a in mapAddr ==> mapAddr[a] in mapInfo && mapInfo[mapAddr[a]].address.service.addr == a)
  }

  /** vRandom lists every id once, at the position the id's info records. */
  predicate RandomOk(mapInfo: map<nat, Info>, vRandom: seq<nat>) {
    && (forall id :: id in mapInfo ==> 0 <= mapInfo[id].nRandomPos < |vRandom| && vRandom[mapInfo[id].nRandomPos] == id)
    && (forall i :: 0 <= i < |vRandom| ==> vRandom[i] in mapInfo && mapInfo[vRandom[i]].nRandomPos == i)
  }

  /** Every occupied tried slot holds a tried id whose slot it is. */
  predicate TriedSlotsOk(h: Hashes, key: Key, mapInfo: map<nat, Info>, table: map<Slot, nat>) {
    forall slot :: slot in table ==>
      table[slot] in mapInfo && mapInfo[table[slot]].fInTried
      && slot == TriedSlot(h, key, mapInfo[table[slot]].address.service)
  }

  /** Every occupied new slot holds an untried id at its position in that bucket. */
  predicate NewSlotsOk(h: Hashes, key: Key, mapInfo: map<nat, Info>, table: map<Slot, nat>) {
    forall slot :: slot in table ==>
      && slot.bucket < ADDRMAN_NEW_BUCKET_COUNT
      && table[slot] in mapInfo && !mapInfo[table[slot]].fInTried
      && slot == NewSlot(h, key, mapInfo[table[slot]].address.service, slot.bucket)
  }

  predicate RefsOk(mapInfo: map<nat, Info>, table: map<Slot, nat>) {
    forall id :: id in mapInfo ==> mapInfo[id].nRefCount == |SlotsOf(table, id)|
  }

  /** A settled id is either in its one tried slot or in one to eight new slots. */
  predicate Settled(h: Hashes, key: Key, info: Info, id: nat, table: map<Slot, nat>) {
    if info.fInTried then
      TriedSlot(h, key, info.address.service) in table && table[TriedSlot(h, key, info.address.service)] == id
    else
      1 <= info.nRefCount <= ADDRMAN_NEW_BUCKETS_PER_ADDRESS
  }

  /** Every id is settled, except that those in `loose` are in no table. */
  predicate SettledBut(h: Hashes, key: Key, mapInfo: map<nat, Info>, table: map<Slot, nat>, loose: set<nat>) {
    && (forall id :: id in mapInfo && id !in loose ==> Settled(h, key, mapInfo[id], id, table))
    && (forall id :: id in loose ==> id in mapInfo && !mapInfo[id].fInTried && mapInfo[id].nRefCount == 0)
  }

  /** nTried and nNew count the ids, up to `owed` not yet counted as new. */
  predicate CountsOk(mapInfo: map<nat, Info>, nTried: int, nNew: int, owed: int) {
    nTried == |TriedIds(mapInfo)| && nNew + owed == |NewIds(mapInfo)|
  }

  /** Consistency in the middle of an operation. */
  predicate ConsistentBut(h: Hashes, s: State, loose: set<nat>, owed: int) {
    && IdsOk(s.mapInfo, s.collisions, s.nIdCount)
    && AddrOk(s.mapInfo, s.mapAddr)
    && RandomOk(s.mapInfo, s.vRandom)
    && TriedSlotsOk(h, s.nKey, s.mapInfo, s.vvTried)
    && NewSlotsOk(h, s.nKey, s.mapInfo, s.vvNew)
    && RefsOk(s.mapInfo, s.vvNew)
    && SettledBut(h, s.nKey, s.mapInfo, s.vvTried, loose)
    && CountsOk(s.mapInfo, s.nTried, s.nNew, owed)
  }

  /** The structural part of the debug check; it holds for every input. */
  predicate Consistent(h: Hashes, s: State) {
    ConsistentBut(h, s, {}, 0)
  }

  /** The time stamps the debug check asks for. */
  predicate StampsOk(s: State) {
    forall id :: id in s.mapInfo ==>
      && s.mapInfo[id].nLastTry >= 0 && s.mapInfo[id].nLastSuccess >= 0
      && (s.mapInfo[id].fInTried ==> s.mapInfo[id].nLastSuccess != 0)
  }

  // ----- The steps -----

  function Create(s: State, addr: Address, source: NetAddr): State {
    var id := s.nIdCount;
    s.(nIdCount := id + 1,
       mapInfo := s.mapInfo[id := Info(addr, source, 0, 0, 0, 0, 0, false, |s.vRandom|)],
       mapAddr := s.mapAddr[addr.service.addr := id],
       vRandom := s.vRandom + [id])
  }

  function SwapRandom(s: State, i: nat, j: nat): State
    requires i < |s.vRandom| && j < |s.vRandom|
    requires s.vRandom[i] in s.mapInfo && s.vRandom[j] in s.mapInfo
  {
    if i == j then s else
      var id1, id2 := s.vRandom[i], s.vRandom[j];
      var m1 := s.mapInfo[id1 := s.mapInfo[id1].(nRandomPos := j)];
      s.(mapInfo := m1[id2 := m1[id2].(nRandomPos := i)],
         vRandom := s.vRandom[i := id2][j := id1])
  }

  function Delete(s: State, id: nat): State
    requires id in s.mapInfo && RandomOk(s.mapInfo, s.vRandom)
  {
    var last := |s.vRandom| - 1;
    var t := SwapRandom(s, s.mapInfo[id].nRandomPos, last);
    t.(vRandom := t.vRandom[..last],
       mapAddr := t.mapAddr - {s.mapInfo[id].address.service.addr},
       mapInfo := t.mapInfo - {id},
       nNew := t.nNew - 1)
  }

  function WithRefs(m: map<nat, Info>, id: nat, n: int): map<nat, Info>
    requires id in m
  {
    m[id := m[id].(nRefCount := n)]
  }

  function Unref(s: State, slot: Slot): State
    requires slot in s.vvNew && s.vvNew[slot] in s.mapInfo
  {
    var id := s.vvNew[slot];
    s.(mapInfo := WithRefs(s.mapInfo, id, s.mapInfo[id].nRefCount - 1), vvNew := s.vvNew - {slot})
  }

  function ClearNew(s: State, slot: Slot): State
    requires RandomOk(s.mapInfo, s.vRandom)
    requires slot in s.vvNew ==> s.vvNew[slot] in s.mapInfo
  {
    if slot !in s.vvNew then s else
      var id := s.vvNew[slot];
      var t := Unref(s, slot);
      if t.mapInfo[id].nRefCount == 0 then Delete(t, id) else t
  }

  // ----- What the steps keep -----

  /** Infos that differ at most in their place in vRandom. */
  predicate Reshuffled(m: map<nat, Info>, n: map<nat, Info>) {
    n.Keys == m.Keys && forall id :: id in m ==> n[id] == m[id].(nRandomPos := n[id].nRandomPos)
  }

  /** Infos that agree on everything consistency depends on, except vRandom. */
  predicate SameShape(m: map<nat, Info>, n: map<nat, Info>) {
    && n.Keys == m.Keys
    && forall id :: id in m ==>
        n[id].address.service == m[id].address.service && n[id].fInTried == m[id].fInTried
        && n[id].nRefCount == m[id].nRefCount
  }

  lemma SwapRandomOk(s: State, i: nat, j: nat)
    requires RandomOk(s.mapInfo, s.vRandom) && i < |s.vRandom| && j < |s.vRandom|
    ensures var t := SwapRandom(s, i, j);
            && RandomOk(t.mapInfo, t.vRandom) && |t.vRandom| == |s.vRandom|
            && Reshuffled(s.mapInfo, t.mapInfo)
            && t == s.(mapInfo := t.mapInfo, vRandom := t.vRandom)
            && t.vRandom[j] == s.vRandom[i]
  {
    hide Reshuffled;
    SwappedList(s, i, j);
    SwappedInfos(s, i, j);
  }

  lemma SwappedInfos(s: State, i: nat, j: nat)
    requires RandomOk(s.mapInfo, s.vRandom) && i < |s.vRandom| && j < |s.vRandom|
    ensures Reshuffled(s.mapInfo, SwapRandom(s, i, j).mapInfo)
  {
    var m, id1, id2 := s.mapInfo, s.vRandom[i], s.vRandom[j];
    var n := m[id1 := m[id1].(nRandomPos := j)];
    MovedInfo(m, id1, j);
    MovedInfo(n, id2, i);
  }

  lemma MovedInfo(m: map<nat, Info>, id: nat, pos: int)
    requires id in m
    ensures Reshuffled(m, m[id := m[id].(nRandomPos := pos)])
  {
  }

  lemma SwappedList(s: State, i: nat, j: nat)
    requires RandomOk(s.mapInfo, s.vRandom) && i < |s.vRandom| && j < |s.vRandom|
    ensures RandomOk(SwapRandom(s, i, j).mapInfo, SwapRandom(s, i, j).vRandom)
  {
    if i != j {
      var t := SwapRandom(s, i, j);
      assert s.vRandom[i] != s.vRandom[j];
      forall id | id in t.mapInfo
        ensures 0 <= t.mapInfo[id].nRandomPos < |t.vRandom| && t.vRandom[t.mapInfo[id].nRandomPos] == id
      {
        assert id in s.mapInfo;
      }
      forall k | 0 <= k < |t.vRandom|
        ensures t.vRandom[k] in t.mapInfo && t.mapInfo[t.vRandom[k]].nRandomPos == k
      {
        assert s.vRandom[k] in s.mapInfo && s.mapInfo[s.vRandom[k]].nRandomPos == k;
      }
    }
  }

  lemma ShapeCounts(m: map<nat, Info>, n: map<nat, Info>)
    requires SameShape(m, n)
    ensures TriedIds(n) == TriedIds(m) && NewIds(n) == NewIds(m)
  {
  }

  lemma ShapeSlots(h: Hashes, key: Key, m: map<nat, Info>, n: map<nat, Info>, tried: map<Slot, nat>,
                   unseen: map<Slot, nat>, loose: set<nat>)
    requires SameShape(m, n)
    ensures TriedSlotsOk(h, key, m, tried) ==> TriedSlotsOk(h, key, n, tried)
    ensures NewSlotsOk(h, key, m, unseen) ==> NewSlotsOk(h, key, n, unseen)
    ensures RefsOk(m, unseen) ==> RefsOk(n, unseen)
    ensures SettledBut(h, key, m, tried, loose) ==> SettledBut(h, key, n, tried, loose)
  {
  }

  /** Changes outside the shape keep consistency. */
  lemma ShapeOk(h: Hashes, s: State, t: State, loose: set<nat>, owed: int)
    requires ConsistentBut(h, s, loose, owed)
    requires SameShape(s.mapInfo, t.mapInfo) && RandomOk(t.mapInfo, t.vRandom)
    requires t == s.(mapInfo := t.mapInfo, vRandom := t.vRandom, nLastGood := t.nLastGood, collisions := t.collisions)
    requires t.collisions <= s.collisions + s.mapInfo.Keys
    ensures ConsistentBut(h, t, loose, owed)
  {
    ShapeCounts(s.mapInfo, t.mapInfo);
    ShapeSlots(h, s.nKey, s.mapInfo, t.mapInfo, s.vvTried, s.vvNew, loose);
  }

  lemma DeleteShape(s: State, id: nat)
    requires id in s.mapInfo && RandomOk(s.mapInfo, s.vRandom)
    ensures var t := Delete(s, id);
            && RandomOk(t.mapInfo, t.vRandom)
            && Reshuffled(s.mapInfo - {id}, t.mapInfo)
            && t == s.(mapInfo := t.mapInfo, vRandom := t.vRandom, nNew := s.nNew - 1,
                       mapAddr := s.mapAddr - {s.mapInfo[id].address.service.addr})
  {
    hide SwapRandom;
    var last := |s.vRandom| - 1;
    SwapRandomOk(s, s.mapInfo[id].nRandomPos, last);
  }

  lemma DropCounts(m: map<nat, Info>, n: map<nat, Info>, id: nat)
    requires id in m && !m[id].fInTried && Reshuffled(m - {id}, n)
    ensures TriedIds(n) == TriedIds(m) && NewIds(n) == NewIds(m) - {id} && id in NewIds(m)
  {
  }

  lemma DropAddr(m: map<nat, Info>, n: map<nat, Info>, id: nat, mapAddr: map<NetAddr, nat>)
    requires id in m && Reshuffled(m - {id}, n) && AddrOk(m, mapAddr)
    ensures AddrOk(n, mapAddr - {m[id].address.service.addr})
  {
  }

  lemma DropSlots(h: Hashes, key: Key, m: map<nat, Info>, n: map<nat, Info>, id: nat, unseen: map<Slot, nat>)
    requires id in m && m[id].nRefCount == 0 && Reshuffled(m - {id}, n)
    requires NewSlotsOk(h, key, m, unseen) && RefsOk(m, unseen)
    ensures NewSlotsOk(h, key, n, unseen) && RefsOk(n, unseen)
  {
    hide NewSlot;
    assert SlotsOf(unseen, id) == {};
    forall slot | slot in unseen
      ensures unseen[slot] != id
    {
      assert unseen[slot] == id ==> slot in SlotsOf(unseen, id);
    }
  }

  lemma DropTried(h: Hashes, key: Key, m: map<nat, Info>, n: map<nat, Info>, id: nat, tried: map<Slot, nat>,
                  loose: set<nat>)
    requires id in m && id in loose && !m[id].fInTried && Reshuffled(m - {id}, n)
    requires TriedSlotsOk(h, key, m, tried) && SettledBut(h, key, m, tried, loose)
    ensures TriedSlotsOk(h, key, n, tried) && SettledBut(h, key, n, tried, loose - {id})
  {
    hide TriedSlot;
  }

  /** Deleting an id that is in no table. */
  lemma DeleteOk(h: Hashes, s: State, id: nat, loose: set<nat>, owed: int)
    requires ConsistentBut(h, s, loose, owed) && id in loose
    ensures ConsistentBut(h, Delete(s, id), loose - {id}, owed)
  {
    hide Delete, AddrOk, RandomOk, TriedSlotsOk, NewSlotsOk, RefsOk, TriedIds, NewIds;
    var t := Delete(s, id);
    DeleteShape(s, id);
    DropCounts(s.mapInfo, t.mapInfo, id);
    DropAddr(s.mapInfo, t.mapInfo, id, s.mapAddr);
    DropSlots(h, s.nKey, s.mapInfo, t.mapInfo, id, s.vvNew);
    DropTried(h, s.nKey, s.mapInfo, t.mapInfo, id, s.vvTried, loose);
  }

  // Steps that change one info in place.

  lemma InPlaceOk(m: map<nat, Info>, id: nat, info: Info, s: State)
    requires id in m && info.address.service == m[id].address.service && info.nRandomPos == m[id].nRandomPos
    ensures IdsOk(m, s.collisions, s.nIdCount) ==> IdsOk(m[id := info], s.collisions, s.nIdCount)
    ensures AddrOk(m, s.mapAddr) ==> AddrOk(m[id := info], s.mapAddr)
    ensures RandomOk(m, s.vRandom) ==> RandomOk(m[id := info], s.vRandom)
  {
  }

  /** How the two counts follow a change of one id's flag. */
  lemma InPlaceCounts(m: map<nat, Info>, id: nat, info: Info, nTried: int, nNew: int, owed: int)
    requires id in m && CountsOk(m, nTried, nNew, owed)
    ensures var moved := (if info.fInTried then 1 else 0) - (if m[id].fInTried then 1 else 0);
            CountsOk(m[id := info], nTried + moved, nNew, owed - moved)
  {
    hide TriedIds, NewIds;
    UpdatedIds(m, id, info);
    CountOne(TriedIds(m), id);
    CountOne(NewIds(m), id);
  }

  lemma UpdatedIds(m: map<nat, Info>, id: nat, info: Info)
    requires id in m
    ensures TriedIds(m[id := info]) == if info.fInTried then TriedIds(m) + {id} else TriedIds(m) - {id}
    ensures NewIds(m[id := info]) == if info.fInTried then NewIds(m) - {id} else NewIds(m) + {id}
    ensures (id in TriedIds(m) <==> m[id].fInTried) && (id in NewIds(m) <==> !m[id].fInTried)
  {
  }

  lemma CountOne(s: set<nat>, id: nat)
    ensures |s + {id}| == |s| + if id in s then 0 else 1
    ensures |s - {id}| == |s| - if id in s then 1 else 0
  {
    if id in s {
      assert s + {id} == s;
    } else {
      assert s - {id} == s;
    }
  }

  lemma RefsAfterClear(m: map<nat, Info>, unseen: map<Slot, nat>, slot: Slot)
    requires RefsOk(m, unseen) && slot in unseen && unseen[slot] in m
    ensures m[unseen[slot]].nRefCount > 0
    ensures RefsOk(WithRefs(m, unseen[slot], m[unseen[slot]].nRefCount - 1), unseen - {slot})
  {
    assert slot in SlotsOf(unseen, unseen[slot]);
    forall j
      ensures SlotsOf(unseen - {slot}, j) == if j == unseen[slot] then SlotsOf(unseen, j) - {slot}
                else SlotsOf(unseen, j)
    {
    }
  }

  lemma IdsSplit(m: map<nat, Info>)
    ensures |m| == |TriedIds(m)| + |NewIds(m)|
  {
    assert m.Keys == TriedIds(m) + NewIds(m);
    assert TriedIds(m) !! NewIds(m);
  }

  lemma SlotsAfterSet(unseen: map<Slot, nat>, slot: Slot, id: nat, j: nat)
    requires slot !in unseen
    ensures SlotsOf(unseen[slot := id], j) == if j == id then SlotsOf(unseen, j) + {slot} else SlotsOf(unseen, j)
    ensures slot !in SlotsOf(unseen, j)
  {
  }

  lemma RefsAfterSet(m: map<nat, Info>, unseen: map<Slot, nat>, slot: Slot, id: nat)
    requires RefsOk(m, unseen) && slot !in unseen && id in m
    ensures RefsOk(WithRefs(m, id, m[id].nRefCount + 1), unseen[slot := id])
  {
    hide SlotsOf;
    var n := WithRefs(m, id, m[id].nRefCount + 1);
    forall j | j in n
      ensures n[j].nRefCount == |SlotsOf(unseen[slot := id], j)|
    {
      SlotsAfterSet(unseen, slot, id, j);
    }
  }

  lemma UnrefSlots(h: Hashes, key: Key, m: map<nat, Info>, slot: Slot, tried: map<Slot, nat>, unseen: map<Slot, nat>,
                   loose: set<nat>)
    requires TriedSlotsOk(h, key, m, tried) && NewSlotsOk(h, key, m, unseen) && RefsOk(m, unseen)
    requires SettledBut(h, key, m, tried, loose) && slot in unseen
    ensures var id := unseen[slot];
            var n := WithRefs(m, id, m[id].nRefCount - 1);
            && m[id].nRefCount > 0 && id !in loose && !m[id].fInTried
            && TriedSlotsOk(h, key, n, tried) && NewSlotsOk(h, key, n, unseen - {slot}) && RefsOk(n, unseen - {slot})
            && SettledBut(h, key, n, tried, if n[id].nRefCount == 0 then loose + {id} else loose)
  {
    hide RefsOk;
    RefsAfterClear(m, unseen, slot);
  }

  /** The tried table does not depend on reference counts. */
  lemma RefsLeaveTried(h: Hashes, key: Key, m: map<nat, Info>, id: nat, refs: int, tried: map<Slot, nat>)
    requires TriedSlotsOk(h, key, m, tried) && id in m
    ensures TriedSlotsOk(h, key, WithRefs(m, id, refs), tried)
  {
    hide TriedSlot;
  }

  lemma RefNew(h: Hashes, key: Key, m: map<nat, Info>, id: nat, slot: Slot, unseen: map<Slot, nat>, refs: int)
    requires NewSlotsOk(h, key, m, unseen) && id in m && !m[id].fInTried
    requires slot.bucket < ADDRMAN_NEW_BUCKET_COUNT && slot == NewSlot(h, key, m[id].address.service, slot.bucket)
    ensures NewSlotsOk(h, key, WithRefs(m, id, refs), unseen[slot := id])
  {
    hide NewSlot;
  }

  lemma RefSettles(h: Hashes, key: Key, m: map<nat, Info>, id: nat, tried: map<Slot, nat>, loose: set<nat>, refs: int)
    requires SettledBut(h, key, m, tried, loose) && id in m && !m[id].fInTried
    requires 1 <= refs <= ADDRMAN_NEW_BUCKETS_PER_ADDRESS
    ensures SettledBut(h, key, WithRefs(m, id, refs), tried, loose - {id})
  {
    hide TriedSlot;
  }

  lemma RefSlots(h: Hashes, key: Key, m: map<nat, Info>, id: nat, slot: Slot, tried: map<Slot, nat>,
                 unseen: map<Slot, nat>, loose: set<nat>)
    requires TriedSlotsOk(h, key, m, tried) && NewSlotsOk(h, key, m, unseen) && RefsOk(m, unseen)
    requires SettledBut(h, key, m, tried, loose) && slot !in unseen
    requires id in m && !m[id].fInTried && m[id].nRefCount < ADDRMAN_NEW_BUCKETS_PER_ADDRESS
    requires slot.bucket < ADDRMAN_NEW_BUCKET_COUNT && slot == NewSlot(h, key, m[id].address.service, slot.bucket)
    ensures var n := WithRefs(m, id, m[id].nRefCount + 1);
            && TriedSlotsOk(h, key, n, tried) && NewSlotsOk(h, key, n, unseen[slot := id])
            && RefsOk(n, unseen[slot := id])
            && SettledBut(h, key, n, tried, loose - {id})
  {
    hide TriedSlotsOk, NewSlotsOk, RefsOk, SettledBut, NewSlot, WithRefs;
    var refs := m[id].nRefCount + 1;
    RefsCount(m, unseen, id);
    RefsLeaveTried(h, key, m, id, refs, tried);
    RefNew(h, key, m, id, slot, unseen, refs);
    RefSettles(h, key, m, id, tried, loose, refs);
    RefsAfterSet(m, unseen, slot, id);
  }

  lemma RefsCount(m: map<nat, Info>, unseen: map<Slot, nat>, id: nat)
    requires RefsOk(m, unseen) && id in m
    ensures m[id].nRefCount >= 0
  {
  }

  function Without(table: map<Slot, nat>, id: nat): map<Slot, nat> {
    map slot | slot in table && table[slot] != id :: table[slot]
  }

  lemma LoosenRefs(m: map<nat, Info>, id: nat, unseen: map<Slot, nat>)
    requires RefsOk(m, unseen) && id in m
    ensures RefsOk(WithRefs(m, id, 0), Without(unseen, id))
  {
    var n := WithRefs(m, id, 0);
    forall j | j in n
      ensures n[j].nRefCount == |SlotsOf(Without(unseen, id), j)|
    {
      assert SlotsOf(Without(unseen, id), j) == if j == id then {} else SlotsOf(unseen, j);
    }
  }

  lemma LoosenNew(h: Hashes, key: Key, m: map<nat, Info>, id: nat, unseen: map<Slot, nat>)
    requires NewSlotsOk(h, key, m, unseen) && id in m
    ensures NewSlotsOk(h, key, WithRefs(m, id, 0), Without(unseen, id))
  {
    hide NewSlot;
  }

  lemma LoosenSettled(h: Hashes, key: Key, m: map<nat, Info>, id: nat, tried: map<Slot, nat>, loose: set<nat>)
    requires SettledBut(h, key, m, tried, loose) && id in m && !m[id].fInTried
    ensures SettledBut(h, key, WithRefs(m, id, 0), tried, loose + {id})
  {
    hide TriedSlot;
  }

  lemma LoosenSlots(h: Hashes, key: Key, m: map<nat, Info>, id: nat, tried: map<Slot, nat>, unseen: map<Slot, nat>,
                    loose: set<nat>)
    requires TriedSlotsOk(h, key, m, tried) && NewSlotsOk(h, key, m, unseen) && RefsOk(m, unseen)
    requires SettledBut(h, key, m, tried, loose) && id in m && !m[id].fInTried
    ensures var n := WithRefs(m, id, 0);
            && TriedSlotsOk(h, key, n, tried) && NewSlotsOk(h, key, n, Without(unseen, id))
            && RefsOk(n, Without(unseen, id))
            && SettledBut(h, key, n, tried, loose + {id})
  {
    hide TriedSlotsOk, NewSlotsOk, RefsOk, SettledBut, Without, WithRefs;
    RefsLeaveTried(h, key, m, id, 0, tried);
    LoosenNew(h, key, m, id, unseen);
    LoosenRefs(m, id, unseen);
    LoosenSettled(h, key, m, id, tried, loose);
  }

  lemma UntrySlots(h: Hashes, key: Key, m: map<nat, Info>, slot: Slot, tried: map<Slot, nat>, unseen: map<Slot, nat>,
                   loose: set<nat>)
    requires TriedSlotsOk(h, key, m, tried) && NewSlotsOk(h, key, m, unseen) && RefsOk(m, unseen)
    requires SettledBut(h, key, m, tried, loose) && slot in tried
    ensures var id := tried[slot];
            var n := m[id := m[id].(fInTried := false)];
            && m[id].fInTried && id !in loose
            && TriedSlotsOk(h, key, n, tried - {slot}) && NewSlotsOk(h, key, n, unseen) && RefsOk(n, unseen)
            && SettledBut(h, key, n, tried - {slot}, loose + {id})
  {
    var id := tried[slot];
    var n := m[id := m[id].(fInTried := false)];
    assert SlotsOf(unseen, id) == {};
    forall j | j in n && j !in loose + {id}
      ensures Settled(h, key, n[j], j, tried - {slot})
    {
      assert Settled(h, key, m[j], j, tried);
    }
  }

  lemma TrySlots(h: Hashes, key: Key, m: map<nat, Info>, id: nat, tried: map<Slot, nat>, unseen: map<Slot, nat>,
                 loose: set<nat>)
    requires TriedSlotsOk(h, key, m, tried) && NewSlotsOk(h, key, m, unseen) && RefsOk(m, unseen)
    requires SettledBut(h, key, m, tried, loose) && id in loose
    requires TriedSlot(h, key, m[id].address.service) !in tried
    ensures var n := m[id := m[id].(fInTried := true)];
            var t := tried[TriedSlot(h, key, m[id].address.service) := id];
            && TriedSlotsOk(h, key, n, t) && NewSlotsOk(h, key, n, unseen) && RefsOk(n, unseen)
            && SettledBut(h, key, n, t, loose - {id})
  {
    assert SlotsOf(unseen, id) == {};
    forall slot | slot in unseen
      ensures unseen[slot] != id
    {
      assert unseen[slot] == id ==> slot in SlotsOf(unseen, id);
    }
  }

  // ----- Composite steps -----

  /** Every surviving info is unchanged but for where it is kept, and none is newly tried. */
  predicate InfosKept(m: map<nat, Info>, n: map<nat, Info>) {
    forall id :: id in n ==>
      && id in m && (n[id].fInTried ==> m[id].fInTried)
      && n[id] == m[id].(nRandomPos := n[id].nRandomPos, nRefCount := n[id].nRefCount, fInTried := n[id].fInTried)
  }

  lemma UnrefOk(h: Hashes, s: State, slot: Slot, loose: set<nat>, owed: int)
    requires ConsistentBut(h, s, loose, owed) && slot in s.vvNew
    ensures s.vvNew[slot] in s.mapInfo
    ensures var t := Unref(s, slot);
            var id := s.vvNew[slot];
            ConsistentBut(h, t, if t.mapInfo[id].nRefCount == 0 then loose + {id} else loose, owed)
  {
    var id := s.vvNew[slot];
    assert id in s.mapInfo;
    hide IdsOk, AddrOk, RandomOk, TriedSlotsOk, NewSlotsOk, RefsOk, CountsOk, SettledBut;
    UnrefSlots(h, s.nKey, s.mapInfo, slot, s.vvTried, s.vvNew, loose);
    InPlaceOk(s.mapInfo, id, Unref(s, slot).mapInfo[id], s);
    InPlaceCounts(s.mapInfo, id, Unref(s, slot).mapInfo[id], s.nTried, s.nNew, owed);
  }

  /** Reference counts aside, and up to where they are listed, the ids other than `id` are as they were. */
  predicate OthersKept(m: map<nat, Info>, n: map<nat, Info>, id: nat) {
    forall j :: j in m && j != id ==> j in n && n[j].nRefCount == m[j].nRefCount
  }

  lemma UnrefKeeps(s: State, slot: Slot)
    requires RandomOk(s.mapInfo, s.vRandom) && slot in s.vvNew && s.vvNew[slot] in s.mapInfo
    ensures var t := Unref(s, slot);
            && RandomOk(t.mapInfo, t.vRandom) && InfosKept(s.mapInfo, t.mapInfo) && s.vvNew[slot] in t.mapInfo
            && OthersKept(s.mapInfo, t.mapInfo, s.vvNew[slot])
            && t == s.(mapInfo := t.mapInfo, vvNew := s.vvNew - {slot})
  {
    hide RandomOk;
    InPlaceOk(s.mapInfo, s.vvNew[slot], Unref(s, slot).mapInfo[s.vvNew[slot]], s);
  }

  lemma DeleteKeeps(m: map<nat, Info>, s: State, id: nat)
    requires id in s.mapInfo && RandomOk(s.mapInfo, s.vRandom) && InfosKept(m, s.mapInfo)
    requires OthersKept(m, s.mapInfo, id)
    ensures InfosKept(m, Delete(s, id).mapInfo) && OthersKept(m, Delete(s, id).mapInfo, id)
  {
    hide Delete, RandomOk;
    DeleteShape(s, id);
    var t := Delete(s, id);
    forall j | j in t.mapInfo
      ensures j in s.mapInfo && t.mapInfo[j] == s.mapInfo[j].(nRandomPos := t.mapInfo[j].nRandomPos)
    {
      assert j in s.mapInfo - {id};
    }
    forall j | j in m && j != id
      ensures j in t.mapInfo
    {
      assert j in s.mapInfo - {id};
    }
  }

  lemma ClearNewKeeps(s: State, slot: Slot)
    requires RandomOk(s.mapInfo, s.vRandom) && (slot in s.vvNew ==> s.vvNew[slot] in s.mapInfo)
    ensures var t := ClearNew(s, slot);
            && InfosKept(s.mapInfo, t.mapInfo)
            && t == s.(mapInfo := t.mapInfo, mapAddr := t.mapAddr, vRandom := t.vRandom, nNew := t.nNew,
              vvNew := s.vvNew - {slot})
            && forall id :: id in s.mapInfo && (slot in s.vvNew ==> id != s.vvNew[slot]) ==>
                 id in t.mapInfo && t.mapInfo[id].nRefCount == s.mapInfo[id].nRefCount
  {
    hide Delete, RandomOk, Unref;
    if slot in s.vvNew {
      var id := s.vvNew[slot];
      var t := Unref(s, slot);
      UnrefKeeps(s, slot);
      if t.mapInfo[id].nRefCount == 0 {
        DeleteShape(t, id);
        DeleteKeeps(s.mapInfo, t, id);
      }
    } else {
      assert s.vvNew - {slot} == s.vvNew;
    }
  }

  /** Clearing a new slot frees it, deleting the id that had no other. */
  lemma ClearNewOk(h: Hashes, s: State, slot: Slot, loose: set<nat>, owed: int)
    requires ConsistentBut(h, s, loose, owed)
    ensures slot in s.vvNew ==> s.vvNew[slot] in s.mapInfo
    ensures ConsistentBut(h, ClearNew(s, slot), loose, owed)
  {
    hide Delete, AddrOk, RandomOk, TriedSlotsOk, RefsOk, CountsOk, SettledBut, IdsOk, NewSlotsOk;
    if slot in s.vvNew {
      UnrefOk(h, s, slot, loose, owed);
      var id := s.vvNew[slot];
      var t := Unref(s, slot);
      if t.mapInfo[id].nRefCount == 0 {
        DeleteOk(h, t, id, loose + {id}, owed);
        UnrefNotLoose(h, s, slot, loose, owed);
        assert loose + {id} - {id} == loose;
      }
    }
  }

  lemma UnrefNotLoose(h: Hashes, s: State, slot: Slot, loose: set<nat>, owed: int)
    requires ConsistentBut(h, s, loose, owed) && slot in s.vvNew
    ensures s.vvNew[slot] !in loose
  {
    assert slot in SlotsOf(s.vvNew, s.vvNew[slot]);
  }

  function Loosen(s: State, id: nat): State
    requires id in s.mapInfo
  {
    s.(mapInfo := WithRefs(s.mapInfo, id, 0), vvNew := Without(s.vvNew, id), nNew := s.nNew - 1)
  }

  /** Taking an untried id out of all new slots. */
  lemma LoosenOk(h: Hashes, s: State, id: nat)
    requires Consistent(h, s) && id in s.mapInfo && !s.mapInfo[id].fInTried
    ensures ConsistentBut(h, Loosen(s, id), {id}, 1)
  {
    hide IdsOk, AddrOk, RandomOk, TriedSlotsOk, NewSlotsOk, RefsOk, SettledBut, Without;
    LoosenSlots(h, s.nKey, s.mapInfo, id, s.vvTried, s.vvNew, {});
    assert {} + {id} == {id};
    InPlaceOk(s.mapInfo, id, Loosen(s, id).mapInfo[id], s);
    InPlaceCounts(s.mapInfo, id, Loosen(s, id).mapInfo[id], s.nTried, s.nNew, 0);
  }

  /** Taking an id out of its tried slot. */
  function Untry(s: State, slot: Slot): State
    requires slot in s.vvTried && s.vvTried[slot] in s.mapInfo
  {
    var id := s.vvTried[slot];
    s.(mapInfo := s.mapInfo[id := s.mapInfo[id].(fInTried := false)], vvTried := s.vvTried - {slot},
      nTried := s.nTried - 1)
  }

  lemma UntryOk(h: Hashes, s: State, slot: Slot, loose: set<nat>, owed: int)
    requires ConsistentBut(h, s, loose, owed) && slot in s.vvTried
    ensures s.vvTried[slot] in s.mapInfo && s.vvTried[slot] !in loose
    ensures ConsistentBut(h, Untry(s, slot), loose + {s.vvTried[slot]}, owed + 1)
  {
    var id := s.vvTried[slot];
    assert id in s.mapInfo && s.mapInfo[id].fInTried;
    hide IdsOk, AddrOk, RandomOk, TriedSlotsOk, NewSlotsOk, RefsOk, CountsOk, SettledBut;
    UntrySlots(h, s.nKey, s.mapInfo, slot, s.vvTried, s.vvNew, loose);
    InPlaceOk(s.mapInfo, id, Untry(s, slot).mapInfo[id], s);
    InPlaceCounts(s.mapInfo, id, Untry(s, slot).mapInfo[id], s.nTried, s.nNew, owed);
  }

  /** Entering an id into a free new slot of its own. */
  function Enter(s: State, id: nat, slot: Slot): State
    requires id in s.mapInfo
  {
    s.(mapInfo := WithRefs(s.mapInfo, id, s.mapInfo[id].nRefCount + 1), vvNew := s.vvNew[slot := id])
  }

  lemma EnterOk(h: Hashes, s: State, id: nat, bucket: nat, loose: set<nat>, owed: int)
    requires ConsistentBut(h, s, loose, owed) && bucket < ADDRMAN_NEW_BUCKET_COUNT
    requires id in s.mapInfo && !s.mapInfo[id].fInTried && s.mapInfo[id].nRefCount < ADDRMAN_NEW_BUCKETS_PER_ADDRESS
    requires NewSlot(h, s.nKey, s.mapInfo[id].address.service, bucket) !in s.vvNew
    ensures var slot := NewSlot(h, s.nKey, s.mapInfo[id].address.service, bucket);
            ConsistentBut(h, Enter(s, id, slot), loose - {id}, owed)
  {
    hide IdsOk, AddrOk, RandomOk, TriedSlotsOk, NewSlotsOk, RefsOk, CountsOk, SettledBut;
    var slot := NewSlot(h, s.nKey, s.mapInfo[id].address.service, bucket);
    RefSlots(h, s.nKey, s.mapInfo, id, slot, s.vvTried, s.vvNew, loose);
    InPlaceOk(s.mapInfo, id, Enter(s, id, slot).mapInfo[id], s);
    InPlaceCounts(s.mapInfo, id, Enter(s, id, slot).mapInfo[id], s.nTried, s.nNew, owed);
  }

  /** Entering a loose id into its free tried slot. */
  function Try(h: Hashes, s: State, id: nat): State
    requires id in s.mapInfo
  {
    s.(mapInfo := s.mapInfo[id := s.mapInfo[id].(fInTried := true)],
       vvTried := s.vvTried[TriedSlot(h, s.nKey, s.mapInfo[id].address.service) := id],
       nTried := s.nTried + 1)
  }

  lemma TryOk(h: Hashes, s: State, id: nat, loose: set<nat>, owed: int)
    requires ConsistentBut(h, s, loose, owed) && id in loose
    requires TriedSlot(h, s.nKey, s.mapInfo[id].address.service) !in s.vvTried
    ensures ConsistentBut(h, Try(h, s, id), loose - {id}, owed - 1)
  {
    hide IdsOk, AddrOk, RandomOk, TriedSlotsOk, NewSlotsOk, RefsOk, CountsOk, SettledBut, TriedSlot;
    LooseIn(h, s, loose, owed);
    TrySlots(h, s.nKey, s.mapInfo, id, s.vvTried, s.vvNew, loose);
    InPlaceOk(s.mapInfo, id, Try(h, s, id).mapInfo[id], s);
    InPlaceCounts(s.mapInfo, id, Try(h, s, id).mapInfo[id], s.nTried, s.nNew, owed);
  }

  /** Where an id evicted from tried goes back to. */
  function HomeSlot(h: Hashes, key: Key, info: Info): Slot {
    NewSlot(h, key, info.address.service, GetNewBucket(h, key, info.address.service, info.source))
  }

  /** Moves the occupant of a tried slot back to new, clearing whatever is there. */
  function Evict(h: Hashes, s: State, slot: Slot, ghost loose: set<nat>, ghost owed: int): (t: State)
    requires ConsistentBut(h, s, loose, owed) && slot in s.vvTried
  {
    UntryOk(h, s, slot, loose, owed);
    var id := s.vvTried[slot];
    var home := HomeSlot(h, s.nKey, s.mapInfo[id]);
    var u := Untry(s, slot);
    ClearNewOk(h, u, home, loose + {id}, owed + 1);
    ClearNewKeeps(u, home);
    LooseIn(h, ClearNew(u, home), loose + {id}, owed + 1);
    var v := Enter(ClearNew(u, home), id, home);
    v.(nNew := v.nNew + 1)
  }

  lemma LooseIn(h: Hashes, s: State, loose: set<nat>, owed: int)
    requires ConsistentBut(h, s, loose, owed)
    ensures forall id :: id in loose ==> id in s.mapInfo && !s.mapInfo[id].fInTried && s.mapInfo[id].nRefCount == 0
  {
  }

  lemma EvictOk(h: Hashes, s: State, slot: Slot, loose: set<nat>, owed: int)
    requires ConsistentBut(h, s, loose, owed) && slot in s.vvTried
    ensures var t := Evict(h, s, slot, loose, owed);
            && ConsistentBut(h, t, loose, owed)
            && t.vvTried == s.vvTried - {slot} && t.nKey == s.nKey && t.nIdCount == s.nIdCount
            && t.collisions == s.collisions
            && t.nLastGood == s.nLastGood && InfosKept(s.mapInfo, t.mapInfo) && loose <= t.mapInfo.Keys
  {
    hide AddrOk, RandomOk, TriedSlotsOk, NewSlotsOk, RefsOk, CountsOk, SettledBut, TriedSlot, NewSlot, ClearNew, IdsOk;
    UntryOk(h, s, slot, loose, owed);
    var id := s.vvTried[slot];
    var home := HomeSlot(h, s.nKey, s.mapInfo[id]);
    var u := Untry(s, slot);
    ClearNewOk(h, u, home, loose + {id}, owed + 1);
    var c := ClearNew(u, home);
    ClearNewKeeps(u, home);
    LooseIn(h, c, loose + {id}, owed + 1);
    EnterOk(h, c, id, GetNewBucket(h, s.nKey, s.mapInfo[id].address.service, s.mapInfo[id].source), loose + {id},
            owed + 1);
    assert loose + {id} - {id} == loose;
    CountNew(h, Enter(c, id, home), loose, owed + 1);
  }

  lemma CountNew(h: Hashes, s: State, loose: set<nat>, owed: int)
    requires ConsistentBut(h, s, loose, owed)
    ensures ConsistentBut(h, s.(nNew := s.nNew + 1), loose, owed - 1)
  {
  }

  /** Moves an untried id to its tried slot, sending the slot's occupant back to new. */
  function MakeTried(h: Hashes, s: State, id: nat): State
    requires Consistent(h, s) && id in s.mapInfo && !s.mapInfo[id].fInTried
  {
    LoosenOk(h, s, id);
    var slot := TriedSlot(h, s.nKey, s.mapInfo[id].address.service);
    var t := Loosen(s, id);
    if slot in t.vvTried then
      EvictOk(h, t, slot, {id}, 1);
      Try(h, Evict(h, t, slot, {id}, 1), id)
    else
      Try(h, t, id)
  }

  /** Every id keeps its address, ids are never reused, and a tried slot once taken stays taken. */
  predicate Keeps(s: State, t: State) {
    && t.nKey == s.nKey && s.nIdCount <= t.nIdCount
    && s.vvTried.Keys <= t.vvTried.Keys
    && forall id :: id in t.mapInfo && id < s.nIdCount ==>
        id in s.mapInfo && t.mapInfo[id].address.service == s.mapInfo[id].address.service
  }

  lemma KeepsTrans(s: State, t: State, u: State)
    requires Keeps(s, t) && Keeps(t, u)
    ensures Keeps(s, u)
  {
  }

  /** The last step of moving an id to tried: `t` has the id loose and its slot free. */
  lemma TriedAtLast(h: Hashes, s: State, t: State, id: nat)
    requires id in s.mapInfo && ConsistentBut(h, t, {id}, 1) && id in t.mapInfo && InfosKept(s.mapInfo, t.mapInfo)
    requires var slot := TriedSlot(h, s.nKey, s.mapInfo[id].address.service); t.vvTried == s.vvTried - {slot}
    requires t.nKey == s.nKey && t.nIdCount == s.nIdCount
    ensures var u := Try(h, t, id);
            && Consistent(h, u) && Keeps(s, u) && id in u.mapInfo && u.mapInfo[id].fInTried
            && u.vvTried == s.vvTried[TriedSlot(h, s.nKey, s.mapInfo[id].address.service) := id]
            && InfosKept(s.mapInfo[id := s.mapInfo[id].(fInTried := true)], u.mapInfo)
  {
    hide ConsistentBut, TriedSlot, InfosKept, Keeps;
    InfosTried(s.mapInfo, t.mapInfo, id);
    TryOk(h, t, id, {id}, 1);
    assert {id} - {id} == {};
    var slot := TriedSlot(h, s.nKey, s.mapInfo[id].address.service);
    assert (s.vvTried - {slot})[slot := id] == s.vvTried[slot := id];
    KeptIsKeeps(s, Try(h, t, id), id);
  }

  lemma InfosTried(m: map<nat, Info>, n: map<nat, Info>, id: nat)
    requires InfosKept(m, n) && id in n && id in m
    ensures n[id].address == m[id].address
    ensures InfosKept(m[id := m[id].(fInTried := true)], n[id := n[id].(fInTried := true)])
  {
  }

  lemma KeptIsKeeps(s: State, u: State, id: nat)
    requires id in s.mapInfo && InfosKept(s.mapInfo[id := s.mapInfo[id].(fInTried := true)], u.mapInfo)
    requires u.nKey == s.nKey && u.nIdCount == s.nIdCount && s.vvTried.Keys <= u.vvTried.Keys
    ensures Keeps(s, u)
  {
  }

  /** Moving an id to tried keeps consistency, and the id ends up in its slot. */
  lemma MakeTriedOk(h: Hashes, s: State, id: nat)
    requires Consistent(h, s) && id in s.mapInfo && !s.mapInfo[id].fInTried
    ensures var t := MakeTried(h, s, id);
            && Consistent(h, t) && Keeps(s, t)
            && id in t.mapInfo && t.mapInfo[id].fInTried
            && t.collisions == s.collisions && t.nLastGood == s.nLastGood
            && t.vvTried == s.vvTried[TriedSlot(h, s.nKey, s.mapInfo[id].address.service) := id]
            && InfosKept(s.mapInfo[id := s.mapInfo[id].(fInTried := true)], t.mapInfo)
  {
    hide ConsistentBut, TriedSlot, Evict, Without, Keeps, InfosKept;
    LoosenOk(h, s, id);
    var slot := TriedSlot(h, s.nKey, s.mapInfo[id].address.service);
    var t := Loosen(s, id);
    LoosenKeeps(s, id);
    if slot in t.vvTried {
      EvictOk(h, t, slot, {id}, 1);
      var u := Evict(h, t, slot, {id}, 1);
      InfosKeptTrans(s.mapInfo, t.mapInfo, u.mapInfo);
      assert id in {id};
      TriedAtLast(h, s, u, id);
    } else {
      assert s.vvTried - {slot} == s.vvTried;
      TriedAtLast(h, s, t, id);
    }
  }

  lemma LoosenKeeps(s: State, id: nat)
    requires id in s.mapInfo
    ensures InfosKept(s.mapInfo, Loosen(s, id).mapInfo) && id in Loosen(s, id).mapInfo
  {
  }

  lemma InfosKeptTrans(m: map<nat, Info>, n: map<nat, Info>, o: map<nat, Info>)
    requires InfosKept(m, n) && InfosKept(n, o)
    ensures InfosKept(m, o)
  {
  }

  // ----- The operations -----

  /** Rewriting the statistics of one info. */
  function Touch(s: State, id: nat, info: Info): State
    requires id in s.mapInfo
  {
    s.(mapInfo := s.mapInfo[id := info])
  }

  lemma TouchOk(h: Hashes, s: State, id: nat, info: Info, loose: set<nat>, owed: int)
    requires ConsistentBut(h, s, loose, owed) && id in s.mapInfo
    requires info.address.service == s.mapInfo[id].address.service
    requires info.fInTried == s.mapInfo[id].fInTried && info.nRefCount == s.mapInfo[id].nRefCount
    requires info.nRandomPos == s.mapInfo[id].nRandomPos
    ensures ConsistentBut(h, Touch(s, id, info), loose, owed) && Keeps(s, Touch(s, id, info))
  {
    hide IdsOk, AddrOk, RandomOk, TriedSlotsOk, NewSlotsOk, RefsOk, CountsOk, SettledBut;
    InPlaceOk(s.mapInfo, id, info, s);
    assert SameShape(s.mapInfo, Touch(s, id, info).mapInfo);
    ShapeOk(h, s, Touch(s, id, info), loose, owed);
  }

  /** The id known for a network address, if any. */
  predicate Finds(s: State, addr: NetAddr) {
    addr in s.mapAddr && s.mapAddr[addr] in s.mapInfo
  }

  predicate FindsService(s: State, svc: Service) {
    Finds(s, svc.addr) && s.mapInfo[s.mapAddr[svc.addr]].address.service == svc
  }

  function Good(h: Hashes, s: State, svc: Service, testBeforeEvict: bool, time: int): State
    requires Consistent(h, s)
  {
    var s0 := s.(nLastGood := time);
    if !FindsService(s, svc) then s0 else
      var id := s.mapAddr[svc.addr];
      var info := s.mapInfo[id];
      var touched := info.(nLastSuccess := time, nLastTry := time, nAttempts := 0);
      TouchOk(h, s0, id, touched, {}, 0);
      var s1 := Touch(s0, id, touched);
      if info.fInTried || SlotsOf(s.vvNew, id) == {} then s1
      else if testBeforeEvict && TriedSlot(h, s.nKey, svc) in s.vvTried then
        if |s.collisions| < ADDRMAN_SET_TRIED_COLLISION_SIZE then s1.(collisions := s.collisions + {id}) else s1
      else MakeTried(h, s1, id)
  }

  /** Every known id in the collision set has its tried slot taken; the set stays small. */
  predicate CollisionsOk(h: Hashes, s: State) {
    && |s.collisions| <= ADDRMAN_SET_TRIED_COLLISION_SIZE
    && forall id :: id in s.collisions && id in s.mapInfo ==>
        TriedSlot(h, s.nKey, s.mapInfo[id].address.service) in s.vvTried
  }

  predicate Sound(h: Hashes, s: State) {
    Consistent(h, s) && CollisionsOk(h, s)
  }

  /** Steps that keep addresses and taken slots keep the collision set sound. */
  lemma KeepsCollisions(h: Hashes, s: State, t: State)
    requires Sound(h, s) && Keeps(s, t) && Consistent(h, t) && t.collisions <= s.collisions
    ensures Sound(h, t)
  {
    hide TriedSlotsOk, NewSlotsOk, RefsOk, CountsOk, SettledBut, TriedSlot;
    CardinalityLe(t.collisions, s.collisions);
    assert IdsOk(s.mapInfo, s.collisions, s.nIdCount);
  }

  lemma CardinalityLe<T>(a: set<T>, b: set<T>)
    requires a <= b
    ensures |a| <= |b|
  {
    assert b == a + (b - a);
  }

  /** The bail-out for an untried id in no new bucket is unreachable. */
  lemma UntriedIsInABucket(h: Hashes, s: State, id: nat)
    requires Consistent(h, s) && id in s.mapInfo && !s.mapInfo[id].fInTried
    ensures SlotsOf(s.vvNew, id) != {}
  {
    assert Settled(h, s.nKey, s.mapInfo[id], id, s.vvTried);
  }

  lemma GoodOk(h: Hashes, s: State, svc: Service, testBeforeEvict: bool, time: int)
    requires Sound(h, s)
    ensures var t := Good(h, s, svc, testBeforeEvict, time);
            && Sound(h, t) && Keeps(s, t)
            && (!testBeforeEvict ==> t.collisions == s.collisions)
            && (StampsOk(s) && time > 0 ==> StampsOk(t))
  {
    hide IdsOk, AddrOk, RandomOk, TriedSlotsOk, NewSlotsOk, RefsOk, CountsOk, SettledBut, TriedSlot, MakeTried;
    var s0 := s.(nLastGood := time);
    var t := Good(h, s, svc, testBeforeEvict, time);
    if FindsService(s, svc) {
      var id := s.mapAddr[svc.addr];
      var touched := s.mapInfo[id].(nLastSuccess := time, nLastTry := time, nAttempts := 0);
      TouchOk(h, s0, id, touched, {}, 0);
      var s1 := Touch(s0, id, touched);
      KeepsCollisions(h, s, s1);
      if !s.mapInfo[id].fInTried {
        UntriedIsInABucket(h, s, id);
        if testBeforeEvict && TriedSlot(h, s.nKey, svc) in s.vvTried {
          AddCollision(h, s1, id);
        } else {
          MakeTriedOk(h, s1, id);
          KeepsTrans(s, s1, t);
          KeepsCollisions(h, s1, t);
        }
      }
    }
  }

  lemma AddCollision(h: Hashes, s: State, id: nat)
    requires Sound(h, s) && id in s.mapInfo && TriedSlot(h, s.nKey, s.mapInfo[id].address.service) in s.vvTried
    ensures |s.collisions| < ADDRMAN_SET_TRIED_COLLISION_SIZE ==> Sound(h, s.(collisions := s.collisions + {id}))
  {
    hide AddrOk, RandomOk, TriedSlotsOk, NewSlotsOk, RefsOk, CountsOk, SettledBut, TriedSlot;
  }

  /** Whether the statistics of an entry are bad enough to overwrite it. */
  predicate IsTerrible(info: Info, now: int) {
    if info.nLastTry != 0 && info.nLastTry >= now - 60 then false
    else
      || info.address.nTime > now + 10 * 60
      || info.address.nTime == 0 || now - info.address.nTime > ADDRMAN_HORIZON_DAYS * 24 * 60 * 60
      || (info.nLastSuccess == 0 && info.nAttempts >= ADDRMAN_RETRIES)
      || (now - info.nLastSuccess > ADDRMAN_MIN_FAIL_DAYS * 24 * 60 * 60 && info.nAttempts >= ADDRMAN_MAX_FAILURES)
  }

  /** Puts an untried id into the new slot its source selects, if the occupant may go. */
  function Place(h: Hashes, s: State, id: nat, source: NetAddr, now: int, ghost loose: set<nat>): (t: State)
    requires ConsistentBut(h, s, loose, 0) && loose <= {id} && id in s.mapInfo && !s.mapInfo[id].fInTried
  {
    var info := s.mapInfo[id];
    var slot := NewSlot(h, s.nKey, info.address.service, GetNewBucket(h, s.nKey, info.address.service, source));
    if slot in s.vvNew && s.vvNew[slot] == id then s
    else if slot !in s.vvNew || IsTerrible(s.mapInfo[s.vvNew[slot]], now)
            || (s.mapInfo[s.vvNew[slot]].nRefCount > 1 && info.nRefCount == 0) then
      ClearNewKeeps(s, slot);
      Enter(ClearNew(s, slot), id, slot)
    else if info.nRefCount == 0 then Delete(s, id)
    else s
  }

  lemma ReplaceOk(h: Hashes, s: State, id: nat, bucket: nat, loose: set<nat>)
    requires ConsistentBut(h, s, loose, 0) && loose <= {id} && id in s.mapInfo && !s.mapInfo[id].fInTried
    requires s.mapInfo[id].nRefCount < ADDRMAN_NEW_BUCKETS_PER_ADDRESS && bucket < ADDRMAN_NEW_BUCKET_COUNT
    requires var slot := NewSlot(h, s.nKey, s.mapInfo[id].address.service, bucket);
             slot in s.vvNew ==> s.vvNew[slot] in s.mapInfo && s.vvNew[slot] != id
    ensures var slot := NewSlot(h, s.nKey, s.mapInfo[id].address.service, bucket);
            var c := ClearNew(s, slot);
            && id in c.mapInfo && Consistent(h, Enter(c, id, slot)) && InfosKept(s.mapInfo, Enter(c, id, slot).mapInfo)
            && c == s.(mapInfo := c.mapInfo, mapAddr := c.mapAddr, vRandom := c.vRandom, nNew := c.nNew,
              vvNew := c.vvNew)
  {
    hide IdsOk, AddrOk, RandomOk, TriedSlotsOk, NewSlotsOk, RefsOk, CountsOk, SettledBut, NewSlot, ClearNew, InfosKept;
    var slot := NewSlot(h, s.nKey, s.mapInfo[id].address.service, bucket);
    ClearNewOk(h, s, slot, loose, 0);
    ClearNewKeeps(s, slot);
    var c := ClearNew(s, slot);
    EnterKeepsInfos(s.mapInfo, c, id, slot);
    EnterOk(h, c, id, bucket, loose, 0);
    assert loose - {id} == {};
  }

  lemma EnterKeepsInfos(m: map<nat, Info>, s: State, id: nat, slot: Slot)
    requires InfosKept(m, s.mapInfo) && id in s.mapInfo
    ensures InfosKept(m, Enter(s, id, slot).mapInfo)
    ensures id in m && m[id].address == s.mapInfo[id].address && (s.mapInfo[id].fInTried ==> m[id].fInTried)
  {
  }

  lemma PlaceOk(h: Hashes, s: State, id: nat, source: NetAddr, now: int, loose: set<nat>)
    requires ConsistentBut(h, s, loose, 0) && loose <= {id} && id in s.mapInfo && !s.mapInfo[id].fInTried
    requires s.mapInfo[id].nRefCount < ADDRMAN_NEW_BUCKETS_PER_ADDRESS
    ensures var t := Place(h, s, id, source, now, loose);
            && Consistent(h, t) && InfosKept(s.mapInfo, t.mapInfo)
            && t.vvTried == s.vvTried && t.nKey == s.nKey && t.nIdCount == s.nIdCount && t.collisions == s.collisions
            && t.nLastGood == s.nLastGood
  {
    hide IdsOk, AddrOk, RandomOk, TriedSlotsOk, NewSlotsOk, RefsOk;
    hide CountsOk, SettledBut, NewSlot, ClearNew, Delete, IsTerrible, GetNewBucket;
    var bucket := GetNewBucket(h, s.nKey, s.mapInfo[id].address.service, source);
    var slot := NewSlot(h, s.nKey, s.mapInfo[id].address.service, bucket);
    RefsKnown(h, s, id, loose);
    LooseHasNoSlot(h, s, slot, loose);
    if slot in s.vvNew && s.vvNew[slot] == id {
      assert loose == {};
    } else if slot !in s.vvNew || IsTerrible(s.mapInfo[s.vvNew[slot]], now)
              || (s.mapInfo[s.vvNew[slot]].nRefCount > 1 && s.mapInfo[id].nRefCount == 0) {
      NewBucketInRange(h, s.nKey, s.mapInfo[id].address.service, source);
      ReplaceOk(h, s, id, bucket, loose);
    } else if s.mapInfo[id].nRefCount == 0 {
      DeleteOk(h, s, id, loose, 0);
      DeleteShape(s, id);
      assert loose - {id} == {};
    } else {
      assert loose == {};
    }
  }

  lemma NewBucketInRange(h: Hashes, key: Key, svc: Service, source: NetAddr)
    ensures GetNewBucket(h, key, svc, source) < ADDRMAN_NEW_BUCKET_COUNT
  {
  }

  lemma RefsKnown(h: Hashes, s: State, id: nat, loose: set<nat>)
    requires ConsistentBut(h, s, loose, 0) && id in s.mapInfo && !s.mapInfo[id].fInTried
    ensures s.mapInfo[id].nRefCount == 0 <==> id in loose
    ensures forall slot :: slot in s.vvNew ==> s.vvNew[slot] in s.mapInfo
  {
  }

  lemma LooseHasNoSlot(h: Hashes, s: State, slot: Slot, loose: set<nat>)
    requires ConsistentBut(h, s, loose, 0)
    ensures slot in s.vvNew ==> s.vvNew[slot] !in loose
  {
    if slot in s.vvNew {
      assert slot in SlotsOf(s.vvNew, s.vvNew[slot]);
    }
  }

  lemma CreateSlots(h: Hashes, key: Key, m: map<nat, Info>, id: nat, info: Info, tried: map<Slot, nat>,
                    unseen: map<Slot, nat>, loose: set<nat>)
    requires TriedSlotsOk(h, key, m, tried) && NewSlotsOk(h, key, m, unseen) && RefsOk(m, unseen)
    requires SettledBut(h, key, m, tried, loose) && id !in m && !info.fInTried && info.nRefCount == 0
    ensures var n := m[id := info];
            && TriedSlotsOk(h, key, n, tried) && NewSlotsOk(h, key, n, unseen) && RefsOk(n, unseen)
            && SettledBut(h, key, n, tried, loose + {id})
  {
    assert SlotsOf(unseen, id) == {};
  }

  lemma CreateCounts(m: map<nat, Info>, id: nat, info: Info)
    requires id !in m && !info.fInTried
    ensures TriedIds(m[id := info]) == TriedIds(m) && NewIds(m[id := info]) == NewIds(m) + {id} && id !in NewIds(m)
  {
  }

  /** A new id is in no table yet. */
  lemma CreateOk(h: Hashes, s: State, addr: Address, source: NetAddr)
    requires Consistent(h, s) && !Finds(s, addr.service.addr)
    ensures ConsistentBut(h, Create(s, addr, source), {s.nIdCount}, 1)
  {
    hide IdsOk, AddrOk, RandomOk, TriedSlotsOk, NewSlotsOk, RefsOk, TriedIds, NewIds, SettledBut;
    var id := s.nIdCount;
    var t := Create(s, addr, source);
    CreateIds(s, addr, source);
    CreateAddr(s.mapInfo, s.mapAddr, id, t.mapInfo[id]);
    CreateRandom(s.mapInfo, s.vRandom, id, t.mapInfo[id]);
    CreateSlots(h, s.nKey, s.mapInfo, id, t.mapInfo[id], s.vvTried, s.vvNew, {});
    assert {} + {id} == {id};
    CreateCounts(s.mapInfo, id, t.mapInfo[id]);
  }

  lemma CreateIds(s: State, addr: Address, source: NetAddr)
    requires IdsOk(s.mapInfo, s.collisions, s.nIdCount) && AddrOk(s.mapInfo, s.mapAddr) && !Finds(s, addr.service.addr)
    ensures s.nIdCount !in s.mapInfo && addr.service.addr !in s.mapAddr
    ensures IdsOk(Create(s, addr, source).mapInfo, s.collisions, s.nIdCount + 1)
  {
  }

  lemma CreateAddr(m: map<nat, Info>, mapAddr: map<NetAddr, nat>, id: nat, info: Info)
    requires AddrOk(m, mapAddr) && id !in m && info.address.service.addr !in mapAddr
    ensures AddrOk(m[id := info], mapAddr[info.address.service.addr := id])
  {
  }

  lemma CreateRandom(m: map<nat, Info>, vRandom: seq<nat>, id: nat, info: Info)
    requires RandomOk(m, vRandom) && id !in m && info.nRandomPos == |vRandom|
    ensures RandomOk(m[id := info], vRandom + [id])
  {
  }

  function Max0(x: int): int {
    if x < 0 then 0 else x
  }

  /** The refreshed info of an address heard of again. */
  function Refreshed(info: Info, addr: Address, penalty: int, now: int): Info {
    var interval := if now - addr.nTime < 24 * 60 * 60 then 60 * 60 else 24 * 60 * 60;
    var nTime :=
      if addr.nTime != 0 && (info.address.nTime == 0 || info.address.nTime < addr.nTime - interval - penalty)
      then Max0(addr.nTime - penalty) else info.address.nTime;
    info.(address := info.address.(nTime := nTime, nServices := info.address.nServices + addr.nServices))
  }

  /** Adds an address heard from `source`; `lucky` is the outcome of the stochastic test. */
  function Add(h: Hashes, s: State, addr: Address, source: NetAddr, penalty: int, routable: bool, now: int,
               lucky: bool): (r: (State, bool))
    requires Consistent(h, s)
  {
    if !routable then (s, false) else
      var p := if addr.service.addr == source then 0 else penalty;
      if Finds(s, addr.service.addr) then
        var id := s.mapAddr[addr.service.addr];
        var info := Refreshed(s.mapInfo[id], addr, p, now);
        var t := Touch(s, id, info);
        if || addr.nTime == 0 || (info.address.nTime != 0 && addr.nTime <= info.address.nTime)
           || info.fInTried || info.nRefCount == ADDRMAN_NEW_BUCKETS_PER_ADDRESS
           || (info.nRefCount > 0 && !lucky)
        then (t, false)
        else
          TouchOk(h, s, id, info, {}, 0);
          (Place(h, t, id, source, now, {}), false)
      else
        var id := s.nIdCount;
        CreateOk(h, s, addr, source);
        var t := Create(s, addr, source);
        var info := t.mapInfo[id].(address := addr.(nTime := Max0(addr.nTime - p)));
        TouchOk(h, t, id, info, {id}, 1);
        CountNew(h, Touch(t, id, info), {id}, 1);
        var u := Touch(t, id, info).(nNew := s.nNew + 1);
        (Place(h, u, id, source, now, {id}), true)
  }

  lemma AddOk(h: Hashes, s: State, addr: Address, source: NetAddr, penalty: int, routable: bool, now: int, lucky: bool)
    requires Sound(h, s)
    ensures var t := Add(h, s, addr, source, penalty, routable, now, lucky).0;
            Sound(h, t) && Keeps(s, t) && (StampsOk(s) ==> StampsOk(t))
  {
    hide IdsOk, AddrOk, RandomOk, TriedSlotsOk, NewSlotsOk, RefsOk;
    hide CountsOk, SettledBut, TriedSlot, Place, Refreshed, CollisionsOk;
    var p := if addr.service.addr == source then 0 else penalty;
    var r := Add(h, s, addr, source, penalty, routable, now, lucky).0;
    if routable {
      if Finds(s, addr.service.addr) {
        AddKnownOk(h, s, addr, source, p, now, lucky);
      } else {
        AddUnknownOk(h, s, addr, source, p, now);
      }
      KeepsCollisions(h, s, r);
    }
  }

  lemma RefreshedShape(info: Info, addr: Address, penalty: int, now: int)
    ensures var r := Refreshed(info, addr, penalty, now);
            r == info.(address := r.address) && r.address.service == info.address.service
  {
  }

  lemma RefCountBound(h: Hashes, s: State, id: nat)
    requires Consistent(h, s) && id in s.mapInfo
    ensures 0 <= s.mapInfo[id].nRefCount <= ADDRMAN_NEW_BUCKETS_PER_ADDRESS
  {
    assert Settled(h, s.nKey, s.mapInfo[id], id, s.vvTried);
    if s.mapInfo[id].fInTried {
      assert SlotsOf(s.vvNew, id) == {};
    }
  }

  lemma AddKnownOk(h: Hashes, s: State, addr: Address, source: NetAddr, p: int, now: int, lucky: bool)
    requires Consistent(h, s) && Finds(s, addr.service.addr)
    ensures var id := s.mapAddr[addr.service.addr];
            var info := Refreshed(s.mapInfo[id], addr, p, now);
            var t := Touch(s, id, info);
            && Consistent(h, t) && Keeps(s, t) && (StampsOk(s) ==> StampsOk(t))
            && (!info.fInTried && info.nRefCount != ADDRMAN_NEW_BUCKETS_PER_ADDRESS ==>
                 var r := Place(h, t, id, source, now, {});
                 && Consistent(h, r) && Keeps(s, r) && r.nIdCount == s.nIdCount && r.collisions == s.collisions
                 && (StampsOk(s) ==> StampsOk(r)))
  {
    hide IdsOk, AddrOk, RandomOk, TriedSlotsOk, NewSlotsOk, RefsOk, CountsOk, SettledBut, Place, Refreshed;
    var id := s.mapAddr[addr.service.addr];
    RefreshedShape(s.mapInfo[id], addr, p, now);
    var info := Refreshed(s.mapInfo[id], addr, p, now);
    var t := Touch(s, id, info);
    TouchOk(h, s, id, info, {}, 0);
    RefCountBound(h, s, id);
    if !info.fInTried && info.nRefCount != ADDRMAN_NEW_BUCKETS_PER_ADDRESS {
      PlaceOk(h, t, id, source, now, {});
    }
  }

  lemma AddUnknownOk(h: Hashes, s: State, addr: Address, source: NetAddr, p: int, now: int)
    requires Consistent(h, s) && !Finds(s, addr.service.addr)
    ensures var id := s.nIdCount;
            var t := Create(s, addr, source);
            var info := t.mapInfo[id].(address := addr.(nTime := Max0(addr.nTime - p)));
            var u := Touch(t, id, info).(nNew := s.nNew + 1);
            && ConsistentBut(h, u, {id}, 0)
            && var r := Place(h, u, id, source, now, {id});
               && Consistent(h, r) && Keeps(s, r) && r.collisions == s.collisions && r.nIdCount == s.nIdCount + 1
               && (StampsOk(s) ==> StampsOk(r))
  {
    hide ConsistentBut, Place, InfosKept, Keeps, StampsOk;
    var id := s.nIdCount;
    CreateOk(h, s, addr, source);
    var t := Create(s, addr, source);
    var info := t.mapInfo[id].(address := addr.(nTime := Max0(addr.nTime - p)));
    TouchOk(h, t, id, info, {id}, 1);
    CountNew(h, Touch(t, id, info), {id}, 1);
    var u := Touch(t, id, info).(nNew := s.nNew + 1);
    PlaceOk(h, u, id, source, now, {id});
    assert u.mapInfo == s.mapInfo[id := info];
    AddedKeeps(s, info, Place(h, u, id, source, now, {id}));
  }

  /** One more untried info, wherever the infos are then kept. */
  lemma AddedKeeps(s: State, info: Info, r: State)
    requires InfosKept(s.mapInfo[s.nIdCount := info], r.mapInfo) && !info.fInTried
    requires info.nLastTry >= 0 && info.nLastSuccess >= 0
    requires r.nKey == s.nKey && r.nIdCount == s.nIdCount + 1 && r.vvTried == s.vvTried
    ensures Keeps(s, r) && (StampsOk(s) ==> StampsOk(r))
  {
  }

  function Attempt(s: State, svc: Service, countFailure: bool, time: int): State {
    if !FindsService(s, svc) then s else
      var id := s.mapAddr[svc.addr];
      var info := s.mapInfo[id].(nLastTry := time);
      Touch(s, id,
        if countFailure && info.nLastCountAttempt < s.nLastGood
        then info.(nLastCountAttempt := time, nAttempts := info.nAttempts + 1) else info)
  }

  function Connected(s: State, svc: Service, time: int): State {
    if !FindsService(s, svc) then s else
      var id := s.mapAddr[svc.addr];
      var info := s.mapInfo[id];
      if time - info.address.nTime > 20 * 60 then Touch(s, id, info.(address := info.address.(nTime := time))) else s
  }

  function SetServices(s: State, svc: Service, services: set<nat>): State {
    if !FindsService(s, svc) then s else
      var id := s.mapAddr[svc.addr];
      var info := s.mapInfo[id];
      Touch(s, id, info.(address := info.address.(nServices := services)))
  }

  /** Rewriting the statistics of a known id keeps everything. */
  lemma StatisticsOk(h: Hashes, s: State, id: nat, info: Info)
    requires Sound(h, s) && id in s.mapInfo
    requires info.address.service == s.mapInfo[id].address.service
    requires info.fInTried == s.mapInfo[id].fInTried && info.nRefCount == s.mapInfo[id].nRefCount
    requires info.nRandomPos == s.mapInfo[id].nRandomPos
    ensures Sound(h, Touch(s, id, info)) && Keeps(s, Touch(s, id, info))
    ensures StampsOk(s) && info.nLastTry >= 0 && info.nLastSuccess == s.mapInfo[id].nLastSuccess ==>
              StampsOk(Touch(s, id, info))
  {
    hide IdsOk, AddrOk, RandomOk, TriedSlotsOk, NewSlotsOk, RefsOk, CountsOk, SettledBut, CollisionsOk, Keeps;
    TouchOk(h, s, id, info, {}, 0);
    KeepsCollisions(h, s, Touch(s, id, info));
  }

  lemma AttemptOk(h: Hashes, s: State, svc: Service, countFailure: bool, time: int)
    requires Sound(h, s)
    ensures var t := Attempt(s, svc, countFailure, time);
            Sound(h, t) && Keeps(s, t) && (StampsOk(s) && time >= 0 ==> StampsOk(t))
  {
    hide Consistent, CollisionsOk, StampsOk;
    if FindsService(s, svc) {
      StatisticsOk(h, s, s.mapAddr[svc.addr], Attempt(s, svc, countFailure, time).mapInfo[s.mapAddr[svc.addr]]);
    }
  }

  lemma ConnectedOk(h: Hashes, s: State, svc: Service, time: int)
    requires Sound(h, s)
    ensures var t := Connected(s, svc, time); Sound(h, t) && Keeps(s, t) && (StampsOk(s) ==> StampsOk(t))
  {
    hide Consistent, CollisionsOk;
    if FindsService(s, svc) {
      var info := s.mapInfo[s.mapAddr[svc.addr]];
      StatisticsOk(h, s, s.mapAddr[svc.addr], info.(address := info.address.(nTime := time)));
    }
  }

  lemma SetServicesOk(h: Hashes, s: State, svc: Service, services: set<nat>)
    requires Sound(h, s)
    ensures var t := SetServices(s, svc, services); Sound(h, t) && Keeps(s, t) && (StampsOk(s) ==> StampsOk(t))
  {
    hide Consistent, CollisionsOk;
    if FindsService(s, svc) {
      StatisticsOk(h, s, s.mapAddr[svc.addr], SetServices(s, svc, services).mapInfo[s.mapAddr[svc.addr]]);
    }
  }

  /** Decides one collision: drop it, keep it, or let the newcomer replace the occupant. */
  function ResolveOne(h: Hashes, s: State, id: nat, now: int, valid: Service -> bool): State
    requires Consistent(h, s)
  {
    if id !in s.mapInfo || !valid(s.mapInfo[id].address.service) then s.(collisions := s.collisions - {id})
    else
      var info := s.mapInfo[id];
      var slot := TriedSlot(h, s.nKey, info.address.service);
      if slot in s.vvTried then
        var held := s.mapInfo[s.vvTried[slot]];
        if now - held.nLastSuccess < ADDRMAN_REPLACEMENT_HOURS * 60 * 60 then s.(collisions := s.collisions - {id})
        else if now - held.nLastTry < ADDRMAN_REPLACEMENT_HOURS * 60 * 60 then
          if now - held.nLastTry > 60 then Replaced(h, s, id, now) else s
        else if now - info.nLastSuccess > ADDRMAN_TEST_WINDOW then Replaced(h, s, id, now)
        else s
      else Replaced(h, s, id, now)
  }

  function Replaced(h: Hashes, s: State, id: nat, now: int): State
    requires Consistent(h, s) && id in s.mapInfo
  {
    var t := Good(h, s, s.mapInfo[id].address.service, false, now);
    t.(collisions := t.collisions - {id})
  }

  lemma ForgetCollision(h: Hashes, s: State, id: nat)
    requires Sound(h, s)
    ensures Sound(h, s.(collisions := s.collisions - {id})) && Keeps(s, s.(collisions := s.collisions - {id}))
  {
    hide TriedSlotsOk, NewSlotsOk, RefsOk, CountsOk, SettledBut, TriedSlot;
    CardinalityLe(s.collisions - {id}, s.collisions);
  }

  lemma ResolveOneOk(h: Hashes, s: State, id: nat, now: int, valid: Service -> bool)
    requires Sound(h, s)
    ensures var t := ResolveOne(h, s, id, now, valid);
            && Sound(h, t) && Keeps(s, t) && t.collisions <= s.collisions && s.collisions - {id} <= t.collisions
            && (StampsOk(s) && now > 0 ==> StampsOk(t))
  {
    hide IdsOk, AddrOk, RandomOk, NewSlotsOk, RefsOk, CountsOk, SettledBut, TriedSlot, Good, CollisionsOk;
    ForgetCollision(h, s, id);
    if id in s.mapInfo {
      var svc := s.mapInfo[id].address.service;
      GoodOk(h, s, svc, false, now);
      ForgetCollision(h, Good(h, s, svc, false, now), id);
    }
  }

  ghost function Least(s: set<nat>): (m: nat)
    requires s != {}
    ensures m in s && forall x :: x in s ==> m <= x
  {
    LeastExists(s);
    var least :| least in s && forall x :: x in s ==> least <= x;
    least
  }

  lemma LeastExists(s: set<nat>)
    requires s != {}
    ensures exists m :: m in s && forall x :: x in s ==> m <= x
  {
    var _ := LeastOf(s);
  }

  lemma {:induction false} LeastOf(s: set<nat>) returns (m: nat)
    requires s != {}
    ensures m in s && forall x :: x in s ==> m <= x
    decreases |s|
  {
    var a :| a in s;
    if s == {a} {
      m := a;
    } else {
      var rest := LeastOf(s - {a});
      m := if a < rest then a else rest;
      forall x | x in s
        ensures m <= x
      {
        assert x == a || x in s - {a};
      }
    }
  }

  /** Goes through the collisions in id order. */
  ghost function Resolve(h: Hashes, s: State, todo: set<nat>, now: int, valid: Service -> bool): State
    requires Sound(h, s)
    decreases |todo|
  {
    if todo == {} then s else
      var id := Least(todo);
      ResolveOneOk(h, s, id, now, valid);
      Resolve(h, ResolveOne(h, s, id, now, valid), todo - {id}, now, valid)
  }

  lemma {:induction false} ResolveOk(h: Hashes, s: State, todo: set<nat>, now: int, valid: Service -> bool)
    requires Sound(h, s)
    ensures var t := Resolve(h, s, todo, now, valid);
            Sound(h, t) && Keeps(s, t) && (StampsOk(s) && now > 0 ==> StampsOk(t))
    decreases |todo|
  {
    hide Consistent, CollisionsOk, StampsOk, ResolveOne, Keeps;
    if todo != {} {
      var id := Least(todo);
      ResolveOneOk(h, s, id, now, valid);
      var t := ResolveOne(h, s, id, now, valid);
      ResolveOk(h, t, todo - {id}, now, valid);
      KeepsTrans(s, t, Resolve(h, s, todo, now, valid));
    } else {
      KeepsRefl(s);
    }
  }

  lemma KeepsRefl(s: State)
    ensures Keeps(s, s)
  {
  }

  /** A known id in the collision set always has an occupant to test: no lookup of an empty slot. */
  lemma CollisionHasOccupant(h: Hashes, s: State, id: nat)
    requires Sound(h, s) && id in s.collisions && id in s.mapInfo
    ensures var slot := TriedSlot(h, s.nKey, s.mapInfo[id].address.service);
            slot in s.vvTried && s.vvTried[slot] in s.mapInfo && s.mapInfo[s.vvTried[slot]].fInTried
  {
    hide TriedSlot;
  }

  /** Shuffling vRandom while drawing addresses. */
  lemma ShuffleOk(h: Hashes, s: State, i: nat, j: nat)
    requires Sound(h, s) && i < |s.vRandom| && j < |s.vRandom|
    ensures s.vRandom[i] in s.mapInfo && s.vRandom[j] in s.mapInfo
    ensures Sound(h, SwapRandom(s, i, j)) && Keeps(s, SwapRandom(s, i, j))
    ensures StampsOk(s) ==> StampsOk(SwapRandom(s, i, j))
  {
    hide IdsOk, AddrOk, RandomOk, TriedSlotsOk, NewSlotsOk;
    hide RefsOk, CountsOk, SettledBut, TriedSlot, SwapRandom, CollisionsOk;
    RandomListsIds(s.mapInfo, s.vRandom, i);
    RandomListsIds(s.mapInfo, s.vRandom, j);
    SwapRandomOk(s, i, j);
    assert SameShape(s.mapInfo, SwapRandom(s, i, j).mapInfo);
    ShapeOk(h, s, SwapRandom(s, i, j), {}, 0);
    KeepsCollisions(h, s, SwapRandom(s, i, j));
  }

  lemma RandomListsIds(m: map<nat, Info>, vRandom: seq<nat>, i: nat)
    requires RandomOk(m, vRandom) && i < |vRandom|
    ensures vRandom[i] in m
  {
  }

  /** The swaps made while drawing addresses; `picks` are the random draws. */
  function Shuffle(h: Hashes, s: State, n: nat, picks: seq<nat>): State
    requires Sound(h, s)
    decreases |picks|
  {
    if picks == [] || n >= |s.vRandom| then s else
      var j := n + picks[0] % (|s.vRandom| - n);
      ShuffleOk(h, s, n, j);
      Shuffle(h, SwapRandom(s, n, j), n + 1, picks[1..])
  }

  lemma {:induction false} ShufflesOk(h: Hashes, s: State, n: nat, picks: seq<nat>)
    requires Sound(h, s)
    ensures var t := Shuffle(h, s, n, picks); Sound(h, t) && Keeps(s, t) && (StampsOk(s) ==> StampsOk(t))
    decreases |picks|
  {
    hide Consistent, CollisionsOk, StampsOk, Keeps, SwapRandom;
    if picks == [] || n >= |s.vRandom| {
      KeepsRefl(s);
    } else {
      var j := n + picks[0] % (|s.vRandom| - n);
      ShuffleOk(h, s, n, j);
      var t := SwapRandom(s, n, j);
      ShufflesOk(h, t, n + 1, picks[1..]);
      KeepsTrans(s, t, Shuffle(h, t, n + 1, picks[1..]));
    }
  }

  // ----- Runs -----

  /** One call on the manager, with its random draws and clock reading as arguments. */
  datatype Op =
    | AddOp(addr: Address, source: NetAddr, penalty: int, routable: bool, now: int, lucky: bool)
    | GoodOp(svc: Service, testBeforeEvict: bool, time: int)
    | AttemptOp(svc: Service, countFailure: bool, time: int)
    | ConnectedOp(svc: Service, time: int)
    | SetServicesOp(svc: Service, services: set<nat>)
    | GetAddrOp(picks: seq<nat>)
    | ResolveOp(now: int, valid: Service -> bool)
    | SelectOp(pick: nat)

  /** The clock readings that become time stamps are positive. */
  predicate Timely(op: Op) {
    match op
    case GoodOp(_, _, time) => time > 0
    case AttemptOp(_, _, time) => time >= 0
    case ResolveOp(now, _) => now > 0
    case _ => true
  }

  ghost function Step(h: Hashes, s: State, op: Op): State
    requires Sound(h, s)
  {
    match op
    case AddOp(addr, source, penalty, routable, now, lucky) => Add(h, s, addr, source, penalty, routable, now, lucky).0
    case GoodOp(svc, testBeforeEvict, time) => Good(h, s, svc, testBeforeEvict, time)
    case AttemptOp(svc, countFailure, time) => Attempt(s, svc, countFailure, time)
    case ConnectedOp(svc, time) => Connected(s, svc, time)
    case SetServicesOp(svc, services) => SetServices(s, svc, services)
    case GetAddrOp(picks) => Shuffle(h, s, 0, picks)
    case ResolveOp(now, valid) => Resolve(h, s, s.collisions, now, valid)
    case SelectOp(pick) => if pick in s.collisions && pick !in s.mapInfo then s.(collisions := s.collisions - {pick})
      else s
  }

  /** Every call keeps the debug check's condition and the collision set sound. */
  lemma StepOk(h: Hashes, s: State, op: Op)
    requires Sound(h, s)
    ensures var t := Step(h, s, op); Sound(h, t) && Keeps(s, t) && (StampsOk(s) && Timely(op) ==> StampsOk(t))
  {
    hide Consistent, CollisionsOk, StampsOk, Keeps, Add, Good, Attempt, Connected, SetServices, Shuffle, Resolve;
    match op
    case AddOp(addr, source, penalty, routable, now, lucky) => AddOk(h, s, addr, source, penalty, routable, now, lucky);
    case GoodOp(svc, testBeforeEvict, time) => GoodOk(h, s, svc, testBeforeEvict, time);
    case AttemptOp(svc, countFailure, time) => AttemptOk(h, s, svc, countFailure, time);
    case ConnectedOp(svc, time) => ConnectedOk(h, s, svc, time);
    case SetServicesOp(svc, services) => SetServicesOk(h, s, svc, services);
    case GetAddrOp(picks) => ShufflesOk(h, s, 0, picks);
    case ResolveOp(now, valid) => ResolveOk(h, s, s.collisions, now, valid);
    case SelectOp(pick) => SelectOk(h, s, pick);
  }

  lemma SelectOk(h: Hashes, s: State, pick: nat)
    requires Sound(h, s)
    ensures var t := Step(h, s, SelectOp(pick)); Sound(h, t) && Keeps(s, t) && (StampsOk(s) ==> StampsOk(t))
  {
    hide Consistent, CollisionsOk;
    ForgetCollision(h, s, pick);
  }

  /** A manager just cleared, with no collisions pending. */
  function Cleared(key: Key): State {
    State(key, 0, map[], map[], [], 0, map[], 0, map[], 1, {})
  }

  lemma ClearedOk(h: Hashes, key: Key)
    ensures Sound(h, Cleared(key)) && StampsOk(Cleared(key))
  {
    assert TriedIds(map[]) == {} && NewIds(map[]) == {};
  }

  ghost function Run(h: Hashes, s: State, ops: seq<Op>): State
    requires Sound(h, s)
    decreases |ops|
  {
    if ops == [] then s else
      StepOk(h, s, ops[0]);
      Run(h, Step(h, s, ops[0]), ops[1..])
  }

  /** The debug check passes after every run, and a tried slot once taken stays taken. */
  lemma {:induction false} RunOk(h: Hashes, s: State, ops: seq<Op>)
    requires Sound(h, s)
    ensures var t := Run(h, s, ops);
            Sound(h, t) && Keeps(s, t) && (StampsOk(s) && (forall op :: op in ops ==> Timely(op)) ==> StampsOk(t))
    decreases |ops|
  {
    hide Consistent, CollisionsOk, StampsOk, Keeps, Step;
    if ops == [] {
      KeepsRefl(s);
    } else {
      StepOk(h, s, ops[0]);
      var t := Step(h, s, ops[0]);
      RunOk(h, t, ops[1..]);
      KeepsTrans(s, t, Run(h, t, ops[1..]));
    }
  }
}
