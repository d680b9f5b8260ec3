/**
  Dumps that the manager did not write itself: what reading any complete dump gives, and
  exactly when the result is consistent.
 */
module AddrForeign {

  import opened AddrTable
  import opened AddrDump

  /** The tables fit the infos; what is in no table is lost. */
  ghost predicate TablesOk(h: Hashes, key: Key, m: map<nat, Info>, tried: map<Slot, nat>, unseen: map<Slot, nat>) {
    && TriedSlotsOk(h, key, m, tried) && NewSlotsOk(h, key, m, unseen) && RefsOk(m, unseen)
    && SettledBut(h, key, m, tried, Lost(m))
  }

  /** Every address is indexed by some id that has it; with two such ids it is the later one. */
  ghost predicate Indexed(m: map<nat, Info>, mapAddr: map<NetAddr, nat>) {
    && (forall id :: id in m ==> m[id].address.service.addr in mapAddr)
    && (forall a :: a in mapAddr ==> mapAddr[a] in m && m[mapAddr[a]].address.service.addr == a)
  }

  /** What holds throughout reading: the new records are ids below `d.nNew`, the tried ones follow. */
  ghost predicate Filed(h: Hashes, d: Dump, t: State, ids: nat) {
    && (forall j: nat :: j in t.mapInfo <==> j < ids)
    && (forall j :: j in t.mapInfo ==> (t.mapInfo[j].fInTried <==> j >= d.nNew))
    && Indexed(t.mapInfo, t.mapAddr) && RandomOk(t.mapInfo, t.vRandom)
    && TablesOk(h, t.nKey, t.mapInfo, t.vvTried, t.vvNew)
    && t.nNew == d.nNew && t.collisions == {}
  }

  // ----- The steps -----

  lemma IndexedMore(m: map<nat, Info>, mapAddr: map<NetAddr, nat>, id: nat, info: Info)
    requires Indexed(m, mapAddr) && id !in m
    ensures Indexed(m[id := info], mapAddr[info.address.service.addr := id])
  {
  }

  lemma LostMore(m: map<nat, Info>, id: nat, info: Info)
    requires id !in m
    ensures Lost(m[id := info]) == if !info.fInTried && info.nRefCount == 0 then Lost(m) + {id} else Lost(m)
  {
  }

  /** One more untried record, in no table yet. */
  lemma NewRecord(h: Hashes, d: Dump, t: State, n: nat, info: Info)
    requires Filed(h, d, t, n) && n < d.nNew && !info.fInTried && info.nRefCount == 0 && info.nRandomPos == |t.vRandom|
    ensures Filed(h, d, WithInfo(t, n, info), n + 1)
  {
    hide Indexed, RandomOk, TriedSlotsOk, NewSlotsOk, RefsOk, SettledBut, Lost;
    IndexedMore(t.mapInfo, t.mapAddr, n, info);
    CreateRandom(t.mapInfo, t.vRandom, n, info);
    LostMore(t.mapInfo, n, info);
    CreateSlots(h, t.nKey, t.mapInfo, n, info, t.vvTried, t.vvNew, Lost(t.mapInfo));
  }

  lemma LostLess(m: map<nat, Info>, id: nat, n: int)
    requires id in m && n > 0
    ensures Lost(WithRefs(m, id, n)) == Lost(m) - {id}
  {
  }

  lemma IndexedSame(m: map<nat, Info>, mapAddr: map<NetAddr, nat>, id: nat, refs: int)
    requires Indexed(m, mapAddr) && id in m
    ensures Indexed(WithRefs(m, id, refs), mapAddr)
  {
  }

  /** A record enters a free slot of its own. */
  lemma Entered(h: Hashes, d: Dump, t: State, ids: nat, id: nat, slot: Slot)
    requires Filed(h, d, t, ids) && id in t.mapInfo && id < d.nNew && slot !in t.vvNew
    requires t.mapInfo[id].nRefCount < ADDRMAN_NEW_BUCKETS_PER_ADDRESS && slot.bucket < ADDRMAN_NEW_BUCKET_COUNT
    requires slot == NewSlot(h, t.nKey, t.mapInfo[id].address.service, slot.bucket)
    ensures Filed(h, d, Enter(t, id, slot), ids)
  {
    hide RandomOk, TriedSlotsOk, NewSlotsOk, SettledBut, Lost, NewSlot, RefsOk, Indexed;
    var m := t.mapInfo;
    RefsCount(m, t.vvNew, id);
    IndexedSame(m, t.mapAddr, id, m[id].nRefCount + 1);
    RefSlots(h, t.nKey, m, id, slot, t.vvTried, t.vvNew, Lost(m));
    LostLess(m, id, m[id].nRefCount + 1);
    InPlaceOk(m, id, m[id].(nRefCount := m[id].nRefCount + 1), t);
  }

  lemma HomeIsSlot(h: Hashes, key: Key, info: Info)
    ensures var slot := HomeSlot(h, key, info);
            slot.bucket < ADDRMAN_NEW_BUCKET_COUNT && slot == NewSlot(h, key, info.address.service, slot.bucket)
  {
  }

  lemma NewOneFiled(h: Hashes, d: Dump, t: State, n: nat)
    requires Filed(h, d, t, n) && n < d.nNew == |d.newInfos|
    ensures var u := LoadNewOne(h, d, t, n);
            Filed(h, d, u, n + 1) && u.vvTried == t.vvTried && u.nKey == t.nKey && u.nTried == t.nTried
  {
    hide Filed, HomeSlot, Usable;
    var info := FromRecord(d.newInfos[n], |t.vRandom|);
    NewRecord(h, d, t, n, info);
    HomeIsSlot(h, t.nKey, info);
    if HomeSlot(h, t.nKey, info) !in t.vvNew {
      Entered(h, d, WithInfo(t, n, info), n + 1, n, HomeSlot(h, t.nKey, info));
    }
  }

  lemma {:induction false} NewFiled(h: Hashes, d: Dump, n: nat)
    requires |d.newInfos| == d.nNew && n <= d.nNew
    ensures var t := LoadNew(h, d, n);
            Filed(h, d, t, n) && t.vvTried == map[] && t.nKey == d.nKey && t.nTried == d.nTried
  {
    hide Filed, LoadNewOne;
    if n > 0 {
      NewFiled(h, d, n - 1);
      NewOneFiled(h, d, LoadNew(h, d, n - 1), n - 1);
    } else {
      NothingFiled(h, d);
    }
  }

  lemma NothingFiled(h: Hashes, d: Dump)
    ensures Filed(h, d, Cleared(d.nKey).(nNew := d.nNew, nTried := d.nTried), 0)
  {
  }

  /** One more tried record takes its free slot. */
  lemma TriedSlots(h: Hashes, key: Key, m: map<nat, Info>, id: nat, info: Info, tried: map<Slot, nat>,
                   unseen: map<Slot, nat>)
    requires TablesOk(h, key, m, tried, unseen) && id !in m && info.fInTried && info.nRefCount == 0
    requires TriedSlot(h, key, info.address.service) !in tried
    ensures TablesOk(h, key, m[id := info], tried[TriedSlot(h, key, info.address.service) := id], unseen)
  {
    hide TriedSlot, NewSlot, Lost;
    LostMore(m, id, info);
    assert SlotsOf(unseen, id) == {};
  }

  lemma TriedRecord(h: Hashes, d: Dump, t: State, ids: nat, info: Info)
    requires Filed(h, d, t, ids) && d.nNew <= ids && info.fInTried && info.nRefCount == 0
    requires info.nRandomPos == |t.vRandom| && TriedSlot(h, t.nKey, info.address.service) !in t.vvTried
    ensures var u := WithInfo(t, ids, info);
            Filed(h, d, u.(vvTried := t.vvTried[TriedSlot(h, t.nKey, info.address.service) := ids]), ids + 1)
  {
    hide Indexed, RandomOk, TablesOk, TriedSlot;
    IndexedMore(t.mapInfo, t.mapAddr, ids, info);
    CreateRandom(t.mapInfo, t.vRandom, ids, info);
    TriedSlots(h, t.nKey, t.mapInfo, ids, info, t.vvTried, t.vvNew);
  }

  lemma FiledIgnores(h: Hashes, d: Dump, t: State, ids: nat, nTried: int, n: nat)
    requires Filed(h, d, t, ids)
    ensures Filed(h, d, t.(nTried := nTried, nIdCount := n), ids)
  {
  }

  /** The tried count loses one for every record that finds its slot taken. */
  ghost predicate TriedCounted(d: Dump, t: State, n: nat) {
    t.nTried == d.nTried - n + t.nIdCount - d.nNew && d.nNew <= t.nIdCount
  }

  lemma TriedOneFiled(h: Hashes, d: Dump, t: State, n: nat, r: Record)
    requires Filed(h, d, t, t.nIdCount) && TriedCounted(d, t, n)
    ensures var u := LoadTriedOne(h, t, r);
            Filed(h, d, u, u.nIdCount) && TriedCounted(d, u, n + 1) && u.nKey == t.nKey
  {
    hide Filed, TriedSlot;
    var info := FromRecord(r, |t.vRandom|).(fInTried := true);
    var slot := TriedSlot(h, t.nKey, info.address.service);
    if slot in t.vvTried {
      FiledIgnores(h, d, t, t.nIdCount, t.nTried - 1, t.nIdCount);
    } else {
      var id := t.nIdCount;
      TriedRecord(h, d, t, id, info);
      FiledIgnores(h, d, WithInfo(t, id, info).(vvTried := t.vvTried[slot := id]), id + 1, t.nTried, id + 1);
    }
  }

  lemma {:induction false} TriedFiled(h: Hashes, d: Dump, n: nat)
    requires |d.newInfos| == d.nNew && n <= |d.triedInfos|
    ensures var t := LoadTried(h, d, n); Filed(h, d, t, t.nIdCount) && TriedCounted(d, t, n)
  {
    hide Filed, LoadTriedOne, LoadNew;
    if n > 0 {
      TriedFiled(h, d, n - 1);
      TriedOneFiled(h, d, LoadTried(h, d, n - 1), n - 1, d.triedInfos[n - 1]);
    } else {
      NewFiled(h, d, d.nNew);
      FiledIgnores(h, d, LoadNew(h, d, d.nNew), d.nNew, d.nTried, d.nNew);
    }
  }

  lemma EntryFiled(h: Hashes, d: Dump, t: State, ids: nat, bucket: nat, index: int)
    requires Filed(h, d, t, ids) && (Usable(d) ==> bucket < ADDRMAN_NEW_BUCKET_COUNT)
    ensures Filed(h, d, LoadEntry(h, d, t, bucket, index), ids)
    ensures var u := LoadEntry(h, d, t, bucket, index);
            u.nKey == t.nKey && u.nIdCount == t.nIdCount && u.nTried == t.nTried
  {
    hide Filed, Usable, GetBucketPosition;
    if 0 <= index < d.nNew && index in t.mapInfo && Usable(d) {
      var slot := NewSlot(h, t.nKey, t.mapInfo[index].address.service, bucket);
      if slot !in t.vvNew && t.mapInfo[index].nRefCount < ADDRMAN_NEW_BUCKETS_PER_ADDRESS {
        Entered(h, d, t, ids, index, slot);
      }
    }
  }

  lemma {:induction false} ListFiled(h: Hashes, d: Dump, t: State, ids: nat, bucket: nat, list: seq<int>)
    requires Filed(h, d, t, ids) && (Usable(d) ==> bucket < ADDRMAN_NEW_BUCKET_COUNT)
    ensures var u := LoadList(h, d, t, bucket, list);
            Filed(h, d, u, ids) && u.nKey == t.nKey && u.nIdCount == t.nIdCount && u.nTried == t.nTried
    decreases |list|
  {
    hide Filed, LoadEntry, Usable;
    if list != [] {
      var front := list[..|list| - 1];
      ListFiled(h, d, t, ids, bucket, front);
      EntryFiled(h, d, LoadList(h, d, t, bucket, front), ids, bucket, list[|list| - 1]);
    }
  }

  lemma {:induction false} BucketsFiled(h: Hashes, d: Dump, n: nat)
    requires Complete(d) && n <= |d.buckets|
    ensures var t := LoadBuckets(h, d, n); Filed(h, d, t, t.nIdCount) && TriedCounted(d, t, d.nTried)
  {
    hide Filed, LoadList, Xor30;
    if n > 0 {
      BucketsFiled(h, d, n - 1);
      var t := LoadBuckets(h, d, n - 1);
      ListFiled(h, d, t, t.nIdCount, n - 1, d.buckets[n - 1]);
    } else {
      TriedFiled(h, d, d.nTried);
    }
  }

  // ----- Before and after pruning -----

  /** Consistency but for the address index. */
  ghost predicate SoundBut(h: Hashes, s: State, loose: set<nat>) {
    && IdsOk(s.mapInfo, s.collisions, s.nIdCount) && RandomOk(s.mapInfo, s.vRandom)
    && TriedSlotsOk(h, s.nKey, s.mapInfo, s.vvTried) && NewSlotsOk(h, s.nKey, s.mapInfo, s.vvNew)
    && RefsOk(s.mapInfo, s.vvNew) && SettledBut(h, s.nKey, s.mapInfo, s.vvTried, loose)
    && CountsOk(s.mapInfo, s.nTried, s.nNew, 0)
  }

  lemma {:induction false} RangeSize(s: set<nat>, lo: nat, hi: nat)
    requires lo <= hi && forall j: nat :: j in s <==> lo <= j < hi
    ensures |s| == hi - lo
    decreases hi - lo
  {
    if lo < hi {
      RangeSize(s - {lo}, lo + 1, hi);
    } else {
      assert s == {};
    }
  }

  lemma FiledCounts(h: Hashes, d: Dump, t: State, ids: nat)
    requires Filed(h, d, t, ids) && d.nNew <= ids
    ensures |TriedIds(t.mapInfo)| == ids - d.nNew && |NewIds(t.mapInfo)| == d.nNew
  {
    hide Indexed, RandomOk, TablesOk;
    RangeSize(TriedIds(t.mapInfo), d.nNew, ids);
    RangeSize(NewIds(t.mapInfo), 0, d.nNew);
  }

  lemma FiledIsSound(h: Hashes, d: Dump, t: State)
    requires Filed(h, d, t, t.nIdCount) && TriedCounted(d, t, d.nTried)
    ensures SoundBut(h, t, Lost(t.mapInfo)) && Indexed(t.mapInfo, t.mapAddr) && t.collisions == {}
  {
    hide Indexed, RandomOk, TriedSlotsOk, NewSlotsOk, RefsOk, SettledBut, Lost, TriedIds, NewIds;
    FiledCounts(h, d, t, t.nIdCount);
  }

  lemma DeleteSound(h: Hashes, s: State, id: nat, loose: set<nat>)
    requires SoundBut(h, s, loose) && id in loose
    ensures id in s.mapInfo && SoundBut(h, Delete(s, id), loose - {id})
  {
    hide Delete, RandomOk, TriedSlotsOk, NewSlotsOk, RefsOk, TriedIds, NewIds;
    assert id in s.mapInfo;
    var t := Delete(s, id);
    DeleteShape(s, id);
    DropCounts(s.mapInfo, t.mapInfo, id);
    DropSlots(h, s.nKey, s.mapInfo, t.mapInfo, id, s.vvNew);
    DropTried(h, s.nKey, s.mapInfo, t.mapInfo, id, s.vvTried, loose);
  }

  /** The addresses of a set of ids. */
  ghost function AddressesOf(m: map<nat, Info>, ids: set<nat>): set<NetAddr>
    requires ids <= m.Keys
  {
    set id | id in ids :: m[id].address.service.addr
  }

  /** Pruning takes the ids away, and their addresses out of the index. */
  ghost predicate Pruned(s: State, t: State, todo: set<nat>) {
    && todo <= s.mapInfo.Keys && t.mapAddr == s.mapAddr - AddressesOf(s.mapInfo, todo)
    && Reshuffled(s.mapInfo - todo, t.mapInfo) && t.collisions == s.collisions
  }

  lemma PrunedOne(s: State, t: State, u: State, id: nat, todo: set<nat>)
    requires id in todo && todo <= s.mapInfo.Keys && Reshuffled(s.mapInfo - {id}, t.mapInfo)
    requires t.collisions == s.collisions
    requires t.mapAddr == s.mapAddr - {s.mapInfo[id].address.service.addr} && Pruned(t, u, todo - {id})
    ensures Pruned(s, u, todo)
  {
    var rest := todo - {id};
    assert AddressesOf(s.mapInfo, todo) == {s.mapInfo[id].address.service.addr} + AddressesOf(t.mapInfo, rest) by {
      assert todo == {id} + rest;
      assert forall j :: j in rest ==> s.mapInfo[j].address == t.mapInfo[j].address;
    }
    assert (s.mapInfo - {id} - rest).Keys == (s.mapInfo - todo).Keys;
  }

  lemma {:induction false} PruneSound(h: Hashes, s: State, todo: set<nat>)
    requires SoundBut(h, s, todo)
    ensures todo <= s.mapInfo.Keys && SoundBut(h, Prune(s, todo), {}) && Pruned(s, Prune(s, todo), todo)
    decreases |todo|
  {
    hide SoundBut, Pruned, Delete;
    LooseKnown(h, s, todo);
    if todo == {} {
      PrunedNone(s);
    } else {
      var id := Least(todo);
      DeleteShape(s, id);
      DeleteSound(h, s, id, todo);
      PruneSound(h, Delete(s, id), todo - {id});
      PrunedOne(s, Delete(s, id), Prune(s, todo), id, todo);
    }
  }

  lemma LooseKnown(h: Hashes, s: State, loose: set<nat>)
    requires SoundBut(h, s, loose)
    ensures loose <= s.mapInfo.Keys && RandomOk(s.mapInfo, s.vRandom)
  {
  }

  lemma PrunedNone(s: State)
    ensures Pruned(s, s, {})
  {
    assert s.mapInfo - {} == s.mapInfo;
  }

  /** No two records share an address, unless both are lost. */
  ghost predicate Unshared(m: map<nat, Info>) {
    forall i, j :: i in m && j in m && i != j && m[i].address.service.addr == m[j].address.service.addr ==>
      i in Lost(m) && j in Lost(m)
  }

  lemma PrunedIndex(s: State, t: State)
    requires Indexed(s.mapInfo, s.mapAddr) && Pruned(s, t, Lost(s.mapInfo))
    ensures AddrOk(t.mapInfo, t.mapAddr) <==> Unshared(s.mapInfo)
  {
    hide Lost;
    if Unshared(s.mapInfo) {
      UnsharedIndex(s, t);
    }
    if AddrOk(t.mapInfo, t.mapAddr) {
      IndexUnshared(s, t);
    }
  }

  lemma UnsharedIndex(s: State, t: State)
    requires Indexed(s.mapInfo, s.mapAddr) && Pruned(s, t, Lost(s.mapInfo)) && Unshared(s.mapInfo)
    ensures AddrOk(t.mapInfo, t.mapAddr)
  {
    hide Lost;
    var m := s.mapInfo;
    forall id | id in t.mapInfo
      ensures m[id].address.service.addr in t.mapAddr && t.mapAddr[m[id].address.service.addr] == id
    {
      assert id in m - Lost(m);
    }
  }

  lemma IndexUnshared(s: State, t: State)
    requires Indexed(s.mapInfo, s.mapAddr) && Pruned(s, t, Lost(s.mapInfo)) && AddrOk(t.mapInfo, t.mapAddr)
    ensures Unshared(s.mapInfo)
  {
    hide Lost, Pruned, AddrOk;
    var m := s.mapInfo;
    forall i, j | i in m && j in m && i != j && m[i].address.service.addr == m[j].address.service.addr
      ensures i in Lost(m)
    {
      if i !in Lost(m) {
        SharedBreaks(s, t, i, j);
      }
    }
  }

  lemma SharedBreaks(s: State, t: State, i: nat, j: nat)
    requires Pruned(s, t, Lost(s.mapInfo)) && i in s.mapInfo && j in s.mapInfo && i != j && i !in Lost(s.mapInfo)
    requires s.mapInfo[i].address.service.addr == s.mapInfo[j].address.service.addr
    ensures !AddrOk(t.mapInfo, t.mapAddr)
  {
    hide Lost;
    var left := s.mapInfo - Lost(s.mapInfo);
    assert i in left.Keys;
    if j in Lost(s.mapInfo) {
      assert s.mapInfo[j].address.service.addr in AddressesOf(s.mapInfo, Lost(s.mapInfo));
    } else {
      assert j in left.Keys;
    }
  }

  // ----- The result -----

  /** A complete dump loads to a consistent manager exactly when no two records share an address, both lost aside. */
  lemma LoadConsistent(h: Hashes, d: Dump)
    requires Complete(d)
    ensures Consistent(h, Load(h, d)) <==> Unshared(LoadBuckets(h, d, |d.buckets|).mapInfo)
    ensures Load(h, d).collisions == {}
  {
    hide LoadBuckets, Unshared, Pruned, Lost, Filed, Xor30;
    var t := LoadBuckets(h, d, |d.buckets|);
    LoadedRandom(h, d, |d.buckets|);
    BucketsFiled(h, d, |d.buckets|);
    FiledIsSound(h, d, t);
    PruneSound(h, t, Lost(t.mapInfo));
    PrunedIndex(t, Load(h, d));
    PrunedKeeps(t, Load(h, d), Lost(t.mapInfo));
    SoundIsConsistent(h, Load(h, d));
  }

  lemma PrunedKeeps(s: State, t: State, todo: set<nat>)
    requires Pruned(s, t, todo)
    ensures t.collisions == s.collisions
  {
  }

  lemma SoundIsConsistent(h: Hashes, s: State)
    requires SoundBut(h, s, {})
    ensures Consistent(h, s) <==> AddrOk(s.mapInfo, s.mapAddr)
  {
  }

  // ----- Dumps with distinct addresses -----

  /** The network address of a record: the new ones first. */
  function RecordAddress(d: Dump, i: nat): NetAddr
    requires i < |d.newInfos| + |d.triedInfos|
  {
    if i < |d.newInfos| then d.newInfos[i].address.service.addr
    else d.triedInfos[i - |d.newInfos|].address.service.addr
  }

  ghost predicate AllDistinct(d: Dump) {
    forall i, j :: 0 <= i < j < |d.newInfos| + |d.triedInfos| ==> RecordAddress(d, i) != RecordAddress(d, j)
  }

  ghost predicate AmongFirst(d: Dump, n: nat, a: NetAddr) {
    exists i :: 0 <= i < n && i < |d.newInfos| + |d.triedInfos| && RecordAddress(d, i) == a
  }

  /** After `n` records: the infos have their addresses, and no two the same. */
  ghost predicate Spread(d: Dump, m: map<nat, Info>, n: nat) {
    && (forall id :: id in m ==> AmongFirst(d, n, m[id].address.service.addr))
    && (forall i, j :: i in m && j in m && i != j ==> m[i].address.service.addr != m[j].address.service.addr)
  }

  lemma SpreadMore(d: Dump, m: map<nat, Info>, n: nat, id: nat, info: Info)
    requires AllDistinct(d) && Spread(d, m, n) && id !in m && n < |d.newInfos| + |d.triedInfos|
    requires info.address.service.addr == RecordAddress(d, n)
    ensures Spread(d, m[id := info], n + 1)
  {
    SpreadLater(d, m, n);
    forall j | j in m
      ensures m[j].address.service.addr != info.address.service.addr
    {
      assert AmongFirst(d, n, m[j].address.service.addr);
    }
  }

  lemma SpreadLater(d: Dump, m: map<nat, Info>, n: nat)
    requires Spread(d, m, n)
    ensures Spread(d, m, n + 1)
  {
  }

  lemma SpreadSame(d: Dump, m: map<nat, Info>, n: nat, id: nat, refs: int)
    requires Spread(d, m, n) && id in m
    ensures Spread(d, WithRefs(m, id, refs), n)
  {
    hide AmongFirst;
  }

  lemma NewOneSpread(h: Hashes, d: Dump, t: State, n: nat)
    requires AllDistinct(d) && Spread(d, t.mapInfo, n) && n < |d.newInfos| && n !in t.mapInfo
    ensures Spread(d, LoadNewOne(h, d, t, n).mapInfo, n + 1)
  {
    hide Spread, AllDistinct, HomeSlot, Usable;
    var info := FromRecord(d.newInfos[n], |t.vRandom|);
    SpreadMore(d, t.mapInfo, n, n, info);
    SpreadSame(d, WithInfo(t, n, info).mapInfo, n + 1, n, 1);
  }

  lemma {:induction false} NewSpread(h: Hashes, d: Dump, n: nat)
    requires AllDistinct(d) && n <= |d.newInfos|
    ensures Spread(d, LoadNew(h, d, n).mapInfo, n)
  {
    hide Spread, AllDistinct, LoadNewOne;
    if n > 0 {
      NewSpread(h, d, n - 1);
      LoadNewRandom(h, d, n - 1);
      NewOneSpread(h, d, LoadNew(h, d, n - 1), n - 1);
    } else {
      NothingSpread(d);
    }
  }

  lemma NothingSpread(d: Dump)
    ensures Spread(d, map[], 0)
  {
  }

  lemma TriedOneSpread(h: Hashes, d: Dump, t: State, n: nat)
    requires AllDistinct(d) && n < |d.triedInfos| && Spread(d, t.mapInfo, |d.newInfos| + n)
    requires t.nIdCount !in t.mapInfo
    ensures Spread(d, LoadTriedOne(h, t, d.triedInfos[n]).mapInfo, |d.newInfos| + n + 1)
  {
    hide Spread, AllDistinct, TriedSlot;
    var i := |d.newInfos| + n;
    SpreadLater(d, t.mapInfo, i);
    SpreadMore(d, t.mapInfo, i, t.nIdCount, FromRecord(d.triedInfos[n], |t.vRandom|).(fInTried := true));
  }

  lemma {:induction false} TriedSpread(h: Hashes, d: Dump, n: nat)
    requires AllDistinct(d) && |d.newInfos| == d.nNew && n <= |d.triedInfos|
    ensures Spread(d, LoadTried(h, d, n).mapInfo, d.nNew + n)
  {
    hide Spread, AllDistinct, LoadTriedOne, LoadNew;
    if n > 0 {
      TriedSpread(h, d, n - 1);
      LoadTriedRandom(h, d, n - 1);
      TriedOneSpread(h, d, LoadTried(h, d, n - 1), n - 1);
    } else {
      NewSpread(h, d, d.nNew);
    }
  }

  lemma {:induction false} ListSpread(h: Hashes, d: Dump, t: State, n: nat, bucket: nat, list: seq<int>)
    requires Spread(d, t.mapInfo, n)
    ensures Spread(d, LoadList(h, d, t, bucket, list).mapInfo, n)
    decreases |list|
  {
    hide Spread, NewSlot, Usable;
    if list != [] {
      ListSpread(h, d, t, n, bucket, list[..|list| - 1]);
      var u := LoadList(h, d, t, bucket, list[..|list| - 1]);
      var index := list[|list| - 1];
      if 0 <= index && index in u.mapInfo {
        SpreadSame(d, u.mapInfo, n, index, u.mapInfo[index].nRefCount + 1);
      }
    }
  }

  lemma {:induction false} BucketsSpread(h: Hashes, d: Dump, n: nat)
    requires AllDistinct(d) && |d.newInfos| == d.nNew && n <= |d.buckets|
    ensures Spread(d, LoadBuckets(h, d, n).mapInfo, d.nNew + |d.triedInfos|)
  {
    hide Spread, AllDistinct, LoadList;
    if n > 0 {
      BucketsSpread(h, d, n - 1);
      ListSpread(h, d, LoadBuckets(h, d, n - 1), d.nNew + |d.triedInfos|, n - 1, d.buckets[n - 1]);
    } else {
      TriedSpread(h, d, |d.triedInfos|);
    }
  }

  /** Whatever else a dump says: if its records have distinct addresses, the manager is consistent. */
  lemma DistinctLoads(h: Hashes, d: Dump)
    requires Complete(d) && AllDistinct(d)
    ensures Consistent(h, Load(h, d))
  {
    hide Consistent, Load, LoadBuckets, Xor30, AllDistinct;
    LoadConsistent(h, d);
    BucketsSpread(h, d, |d.buckets|);
    SpreadUnshared(d, LoadBuckets(h, d, |d.buckets|).mapInfo, d.nNew + |d.triedInfos|);
  }

  lemma SpreadUnshared(d: Dump, m: map<nat, Info>, n: nat)
    requires Spread(d, m, n)
    ensures Unshared(m)
  {
  }
}
