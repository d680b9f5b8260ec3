/** Writing and reading the peers file, on the manager object. */
module AddrFile {

  import opened AddrTable
  import opened AddrMan
  import opened AddrDump
  import opened AddrForeign

  // ----- Walking ids in order -----

  /** The ids of a list still to be visited are its tail. */
  ghost predicate Remaining(list: seq<nat>, rest: set<nat>, n: nat) {
    n <= |list| && forall i :: 0 <= i < |list| ==> (list[i] in rest <==> i >= n)
  }

  /** The least id left, if listed, is the next of the list. */
  lemma RemainingStep(list: seq<nat>, rest: set<nat>, n: nat, id: nat)
    requires Ascending(list) && Remaining(list, rest, n) && id in rest && forall j :: j in rest ==> id <= j
    ensures if id in list then n < |list| && list[n] == id && Remaining(list, rest - {id}, n + 1)
            else Remaining(list, rest - {id}, n)
  {
    if id in list {
      var i := IndexOf(list, id);
      assert list[n] in rest;
      assert i == n;
    }
  }

  lemma RemainingEnd(list: seq<nat>, rest: set<nat>, n: nat)
    requires Remaining(list, rest, n)
    ensures n == |list| || rest != {}
  {
    if n < |list| {
      assert list[n] in rest;
    }
  }

  // ----- Writing -----

  ghost predicate Listed(m: map<nat, Info>, list: seq<nat>) {
    Ascending(list) && forall i :: 0 <= i < |list| ==> list[i] in m
  }

  /** What a loop over the infos has written of a list of ids, and the indexes it gave them. */
  ghost predicate Written(m: map<nat, Info>, list: seq<nat>, n: nat, unk: map<nat, nat>, infos: seq<Record>)
    requires Listed(m, list)
  {
    && n <= |list| && |infos| == n
    && (forall i :: 0 <= i < n ==> infos[i] == ToRecord(m[list[i]]))
    && (forall i :: 0 <= i < n ==> list[i] in unk && unk[list[i]] == i)
  }

  lemma WrittenStep(m: map<nat, Info>, list: seq<nat>, n: nat, unk: map<nat, nat>, infos: seq<Record>, id: nat)
    requires Listed(m, list) && Written(m, list, n, unk, infos)
    ensures n < |list| && list[n] == id ==> Written(m, list, n + 1, unk[id := n], infos + [ToRecord(m[id])])
    ensures id !in list ==> Written(m, list, n, unk[id := n], infos)
  {
  }

  lemma WrittenEnd(m: map<nat, Info>, list: seq<nat>, unk: map<nat, nat>, infos: seq<Record>)
    requires Listed(m, list) && Written(m, list, |list|, unk, infos)
    ensures (forall id :: id in list ==> id in m) && infos == Records(m, list)
    ensures forall id :: id in list ==> id in unk && unk[id] == IndexOf(list, id)
  {
    forall id | id in list
      ensures id in m && id in unk && unk[id] == IndexOf(list, id)
    {
      var i := IndexOf(list, id);
      assert list[i] in unk;
    }
  }

  lemma SeqsListed(s: State)
    ensures Listed(s.mapInfo, NewSeq(s)) && Listed(s.mapInfo, TriedSeq(s))
    ensures Remaining(NewSeq(s), s.mapInfo.Keys, 0) && Remaining(TriedSeq(s), s.mapInfo.Keys, 0)
  {
    forall i | 0 <= i < |NewSeq(s)|
      ensures NewSeq(s)[i] in s.mapInfo
    {
      assert NewSeq(s)[i] in NewSeq(s);
    }
    forall i | 0 <= i < |TriedSeq(s)|
      ensures TriedSeq(s)[i] in s.mapInfo
    {
      assert TriedSeq(s)[i] in TriedSeq(s);
    }
  }

  lemma RefsTellNew(h: Hashes, s: State, id: nat)
    requires Consistent(h, s) && id in s.mapInfo
    ensures s.mapInfo[id].nRefCount != 0 <==> id in NewSeq(s)
    ensures s.mapInfo[id].fInTried <==> id in TriedSeq(s)
  {
    SettledPart(h, s, id);
    if s.mapInfo[id].fInTried {
      assert SlotsOf(s.vvNew, id) == {};
    }
  }

  method WriteNew(a: CAddrMan) returns (infos: seq<Record>, unk: map<nat, nat>)
    requires a.Shaped() && Consistent(a.h, a.Abs())
    ensures var list := NewSeq(a.Abs());
            && (forall id :: id in list ==> id in a.mapInfo) && infos == Records(a.mapInfo, list)
            && forall id :: id in list ==> id in unk && unk[id] == IndexOf(list, id)
  {
    hide Consistent, Written, Table, TableOk, Remaining, NewSeq, Listed;
    ghost var s := a.Abs();
    ghost var list := NewSeq(s);
    SeqsListed(s);
    SizesAgree(a.h, s);
    var rest := a.mapInfo.Keys;
    var nIds := 0;
    infos, unk := [], map[];
    WrittenStart(a.mapInfo, list);
    while rest != {}
      invariant rest <= a.mapInfo.Keys && Remaining(list, rest, nIds) && Written(a.mapInfo, list, nIds, unk, infos)
      decreases |rest|
    {
      LeastExists(rest);
      var id :| id in rest && forall j :: j in rest ==> id <= j;
      RemainingStep(list, rest, nIds, id);
      WrittenStep(a.mapInfo, list, nIds, unk, infos, id);
      RefsTellNew(a.h, s, id);
      unk := unk[id := nIds];
      var info := a.mapInfo[id];
      if info.nRefCount != 0 {
        assert nIds != a.nNew;
        infos := infos + [ToRecord(info)];
        nIds := nIds + 1;
      }
      rest := rest - {id};
    }
    RemainingEnd(list, rest, nIds);
    WrittenEnd(a.mapInfo, list, unk, infos);
  }

  lemma WrittenStart(m: map<nat, Info>, list: seq<nat>)
    requires Listed(m, list)
    ensures Written(m, list, 0, map[], []) && Ascending(list)
  {
  }

  method WriteTried(a: CAddrMan) returns (infos: seq<Record>)
    requires a.Shaped() && Consistent(a.h, a.Abs())
    ensures var list := TriedSeq(a.Abs());
            (forall id :: id in list ==> id in a.mapInfo) && infos == Records(a.mapInfo, list)
  {
    hide Consistent, Written, Table, TableOk, Remaining, TriedSeq, Listed;
    ghost var s := a.Abs();
    ghost var list := TriedSeq(s);
    SeqsListed(s);
    SizesAgree(a.h, s);
    var rest := a.mapInfo.Keys;
    var nIds := 0;
    ghost var unk: map<nat, nat> := map[];
    infos := [];
    WrittenStart(a.mapInfo, list);
    while rest != {}
      invariant rest <= a.mapInfo.Keys && Remaining(list, rest, nIds) && Written(a.mapInfo, list, nIds, unk, infos)
      decreases |rest|
    {
      LeastExists(rest);
      var id :| id in rest && forall j :: j in rest ==> id <= j;
      RemainingStep(list, rest, nIds, id);
      WrittenStep(a.mapInfo, list, nIds, unk, infos, id);
      RefsTellNew(a.h, s, id);
      unk := unk[id := nIds];
      var info := a.mapInfo[id];
      if info.fInTried {
        assert nIds != a.nTried;
        infos := infos + [ToRecord(info)];
        nIds := nIds + 1;
      }
      rest := rest - {id};
    }
    RemainingEnd(list, rest, nIds);
    WrittenEnd(a.mapInfo, list, unk, infos);
  }

  method WriteBucket(a: CAddrMan, bucket: nat, unk: map<nat, nat>) returns (list: seq<int>)
    requires a.Shaped() && Owned(a.Abs()) && bucket < ADDRMAN_NEW_BUCKET_COUNT
    requires forall id :: id in NewSeq(a.Abs()) ==> id in unk && unk[id] == IndexOf(NewSeq(a.Abs()), id)
    ensures list == BucketList(a.Abs(), bucket, ADDRMAN_BUCKET_SIZE)
  {
    hide Table, TableOk, IndexOf;
    ghost var s := a.Abs();
    list := [];
    for i := 0 to ADDRMAN_BUCKET_SIZE
      invariant list == BucketList(s, bucket, i)
    {
      TableAt(a.vvNew, Slot(bucket, i));
      if a.vvNew[bucket, i] != -1 {
        TableNonNegative(a.vvNew, Slot(bucket, i));
        assert a.vvNew[bucket, i] in NewSeq(s);
        list := list + [unk[a.vvNew[bucket, i]]];
      }
    }
  }

  /** Writes every info once and every occupied new slot, so that the dump is exactly the state's. */
  method Serialize(a: CAddrMan) returns (d: Dump)
    requires a.Shaped() && Consistent(a.h, a.Abs())
    ensures Owned(a.Abs()) && d == DumpOf(a.Abs())
  {
    hide ConsistentBut, Table, TableOk, BucketList, NewSeq, TriedSeq, Owned;
    ghost var s := a.Abs();
    OwnersOk(a.h, s);
    SizesAgree(a.h, s);
    var newInfos, unk := WriteNew(a);
    var triedInfos := WriteTried(a);
    var buckets := [];
    for bucket := 0 to ADDRMAN_NEW_BUCKET_COUNT
      invariant |buckets| == bucket
      invariant forall b :: 0 <= b < bucket ==> buckets[b] == BucketList(s, b, ADDRMAN_BUCKET_SIZE)
    {
      var list := WriteBucket(a, bucket, unk);
      buckets := buckets + [list];
    }
    d := Dump(1, 32, a.nKey, a.nNew, a.nTried, Xor30(ADDRMAN_NEW_BUCKET_COUNT), newInfos, triedInfos, buckets);
    assert d.buckets == DumpOf(s).buckets;
  }

  // ----- Reading -----

  method ClearTable(t: array2<int>)
    modifies t
    ensures TableOk(t) && Table(t) == map[]
  {
    for b := 0 to t.Length0
      invariant forall i, j :: 0 <= i < b && 0 <= j < t.Length1 ==> t[i, j] == -1
    {
      for p := 0 to t.Length1
        invariant forall i, j :: 0 <= i < b && 0 <= j < t.Length1 ==> t[i, j] == -1
        invariant forall j :: 0 <= j < p ==> t[b, j] == -1
      {
        t[b, p] := -1;
      }
    }
    TableEmpty(t);
  }

  /** Empties the manager under a new key; the pending collisions are not touched. */
  method Clear(a: CAddrMan, key: Key)
    requires a.Shaped()
    modifies a, a.vvTried, a.vvNew
    ensures a.Shaped() && a.Abs() == Cleared(key).(collisions := old(a.collisions))
  {
    hide Table, TableOk;
    a.vRandom, a.nKey := [], key;
    ClearTable(a.vvNew);
    ClearTable(a.vvTried);
    a.nIdCount, a.nTried, a.nNew, a.nLastGood := 0, 0, 0, 1;
    a.mapInfo, a.mapAddr := map[], map[];
  }

  method ReadNew(a: CAddrMan, d: Dump, n: nat)
    requires a.Shaped() && n < |d.newInfos|
    modifies a, a.vvNew
    ensures a.Shaped() && a.Abs() == LoadNewOne(a.h, d, old(a.Abs()), n)
  {
    hide Table, TableOk, HomeSlot, Usable;
    var info := FromRecord(d.newInfos[n], |a.vRandom|);
    a.mapInfo := a.mapInfo[n := info];
    a.mapAddr := a.mapAddr[info.address.service.addr := n];
    a.vRandom := a.vRandom + [n];
    if !Usable(d) {
      var home := HomeSlot(a.h, a.nKey, info);
      HomeInRange(a.h, a.nKey, info);
      TableAt(a.vvNew, home);
      if a.vvNew[home.bucket, home.pos] == -1 {
        a.EnterNew(n, home);
      } else {
        TableNonNegative(a.vvNew, home);
      }
    }
  }

  method ReadTried(a: CAddrMan, r: Record) returns (lost: nat)
    requires a.Shaped()
    modifies a, a.vvTried
    ensures a.Shaped() && lost <= 1 && a.nTried == old(a.nTried)
    ensures a.Abs().(nTried := a.nTried - lost) == LoadTriedOne(a.h, old(a.Abs()), r)
  {
    hide Table, TableOk, TriedSlot;
    var slot := TriedSlot(a.h, a.nKey, r.address.service);
    TriedInRange(a.h, a.nKey, r.address.service);
    TableAt(a.vvTried, slot);
    if a.vvTried[slot.bucket, slot.pos] == -1 {
      var info := FromRecord(r, |a.vRandom|).(fInTried := true);
      a.vRandom := a.vRandom + [a.nIdCount];
      a.mapInfo := a.mapInfo[a.nIdCount := info];
      a.mapAddr := a.mapAddr[info.address.service.addr := a.nIdCount];
      Put(a.vvTried, slot, a.nIdCount);
      a.nIdCount := a.nIdCount + 1;
      lost := 0;
    } else {
      TableNonNegative(a.vvTried, slot);
      lost := 1;
    }
  }

  method ReadEntry(a: CAddrMan, d: Dump, bucket: nat, index: int)
    requires a.Shaped() && (forall j: nat :: j < d.nNew ==> j in a.mapInfo)
    requires Usable(d) ==> bucket < ADDRMAN_NEW_BUCKET_COUNT
    modifies a, a.vvNew
    ensures a.Shaped() && a.Abs() == LoadEntry(a.h, d, old(a.Abs()), bucket, index)
    ensures a.mapInfo.Keys == old(a.mapInfo).Keys
  {
    hide Table, TableOk, NewSlot, Usable;
    if 0 <= index < d.nNew && Usable(d) {
      var info := a.mapInfo[index];
      var slot := NewSlot(a.h, a.nKey, info.address.service, bucket);
      NewInRange(a.h, a.nKey, info.address.service, bucket);
      TableAt(a.vvNew, slot);
      if a.vvNew[slot.bucket, slot.pos] != -1 {
        TableNonNegative(a.vvNew, slot);
      } else if info.nRefCount < ADDRMAN_NEW_BUCKETS_PER_ADDRESS {
        a.EnterNew(index, slot);
      }
    }
  }

  method ReadBucket(a: CAddrMan, d: Dump, bucket: nat, list: seq<int>)
    requires a.Shaped() && (forall j: nat :: j < d.nNew ==> j in a.mapInfo)
    requires Usable(d) ==> bucket < ADDRMAN_NEW_BUCKET_COUNT
    modifies a, a.vvNew
    ensures a.Shaped() && a.Abs() == LoadList(a.h, d, old(a.Abs()), bucket, list)
    ensures a.mapInfo.Keys == old(a.mapInfo).Keys
  {
    hide LoadEntry, Table, TableOk, Usable;
    for n := 0 to |list|
      invariant a.Shaped() && a.mapInfo.Keys == old(a.mapInfo).Keys
      invariant a.Abs() == LoadList(a.h, d, old(a.Abs()), bucket, list[..n])
    {
      assert list[..n + 1][..n] == list[..n];
      ReadEntry(a, d, bucket, list[n]);
    }
    assert list[..|list|] == list;
  }

  lemma LostStep(m: map<nat, Info>, rest: set<nat>, id: nat)
    requires id in rest && rest <= m.Keys && forall j :: j in rest ==> id <= j
    ensures Lost(m) * (rest - {id}) == Lost(m) * rest - {id}
    ensures id in Lost(m) ==> Lost(m) * rest != {} && Least(Lost(m) * rest) == id
    ensures id !in Lost(m) ==> Lost(m) * rest - {id} == Lost(m) * rest
  {
    if id in Lost(m) {
      assert id in Lost(m) * rest;
    }
  }

  /** The flags that decide pruning do not change while other ids are deleted. */
  ghost predicate SameFlags(m: map<nat, Info>, n: map<nat, Info>, rest: set<nat>) {
    forall id :: id in rest ==>
      id in m && id in n && n[id].fInTried == m[id].fInTried && n[id].nRefCount == m[id].nRefCount
  }

  lemma DeleteFlags(m: map<nat, Info>, s: State, rest: set<nat>, id: nat)
    requires RandomOk(s.mapInfo, s.vRandom) && SameFlags(m, s.mapInfo, rest) && id in rest
    ensures SameFlags(m, Delete(s, id).mapInfo, rest - {id})
    ensures RandomOk(Delete(s, id).mapInfo, Delete(s, id).vRandom)
  {
    hide Delete;
    DeleteShape(s, id);
  }

  /** Pruning in progress: what is left of the ids still leads to `goal`. */
  ghost predicate Pruning(m: map<nat, Info>, s: State, rest: set<nat>, goal: State) {
    && RandomOk(s.mapInfo, s.vRandom) && rest <= m.Keys && SameFlags(m, s.mapInfo, rest)
    && Lost(m) * rest <= s.mapInfo.Keys
    && Prune(s, Lost(m) * rest) == goal
  }

  lemma PruningStep(m: map<nat, Info>, s: State, rest: set<nat>, goal: State, id: nat)
    requires Pruning(m, s, rest, goal) && id in rest && forall j :: j in rest ==> id <= j
    ensures id in s.mapInfo
    ensures if !s.mapInfo[id].fInTried && s.mapInfo[id].nRefCount == 0 then Pruning(m, Delete(s, id), rest - {id}, goal)
            else Pruning(m, s, rest - {id}, goal)
  {
    hide RandomOk, Delete, Lost, SameFlags, Prune, Least;
    LostStep(m, rest, id);
    PruneStep(s, Lost(m) * rest);
    FlagsTell(m, s.mapInfo, rest, id);
    DeleteFlags(m, s, rest, id);
    FlagsShrink(m, s.mapInfo, rest, id);
    FlagsKnown(m, Delete(s, id).mapInfo, rest - {id});
    FlagsKnown(m, s.mapInfo, rest - {id});
  }

  lemma PruningEdges(m: map<nat, Info>, s: State, goal: State)
    requires RandomOk(s.mapInfo, s.vRandom)
    ensures Lost(s.mapInfo) <= s.mapInfo.Keys
    ensures Pruning(s.mapInfo, s, s.mapInfo.Keys, Prune(s, Lost(s.mapInfo)))
    ensures Pruning(m, s, {}, goal) ==> s == goal
  {
    LostKnown(s.mapInfo);
    LostAll(s.mapInfo);
    assert Lost(m) * {} == {};
  }

  method PruneLost(a: CAddrMan)
    requires a.Shaped() && RandomOk(a.mapInfo, a.vRandom)
    modifies a
    ensures a.Shaped() && Lost(old(a.mapInfo)) <= old(a.mapInfo).Keys
    ensures a.Abs() == Prune(old(a.Abs()), Lost(old(a.mapInfo)))
  {
    hide Table, TableOk, RandomOk, Lost, Prune, Pruning;
    ghost var m := a.mapInfo;
    PruningEdges(m, a.Abs(), a.Abs());
    ghost var goal := Prune(a.Abs(), Lost(m));
    var rest := a.mapInfo.Keys;
    while rest != {}
      invariant a.Shaped() && Pruning(m, a.Abs(), rest, goal)
      decreases |rest|
    {
      LeastExists(rest);
      var id :| id in rest && forall j :: j in rest ==> id <= j;
      PruningStep(m, a.Abs(), rest, goal, id);
      PruningRandom(m, a.Abs(), rest, goal);
      if !a.mapInfo[id].fInTried && a.mapInfo[id].nRefCount == 0 {
        a.Delete(id);
      }
      rest := rest - {id};
    }
    PruningRandom(m, a.Abs(), rest, goal);
    PruningEdges(m, a.Abs(), goal);
  }

  lemma PruningRandom(m: map<nat, Info>, s: State, rest: set<nat>, goal: State)
    requires Pruning(m, s, rest, goal)
    ensures RandomOk(s.mapInfo, s.vRandom)
  {
  }

  lemma PruneStep(s: State, todo: set<nat>)
    requires RandomOk(s.mapInfo, s.vRandom) && todo <= s.mapInfo.Keys
    ensures if todo == {} then Prune(s, todo) == s else
              var t := Delete(s, Least(todo));
              && RandomOk(t.mapInfo, t.vRandom) && todo - {Least(todo)} <= t.mapInfo.Keys
              && Prune(s, todo) == Prune(t, todo - {Least(todo)})
  {
    if todo != {} {
      DeleteShape(s, Least(todo));
    }
  }

  lemma LostAll(m: map<nat, Info>)
    ensures Lost(m) * m.Keys == Lost(m) && SameFlags(m, m, m.Keys)
  {
  }

  lemma FlagsTell(m: map<nat, Info>, n: map<nat, Info>, rest: set<nat>, id: nat)
    requires SameFlags(m, n, rest) && id in rest
    ensures id in n && (id in Lost(m) <==> !n[id].fInTried && n[id].nRefCount == 0)
  {
  }

  lemma FlagsShrink(m: map<nat, Info>, n: map<nat, Info>, rest: set<nat>, id: nat)
    requires SameFlags(m, n, rest)
    ensures SameFlags(m, n, rest - {id})
  {
  }

  lemma FlagsKnown(m: map<nat, Info>, n: map<nat, Info>, rest: set<nat>)
    requires SameFlags(m, n, rest)
    ensures Lost(m) * rest <= n.Keys
  {
  }

  /** The loops that fill the infos. */
  method ReadInfos(a: CAddrMan, d: Dump)
    requires a.Shaped() && Complete(d) && a.Abs() == LoadNew(a.h, d, 0).(collisions := a.collisions)
    modifies a, a.vvTried, a.vvNew
    ensures a.Shaped() && a.Abs() == LoadTried(a.h, d, d.nTried).(collisions := old(a.collisions))
  {
    hide Table, TableOk, LoadNewOne, LoadTriedOne;
    for n := 0 to d.nNew
      invariant a.Shaped() && a.Abs() == LoadNew(a.h, d, n).(collisions := old(a.collisions))
    {
      ReadNew(a, d, n);
      NewIgnoresCollisions(a.h, d, LoadNew(a.h, d, n), n, old(a.collisions));
    }
    a.nIdCount := d.nNew;
    var nLost := 0;
    for n := 0 to d.nTried
      invariant a.Shaped()
      invariant a.Abs().(nTried := a.nTried - nLost) == LoadTried(a.h, d, n).(collisions := old(a.collisions))
    {
      ghost var s, loaded := a.Abs(), LoadTried(a.h, d, n);
      var r := d.triedInfos[n];
      ghost var counted := s.(nTried := s.nTried - nLost);
      TriedIgnores(a.h, s, r, s.nTried - nLost, s.collisions);
      TriedIgnores(a.h, loaded, r, loaded.nTried, s.collisions);
      assert counted == loaded.(nTried := loaded.nTried, collisions := s.collisions);
      var lost := ReadTried(a, r);
      nLost := nLost + lost;
      assert a.Abs().(nTried := a.nTried - nLost) == LoadTriedOne(a.h, counted, r);
    }
    a.nTried := a.nTried - nLost;
  }

  lemma NewIgnoresCollisions(h: Hashes, d: Dump, s: State, n: nat, c: set<nat>)
    requires n < |d.newInfos|
    ensures LoadNewOne(h, d, s.(collisions := c), n) == LoadNewOne(h, d, s, n).(collisions := c)
  {
    hide HomeSlot, Usable, FromRecord, WithInfo;
    WithInfoIgnores(s, n, FromRecord(d.newInfos[n], |s.vRandom|), s.nTried, c);
  }

  lemma WithInfoIgnores(s: State, id: nat, info: Info, nTried: int, c: set<nat>)
    ensures var t := WithInfo(s, id, info);
            && id in t.mapInfo && t.collisions == s.collisions && t.nTried == s.nTried && t.vvNew == s.vvNew
            && WithInfo(s.(nTried := nTried, collisions := c), id, info) == t.(nTried := nTried, collisions := c)
  {
  }

  lemma TriedIgnores(h: Hashes, s: State, r: Record, nTried: int, c: set<nat>)
    ensures var t := LoadTriedOne(h, s, r);
            LoadTriedOne(h, s.(nTried := nTried, collisions := c), r)
              == t.(nTried := t.nTried - s.nTried + nTried, collisions := c)
    ensures LoadTriedOne(h, s, r).collisions == s.collisions
  {
    hide TriedSlot, FromRecord, WithInfo;
    WithInfoIgnores(s, s.nIdCount, FromRecord(r, |s.vRandom|).(fInTried := true), nTried, c);
  }

  lemma {:induction false} LoadListKeys(h: Hashes, d: Dump, s: State, bucket: nat, list: seq<int>, c: set<nat>)
    ensures LoadList(h, d, s.(collisions := c), bucket, list) == LoadList(h, d, s, bucket, list).(collisions := c)
    decreases |list|
  {
    if list != [] {
      LoadListKeys(h, d, s, bucket, list[..|list| - 1], c);
    }
  }

  lemma {:induction false} LoadNewKeys(h: Hashes, d: Dump, n: nat)
    requires n <= |d.newInfos|
    ensures forall j: nat :: j < n ==> j in LoadNew(h, d, n).mapInfo
  {
    hide HomeSlot, Usable;
    if n > 0 {
      LoadNewKeys(h, d, n - 1);
    }
  }

  lemma {:induction false} LoadTriedKeys(h: Hashes, d: Dump, n: nat)
    requires |d.newInfos| == d.nNew && n <= |d.triedInfos|
    ensures forall j: nat :: j < d.nNew ==> j in LoadTried(h, d, n).mapInfo
  {
    hide TriedSlot, LoadNew;
    if n > 0 {
      LoadTriedKeys(h, d, n - 1);
    } else {
      LoadNewKeys(h, d, d.nNew);
    }
  }

  lemma LostIgnoresCollisions(s: State, c: set<nat>, todo: set<nat>)
    requires RandomOk(s.mapInfo, s.vRandom) && todo <= s.mapInfo.Keys
    ensures Prune(s.(collisions := c), todo) == Prune(s, todo).(collisions := c)
    decreases |todo|
  {
    hide RandomOk, Delete;
    if todo != {} {
      PruneStep(s, todo);
      PruneStep(s.(collisions := c), todo);
      DeleteIgnoresCollisions(s, c, Least(todo));
      LostIgnoresCollisions(Delete(s, Least(todo)), c, todo - {Least(todo)});
    }
  }

  lemma DeleteIgnoresCollisions(s: State, c: set<nat>, id: nat)
    requires RandomOk(s.mapInfo, s.vRandom) && id in s.mapInfo
    ensures Delete(s.(collisions := c), id) == Delete(s, id).(collisions := c)
  {
    hide SwapRandom;
    SwapRandomOk(s, s.mapInfo[id].nRandomPos, |s.vRandom| - 1);
    SwapIgnoresCollisions(s, s.mapInfo[id].nRandomPos, |s.vRandom| - 1, c);
  }

  lemma SwapIgnoresCollisions(s: State, i: nat, j: nat, c: set<nat>)
    requires RandomOk(s.mapInfo, s.vRandom) && i < |s.vRandom| && j < |s.vRandom|
    ensures SwapRandom(s.(collisions := c), i, j) == SwapRandom(s, i, j).(collisions := c)
  {
  }

  /**
    Rebuilds the manager from a dump; a false result is the error for a wrong key size or
    a count over the limit.
   */
  method Unserialize(a: CAddrMan, d: Dump) returns (ok: bool)
    requires a.Shaped() && Complete(d)
    modifies a, a.vvTried, a.vvNew
    ensures a.Shaped() && (ok <==> Accepted(d))
    ensures ok ==> a.Abs() == Load(a.h, d).(collisions := old(a.collisions))
    ensures ok && old(a.collisions) == {} ==>
              (Consistent(a.h, a.Abs()) <==> Unshared(LoadBuckets(a.h, d, |d.buckets|).mapInfo))
  {
    hide Table, TableOk, LoadTried, LoadList, RandomOk, Prune, Lost, ConsistentBut, Unshared;
    Clear(a, d.nKey);
    if d.nKeySize != 32 {
      return false;
    }
    a.nNew, a.nTried := d.nNew, d.nTried;
    if a.nNew > ADDRMAN_NEW_BUCKET_COUNT * ADDRMAN_BUCKET_SIZE {
      return false;
    }
    if a.nTried > ADDRMAN_TRIED_BUCKET_COUNT * ADDRMAN_BUCKET_SIZE {
      return false;
    }
    ghost var c := a.collisions;
    ReadInfos(a, d);
    LoadTriedKeys(a.h, d, d.nTried);
    for bucket := 0 to UBuckets(d)
      invariant a.Shaped() && a.Abs() == LoadBuckets(a.h, d, bucket).(collisions := c)
      invariant forall j: nat :: j < d.nNew ==> j in a.mapInfo
    {
      LoadListKeys(a.h, d, LoadBuckets(a.h, d, bucket), bucket, d.buckets[bucket], c);
      ReadBucket(a, d, bucket, d.buckets[bucket]);
    }
    LoadedRandom(a.h, d, UBuckets(d));
    ghost var t := LoadBuckets(a.h, d, UBuckets(d));
    LostKnown(t.mapInfo);
    LostIgnoresCollisions(t, c, Lost(t.mapInfo));
    PruneLost(a);
    LoadConsistent(a.h, d);
    ok := true;
  }

  /** Reading back one's own file: the same manager under new names. */
  method Reload(a: CAddrMan, b: CAddrMan) returns (ok: bool)
    requires a.Shaped() && Consistent(a.h, a.Abs()) && b.Shaped() && b.h == a.h && b.collisions == {}
    requires {a.vvTried, a.vvNew} !! {b.vvTried, b.vvNew} && a != b
    modifies b, b.vvTried, b.vvNew
    ensures ok && NewOwned(a.Abs()) && TriedOwned(a.Abs()) && Renamed(a.Abs(), b.Abs()) && Consistent(b.h, b.Abs())
  {
    hide Table, TableOk, ConsistentBut, Renamed, Load, Accepted, NewOwned, TriedOwned;
    RoundTrip(a.h, a.Abs());
    DumpAccepted(a.h, a.Abs());
    var d := Serialize(a);
    ghost var s := a.Abs();
    ok := Unserialize(b, d);
    assert a.Abs() == s;
  }
}
