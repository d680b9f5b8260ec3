/**
  The peers file: what the address manager writes, and what it rebuilds from it.  The
  byte framing is left out; a dump holds the values in the order they are written.
 */
module AddrDump {

  import opened AddrTable

  datatype Record = Record(address: Address, source: NetAddr, nLastSuccess: int, nAttempts: int)

  datatype Dump = Dump(
    nVersion: nat, nKeySize: nat, nKey: Key, nNew: nat, nTried: nat, nUBuckets: nat,
    newInfos: seq<Record>, triedInfos: seq<Record>, buckets: seq<seq<int>>)

  const BUCKETS_XOR := 0x4000_0000

  /** Exclusive or with bit 30. */
  function Xor30(n: nat): nat {
    if n / BUCKETS_XOR % 2 == 0 then n + BUCKETS_XOR else n - BUCKETS_XOR
  }

  function ToRecord(info: Info): Record {
    Record(info.address, info.source, info.nLastSuccess, info.nAttempts)
  }

  /** A record read back: what is kept in memory only starts afresh. */
  function FromRecord(r: Record, pos: int): Info {
    Info(r.address, r.source, 0, 0, r.nLastSuccess, r.nAttempts, 0, false, pos)
  }

  // ----- Ids in order -----

  predicate Ascending(ids: seq<nat>) {
    forall i, j :: 0 <= i < j < |ids| ==> ids[i] < ids[j]
  }

  /** The ids of a set in ascending order. */
  ghost function Sorted(ids: set<nat>): (r: seq<nat>)
    ensures Ascending(r) && |r| == |ids|
    ensures forall id :: id in r <==> id in ids
    decreases |ids|
  {
    if ids == {} then [] else
      var id := Least(ids);
      var rest := Sorted(ids - {id});
      assert forall i :: 0 <= i < |rest| ==> rest[i] in rest;
      [id] + rest
  }

  ghost function IndexOf(ids: seq<nat>, id: nat): (i: nat)
    requires id in ids
    ensures i < |ids| && ids[i] == id
  {
    var i: nat :| i < |ids| && ids[i] == id;
    i
  }

  lemma IndexOfUnique(ids: seq<nat>, i: nat)
    requires Ascending(ids) && i < |ids|
    ensures IndexOf(ids, ids[i]) == i
  {
  }

  // ----- Writing -----

  predicate Owned(s: State) {
    forall slot :: slot in s.vvNew ==> s.vvNew[slot] in NewIds(s.mapInfo)
  }

  ghost function NewSeq(s: State): seq<nat> {
    Sorted(NewIds(s.mapInfo))
  }

  ghost function TriedSeq(s: State): seq<nat> {
    Sorted(TriedIds(s.mapInfo))
  }

  function Records(m: map<nat, Info>, ids: seq<nat>): (r: seq<Record>)
    requires forall id :: id in ids ==> id in m
    ensures |r| == |ids| && forall i :: 0 <= i < |r| ==> r[i] == ToRecord(m[ids[i]])
  {
    seq(|ids|, i requires 0 <= i < |ids| => ToRecord(m[ids[i]]))
  }

  /** The indexes written for the first positions of a bucket. */
  ghost function BucketList(s: State, bucket: nat, pos: nat): seq<int>
    requires Owned(s)
  {
    if pos == 0 then [] else
      var slot := Slot(bucket, pos - 1);
      BucketList(s, bucket, pos - 1) + if slot in s.vvNew then [IndexOf(NewSeq(s), s.vvNew[slot])] else []
  }

  ghost function DumpOf(s: State): Dump
    requires Owned(s)
  {
    var n := ADDRMAN_NEW_BUCKET_COUNT;
    Dump(1, 32, s.nKey, |NewSeq(s)|, |TriedSeq(s)|, Xor30(n),
         Records(s.mapInfo, NewSeq(s)), Records(s.mapInfo, TriedSeq(s)),
         seq(n, b requires 0 <= b < n => BucketList(s, b, ADDRMAN_BUCKET_SIZE)))
  }

  // ----- Reading -----

  function UBuckets(d: Dump): nat {
    if d.nVersion != 0 then Xor30(d.nUBuckets) else d.nUBuckets
  }

  /** Whether the written new table can be used as it is. */
  predicate Usable(d: Dump) {
    d.nVersion == 1 && UBuckets(d) == ADDRMAN_NEW_BUCKET_COUNT
  }

  predicate Complete(d: Dump) {
    |d.newInfos| == d.nNew && |d.triedInfos| == d.nTried && |d.buckets| == UBuckets(d)
  }

  /** The size checks that raise an error. */
  predicate Accepted(d: Dump) {
    && d.nKeySize == 32
    && d.nNew <= ADDRMAN_NEW_BUCKET_COUNT * ADDRMAN_BUCKET_SIZE
    && d.nTried <= ADDRMAN_TRIED_BUCKET_COUNT * ADDRMAN_BUCKET_SIZE
  }

  /** The header in numbers: version 1, a key of 32 bytes, 1024 buckets with bit 30 flipped; then the records. */
  lemma DumpForm(s: State)
    requires Owned(s)
    ensures var d := DumpOf(s);
            && d.nVersion == 1 && d.nKeySize == 32 && d.nKey == s.nKey && d.nUBuckets == 1_073_742_848
            && |d.newInfos| == d.nNew == |NewIds(s.mapInfo)| && |d.triedInfos| == d.nTried == |TriedIds(s.mapInfo)|
            && |d.buckets| == 1024
            && (forall i :: 0 <= i < d.nNew ==>
                  && NewSeq(s)[i] in NewIds(s.mapInfo)
                  && var info := s.mapInfo[NewSeq(s)[i]];
                     d.newInfos[i] == Record(info.address, info.source, info.nLastSuccess, info.nAttempts))
  {
    hide Sorted, BucketList;
  }

  /** At most 1024 * 64 new and 256 * 64 tried records are accepted; the table is used as it is only in this version. */
  lemma SizeChecks(d: Dump)
    ensures Accepted(d) <==> d.nKeySize == 32 && d.nNew <= 65_536 && d.nTried <= 16_384
    ensures Usable(d) <==> d.nVersion == 1 && d.nUBuckets == 1_073_742_848
  {
  }

  function WithInfo(t: State, id: nat, info: Info): State {
    t.(mapInfo := t.mapInfo[id := info], mapAddr := t.mapAddr[info.address.service.addr := id],
      vRandom := t.vRandom + [id])
  }

  function LoadNewOne(h: Hashes, d: Dump, s: State, n: nat): State
    requires n < |d.newInfos|
  {
    var info := FromRecord(d.newInfos[n], |s.vRandom|);
    var t := WithInfo(s, n, info);
    var home := HomeSlot(h, s.nKey, info);
    if !Usable(d) && home !in s.vvNew then Enter(t, n, home) else t
  }

  function LoadNew(h: Hashes, d: Dump, n: nat): State
    requires n <= |d.newInfos|
  {
    if n == 0 then Cleared(d.nKey).(nNew := d.nNew, nTried := d.nTried)
    else LoadNewOne(h, d, LoadNew(h, d, n - 1), n - 1)
  }

  function LoadTriedOne(h: Hashes, s: State, r: Record): State {
    var slot := TriedSlot(h, s.nKey, r.address.service);
    if slot in s.vvTried then s.(nTried := s.nTried - 1) else
      var id := s.nIdCount;
      var t := WithInfo(s, id, FromRecord(r, |s.vRandom|).(fInTried := true));
      t.(vvTried := s.vvTried[slot := id], nIdCount := id + 1)
  }

  function LoadTried(h: Hashes, d: Dump, n: nat): State
    requires n <= |d.triedInfos|
  {
    if n == 0 then LoadNew(h, d, |d.newInfos|).(nIdCount := d.nNew)
    else LoadTriedOne(h, LoadTried(h, d, n - 1), d.triedInfos[n - 1])
  }

  function LoadEntry(h: Hashes, d: Dump, s: State, bucket: nat, index: int): State {
    if 0 <= index < d.nNew && index in s.mapInfo && Usable(d) then
      var slot := NewSlot(h, s.nKey, s.mapInfo[index].address.service, bucket);
      if slot !in s.vvNew && s.mapInfo[index].nRefCount < ADDRMAN_NEW_BUCKETS_PER_ADDRESS then Enter(s, index, slot)
        else s
    else s
  }

  function LoadList(h: Hashes, d: Dump, s: State, bucket: nat, list: seq<int>): State {
    if list == [] then s
    else LoadEntry(h, d, LoadList(h, d, s, bucket, list[..|list| - 1]), bucket, list[|list| - 1])
  }

  function LoadBuckets(h: Hashes, d: Dump, n: nat): State
    requires n <= |d.buckets|
  {
    if n == 0 then LoadTried(h, d, |d.triedInfos|)
    else LoadList(h, d, LoadBuckets(h, d, n - 1), n - 1, d.buckets[n - 1])
  }

  // ----- The round trip -----

  /** The rebuilt info of the id that becomes `pos`. */
  function Kept(info: Info, pos: nat): Info {
    FromRecord(ToRecord(info), pos).(nRefCount := info.nRefCount, fInTried := info.fInTried)
  }

  /** The old id behind a new one: the untried come first, each group in id order. */
  ghost function OldId(s: State, id: nat): (r: nat)
    requires id < |NewSeq(s)| + |TriedSeq(s)|
    ensures r in s.mapInfo && (s.mapInfo[r].fInTried <==> id >= |NewSeq(s)|)
  {
    if id < |NewSeq(s)| then
      assert NewSeq(s)[id] in NewSeq(s);
      NewSeq(s)[id]
    else
      assert TriedSeq(s)[id - |NewSeq(s)|] in TriedSeq(s);
      TriedSeq(s)[id - |NewSeq(s)|]
  }

  ghost function NewId(s: State, id: nat): nat
    requires id in s.mapInfo
  {
    if s.mapInfo[id].fInTried then |NewSeq(s)| + IndexOf(TriedSeq(s), id) else IndexOf(NewSeq(s), id)
  }

  lemma DumpUsable(s: State)
    requires Owned(s)
    ensures Usable(DumpOf(s)) && UBuckets(DumpOf(s)) == ADDRMAN_NEW_BUCKET_COUNT && Complete(DumpOf(s))
  {
  }

  lemma DistinctAddresses(m: map<nat, Info>, mapAddr: map<NetAddr, nat>, i: nat, j: nat)
    requires AddrOk(m, mapAddr) && i in m && j in m && i != j
    ensures m[i].address.service.addr != m[j].address.service.addr
  {
  }

  /** The renaming of ids is one to one and onto. */
  lemma OldIdInjective(s: State, i: nat, j: nat)
    requires i < |NewSeq(s)| + |TriedSeq(s)| && j < |NewSeq(s)| + |TriedSeq(s)| && i != j
    ensures OldId(s, i) != OldId(s, j)
  {
    assert OldId(s, i) == OldId(s, j) ==> (i < |NewSeq(s)| <==> j < |NewSeq(s)|);
  }

  lemma OldIdOfNewId(s: State, id: nat)
    requires id in s.mapInfo
    ensures NewId(s, id) < |NewSeq(s)| + |TriedSeq(s)| && OldId(s, NewId(s, id)) == id
  {
  }

  lemma NewIdOfOldId(s: State, j: nat)
    requires j < |NewSeq(s)| + |TriedSeq(s)|
    ensures NewId(s, OldId(s, j)) == j
  {
    if j < |NewSeq(s)| {
      IndexOfUnique(NewSeq(s), j);
    } else {
      IndexOfUnique(TriedSeq(s), j - |NewSeq(s)|);
    }
  }

  /** The slots of an id already read back. */
  ghost function Done(table: map<Slot, nat>, id: nat, bucket: nat, pos: nat): set<Slot> {
    set slot | slot in table && table[slot] == id && Before(slot, bucket, pos)
  }

  ghost function Rebuilt(s: State, id: nat, bucket: nat, pos: nat): Info
    requires id < |NewSeq(s)| + |TriedSeq(s)|
  {
    Kept(s.mapInfo[OldId(s, id)], id).(nRefCount := |Done(s.vvNew, OldId(s, id), bucket, pos)|)
  }

  /** The first `n` infos are rebuilt. */
  ghost predicate InfosAre(s: State, m: map<nat, Info>, n: nat, bucket: nat, pos: nat) {
    && n <= |NewSeq(s)| + |TriedSeq(s)|
    && (forall j: nat :: j in m <==> j < n)
    && (forall j: nat :: j < n ==> m[j] == Rebuilt(s, j, bucket, pos))
  }

  /** The address and random indexes fit the infos, and everything else is as expected so far. */
  ghost predicate IndexesFit(s: State, t: State) {
    && AddrOk(t.mapInfo, t.mapAddr) && RandomOk(t.mapInfo, t.vRandom)
    && t.nKey == s.nKey && t.nNew == |NewSeq(s)| && t.nTried == |TriedSeq(s)| && t.nLastGood == 1 && t.collisions == {}
  }

  lemma AddressUnused(s: State, t: State, n: nat)
    requires AddrOk(s.mapInfo, s.mapAddr) && AddrOk(t.mapInfo, t.mapAddr)
    requires InfosAre(s, t.mapInfo, n, 0, 0) && n < |NewSeq(s)| + |TriedSeq(s)|
    ensures Rebuilt(s, n, 0, 0).address.service.addr !in t.mapAddr
  {
    forall a | a in t.mapAddr
      ensures a != Rebuilt(s, n, 0, 0).address.service.addr
    {
      var j := t.mapAddr[a];
      OldIdInjective(s, j, n);
      DistinctAddresses(s.mapInfo, s.mapAddr, OldId(s, j), OldId(s, n));
    }
  }

  /** Adding the next rebuilt info. */
  lemma InfosStep(s: State, t: State, n: nat)
    requires AddrOk(s.mapInfo, s.mapAddr) && IndexesFit(s, t) && |t.vRandom| == n
    requires InfosAre(s, t.mapInfo, n, 0, 0) && n < |NewSeq(s)| + |TriedSeq(s)|
    ensures var u := WithInfo(t, n, Rebuilt(s, n, 0, 0));
            IndexesFit(s, u) && InfosAre(s, u.mapInfo, n + 1, 0, 0) && |u.vRandom| == n + 1
  {
    hide AddrOk, RandomOk, NewSeq, TriedSeq, Done, OldId, Rebuilt;
    RebuiltPos(s, n);
    var info := Rebuilt(s, n, 0, 0);
    AddressUnused(s, t, n);
    CreateAddr(t.mapInfo, t.mapAddr, n, info);
    CreateRandom(t.mapInfo, t.vRandom, n, info);
  }

  lemma RebuiltPos(s: State, n: nat)
    requires n < |NewSeq(s)| + |TriedSeq(s)|
    ensures Rebuilt(s, n, 0, 0).nRandomPos == n
  {
  }

  lemma DoneNone(table: map<Slot, nat>, id: nat)
    ensures Done(table, id, 0, 0) == {}
  {
  }

  /** Every untried info is read back. */
  lemma {:induction false} LoadNewOk(h: Hashes, s: State, n: nat)
    requires Owned(s) && AddrOk(s.mapInfo, s.mapAddr) && n <= |NewSeq(s)|
    ensures var t := LoadNew(h, DumpOf(s), n);
            && IndexesFit(s, t) && InfosAre(s, t.mapInfo, n, 0, 0) && |t.vRandom| == n
            && t.vvNew == map[] && t.vvTried == map[]
  {
    hide AddrOk, NewSeq, TriedSeq, Done;
    if n > 0 {
      LoadNewOk(h, s, n - 1);
      var t := LoadNew(h, DumpOf(s), n - 1);
      DumpUsable(s);
      DoneNone(s.vvNew, OldId(s, n - 1));
      RecordOfNew(s, n - 1);
      InfosStep(s, t, n - 1);
    } else {
      EmptyAddr();
    }
  }

  lemma EmptyAddr()
    ensures AddrOk(map[], map[])
  {
  }

  lemma RecordOfNew(s: State, n: nat)
    requires Owned(s) && n < |NewSeq(s)|
    ensures DumpOf(s).newInfos[n] == ToRecord(s.mapInfo[OldId(s, n)])
  {
  }

  lemma RecordOfTried(s: State, n: nat)
    requires Owned(s) && n < |TriedSeq(s)|
    ensures DumpOf(s).triedInfos[n] == ToRecord(s.mapInfo[OldId(s, |NewSeq(s)| + n)])
  {
  }

  predicate TriedOwned(s: State) {
    forall slot :: slot in s.vvTried ==> s.vvTried[slot] in s.mapInfo
  }

  /** The tried slots of the first `n` rebuilt ids are filled. */
  ghost predicate TriedAre(s: State, table: map<Slot, nat>, n: nat)
    requires TriedOwned(s)
  {
    && (forall slot :: slot in table <==> slot in s.vvTried && NewId(s, s.vvTried[slot]) < n)
    && (forall slot :: slot in table ==> table[slot] == NewId(s, s.vvTried[slot]))
  }

  lemma TriedStart(h: Hashes, s: State)
    requires Consistent(h, s)
    ensures TriedOwned(s) && TriedAre(s, map[], |NewSeq(s)|)
  {
    hide NewSeq, TriedSeq;
    forall slot | slot in s.vvTried
      ensures s.vvTried[slot] in s.mapInfo && s.mapInfo[s.vvTried[slot]].fInTried
    {
    }
  }

  lemma NewIdIff(s: State, id: nat, n: nat)
    requires id in s.mapInfo && n < |NewSeq(s)| + |TriedSeq(s)|
    ensures NewId(s, id) == n <==> id == OldId(s, n)
  {
    OldIdOfNewId(s, id);
    NewIdOfOldId(s, n);
  }

  lemma TriedHome(h: Hashes, s: State, id: nat)
    requires Consistent(h, s) && id in s.mapInfo && s.mapInfo[id].fInTried
    ensures var slot := TriedSlot(h, s.nKey, s.mapInfo[id].address.service);
            && slot in s.vvTried && s.vvTried[slot] == id
            && forall other :: other in s.vvTried && s.vvTried[other] == id ==> other == slot
  {
    assert Settled(h, s.nKey, s.mapInfo[id], id, s.vvTried);
  }

  /** The next tried id finds its slot free. */
  lemma TriedStep(h: Hashes, s: State, table: map<Slot, nat>, n: nat)
    requires Consistent(h, s) && TriedOwned(s) && TriedAre(s, table, n)
    requires |NewSeq(s)| <= n < |NewSeq(s)| + |TriedSeq(s)|
    ensures var slot := TriedSlot(h, s.nKey, s.mapInfo[OldId(s, n)].address.service);
            slot !in table && TriedAre(s, table[slot := n], n + 1)
  {
    hide NewSeq, TriedSeq, TriedSlot, ConsistentBut, NewId, OldId;
    TriedHome(h, s, OldId(s, n));
    forall slot | slot in s.vvTried
      ensures NewId(s, s.vvTried[slot]) == n <==> s.vvTried[slot] == OldId(s, n)
    {
      NewIdIff(s, s.vvTried[slot], n);
    }
  }

  /** The state after the untried infos and the tried ones below `m` are read back. */
  ghost predicate TriedLoaded(s: State, t: State, m: nat)
    requires TriedOwned(s)
  {
    && IndexesFit(s, t) && InfosAre(s, t.mapInfo, m, 0, 0) && |t.vRandom| == m
    && t.vvNew == map[] && TriedAre(s, t.vvTried, m) && t.nIdCount == m
  }

  lemma LoadTriedOneOk(h: Hashes, s: State, t: State, m: nat)
    requires Consistent(h, s) && TriedOwned(s) && TriedLoaded(s, t, m)
    requires |NewSeq(s)| <= m < |NewSeq(s)| + |TriedSeq(s)|
    ensures TriedLoaded(s, LoadTriedOne(h, t, ToRecord(s.mapInfo[OldId(s, m)])), m + 1)
  {
    hide AddrOk, NewSeq, TriedSeq, Done, ConsistentBut, TriedSlot, TriedAre, IndexesFit, InfosAre, OldId;
    AddrPart(h, s);
    DoneTried(h, s, OldId(s, m));
    InfosStep(s, t, m);
    TriedStep(h, s, t.vvTried, m);
    FitIgnoresCounter(s, t, m);
    var slot := TriedSlot(h, s.nKey, s.mapInfo[OldId(s, m)].address.service);
    FitIgnoresTried(s, WithInfo(t, m, Rebuilt(s, m, 0, 0)), t.vvTried[slot := m], m + 1);
  }

  /** Every tried info is read back into its slot; none is lost. */
  lemma {:induction false} LoadTriedOk(h: Hashes, s: State, n: nat)
    requires Consistent(h, s) && Owned(s) && TriedOwned(s) && n <= |TriedSeq(s)|
    ensures TriedLoaded(s, LoadTried(h, DumpOf(s), n), |NewSeq(s)| + n)
  {
    hide NewSeq, TriedSeq, ConsistentBut, DumpOf, OldId, LoadTriedOne, LoadNew, TriedAre, IndexesFit, InfosAre;
    AddrPart(h, s);
    DumpCounts(s);
    if n > 0 {
      LoadTriedOk(h, s, n - 1);
      RecordOfTried(s, n - 1);
      LoadTriedOneOk(h, s, LoadTried(h, DumpOf(s), n - 1), |NewSeq(s)| + n - 1);
    } else {
      LoadNewOk(h, s, |NewSeq(s)|);
      FitIgnoresCounter(s, LoadNew(h, DumpOf(s), |NewSeq(s)|), |NewSeq(s)|);
      TriedStart(h, s);
    }
  }

  lemma DumpCounts(s: State)
    requires Owned(s)
    ensures var d := DumpOf(s);
            |d.newInfos| == d.nNew == |NewSeq(s)| && |d.triedInfos| == d.nTried == |TriedSeq(s)|
  {
  }

  /** Setting the id counter is all that happens between the two lists. */
  lemma FitIgnoresCounter(s: State, t: State, n: nat)
    requires IndexesFit(s, t)
    ensures IndexesFit(s, t.(nIdCount := n)) && t.nKey == s.nKey
  {
  }

  lemma FitIgnoresTried(s: State, t: State, table: map<Slot, nat>, n: nat)
    requires IndexesFit(s, t)
    ensures IndexesFit(s, t.(vvTried := table, nIdCount := n))
  {
  }

  lemma AddrPart(h: Hashes, s: State)
    requires Consistent(h, s)
    ensures AddrOk(s.mapInfo, s.mapAddr)
  {
  }

  lemma DoneTried(h: Hashes, s: State, id: nat)
    requires Consistent(h, s) && id in s.mapInfo
    ensures |Done(s.vvNew, id, 0, 0)| == 0
  {
    DoneNone(s.vvNew, id);
  }

  ghost predicate NewOwned(s: State) {
    forall slot :: slot in s.vvNew ==> s.vvNew[slot] in s.mapInfo
  }

  /** The new slots before a point of the table are filled. */
  ghost predicate NewAre(s: State, table: map<Slot, nat>, bucket: nat, pos: nat)
    requires NewOwned(s)
  {
    && (forall slot :: slot in table <==> slot in s.vvNew && Before(slot, bucket, pos))
    && (forall slot :: slot in table ==> table[slot] == NewId(s, s.vvNew[slot]))
  }

  lemma DoneStep(table: map<Slot, nat>, id: nat, bucket: nat, pos: nat)
    ensures var slot := Slot(bucket, pos);
            |Done(table, id, bucket, pos + 1)| ==
            |Done(table, id, bucket, pos)| + if slot in table && table[slot] == id then 1 else 0
    ensures Done(table, id, bucket, pos) <= SlotsOf(table, id)
  {
    var slot := Slot(bucket, pos);
    if slot in table && table[slot] == id {
      assert Done(table, id, bucket, pos + 1) == Done(table, id, bucket, pos) + {slot};
    } else {
      assert Done(table, id, bucket, pos + 1) == Done(table, id, bucket, pos);
    }
  }

  lemma NewAreStep(s: State, table: map<Slot, nat>, bucket: nat, pos: nat)
    requires NewOwned(s) && NewAre(s, table, bucket, pos)
    ensures var slot := Slot(bucket, pos);
            && slot !in table
            && NewAre(s, if slot in s.vvNew then table[slot := NewId(s, s.vvNew[slot])] else table, bucket, pos + 1)
  {
    hide NewId;
  }

  lemma InfosAreStep(s: State, m: map<nat, Info>, bucket: nat, pos: nat)
    requires NewOwned(s) && InfosAre(s, m, |NewSeq(s)| + |TriedSeq(s)|, bucket, pos)
    ensures var slot := Slot(bucket, pos);
            if slot in s.vvNew then
              var j := NewId(s, s.vvNew[slot]);
              j in m && InfosAre(s, WithRefs(m, j, m[j].nRefCount + 1), |NewSeq(s)| + |TriedSeq(s)|, bucket, pos + 1)
            else InfosAre(s, m, |NewSeq(s)| + |TriedSeq(s)|, bucket, pos + 1)
  {
    hide NewSeq, TriedSeq, Done, OldId, NewId;
    var slot := Slot(bucket, pos);
    forall j: nat | j < |NewSeq(s)| + |TriedSeq(s)|
      ensures |Done(s.vvNew, OldId(s, j), bucket, pos + 1)| ==
              |Done(s.vvNew, OldId(s, j), bucket, pos)|
              + if slot in s.vvNew && NewId(s, s.vvNew[slot]) == j then 1 else 0
    {
      DoneStep(s.vvNew, OldId(s, j), bucket, pos);
      if slot in s.vvNew { NewIdIff(s, s.vvNew[slot], j); }
    }
    if slot in s.vvNew { OldIdOfNewId(s, s.vvNew[slot]); }
  }

  /** A slot not read yet leaves room for another reference. */
  lemma RoomLeft(h: Hashes, s: State, bucket: nat, pos: nat)
    requires Consistent(h, s) && Slot(bucket, pos) in s.vvNew
    ensures var id := s.vvNew[Slot(bucket, pos)];
            && id in s.mapInfo && !s.mapInfo[id].fInTried
            && |Done(s.vvNew, id, bucket, pos)| < ADDRMAN_NEW_BUCKETS_PER_ADDRESS
            && Slot(bucket, pos) == NewSlot(h, s.nKey, s.mapInfo[id].address.service, bucket)
  {
    hide IdsOk, AddrOk, RandomOk, TriedSlotsOk, CountsOk, Done, SlotsOf, NewSlot;
    var id := s.vvNew[Slot(bucket, pos)];
    assert id in s.mapInfo && Settled(h, s.nKey, s.mapInfo[id], id, s.vvTried);
    NotAllDone(s.vvNew, bucket, pos);
  }

  lemma NotAllDone(table: map<Slot, nat>, bucket: nat, pos: nat)
    requires Slot(bucket, pos) in table
    ensures var id := table[Slot(bucket, pos)]; |Done(table, id, bucket, pos)| < |SlotsOf(table, id)|
  {
    var slot := Slot(bucket, pos);
    var id := table[slot];
    assert slot in SlotsOf(table, id);
    assert Done(table, id, bucket, pos) <= SlotsOf(table, id) - {slot};
    CardinalityLe(Done(table, id, bucket, pos), SlotsOf(table, id) - {slot});
  }

  /** The state while the new table is read back. */
  ghost predicate Loading(h: Hashes, s: State, t: State, bucket: nat, pos: nat)
    requires NewOwned(s) && TriedOwned(s)
  {
    && IndexesFit(s, t) && InfosAre(s, t.mapInfo, |NewSeq(s)| + |TriedSeq(s)|, bucket, pos)
    && NewAre(s, t.vvNew, bucket, pos) && TriedAre(s, t.vvTried, |NewSeq(s)| + |TriedSeq(s)|)
    && t.nIdCount == |NewSeq(s)| + |TriedSeq(s)|
  }

  /** Each written index goes back to the position it came from. */
  lemma LoadEntryOk(h: Hashes, s: State, t: State, bucket: nat, pos: nat)
    requires Consistent(h, s) && Owned(s) && NewOwned(s) && TriedOwned(s) && Loading(h, s, t, bucket, pos)
    ensures var slot := Slot(bucket, pos);
            var next := if slot !in s.vvNew then t
                        else LoadEntry(h, DumpOf(s), t, bucket, IndexOf(NewSeq(s), s.vvNew[slot]));
            Loading(h, s, next, bucket, pos + 1)
  {
    hide NewSeq, TriedSeq, Done, ConsistentBut, DumpOf, OldId;
    hide NewSlot, AddrOk, RandomOk, InfosAre, NewAre, TriedAre, Usable;
    var slot := Slot(bucket, pos);
    NewAreStep(s, t.vvNew, bucket, pos);
    InfosAreStep(s, t.mapInfo, bucket, pos);
    if slot in s.vvNew {
      var id := s.vvNew[slot];
      RoomLeft(h, s, bucket, pos);
      DumpUsable(s);
      DumpCounts(s);
      var j := NewId(s, id);
      assert j == IndexOf(NewSeq(s), id);
      OldIdOfNewId(s, id);
      InfoAt(s, t.mapInfo, j, bucket, pos);
      InPlaceOk(t.mapInfo, j, t.mapInfo[j].(nRefCount := t.mapInfo[j].nRefCount + 1), t);
    }
  }

  lemma InfoAt(s: State, m: map<nat, Info>, j: nat, bucket: nat, pos: nat)
    requires j < |NewSeq(s)| + |TriedSeq(s)| && InfosAre(s, m, |NewSeq(s)| + |TriedSeq(s)|, bucket, pos)
    ensures j in m && m[j] == Rebuilt(s, j, bucket, pos)
  {
  }

  lemma {:induction false} LoadListOk(h: Hashes, s: State, t: State, bucket: nat, pos: nat)
    requires Consistent(h, s) && Owned(s) && NewOwned(s) && TriedOwned(s) && Loading(h, s, t, bucket, 0)
    ensures Loading(h, s, LoadList(h, DumpOf(s), t, bucket, BucketList(s, bucket, pos)), bucket, pos)
  {
    hide NewSeq, Consistent, DumpOf, Loading, LoadEntry;
    if pos > 0 {
      LoadListOk(h, s, t, bucket, pos - 1);
      var list := BucketList(s, bucket, pos - 1);
      LoadEntryOk(h, s, LoadList(h, DumpOf(s), t, bucket, list), bucket, pos - 1);
      if Slot(bucket, pos - 1) in s.vvNew {
        var all := BucketList(s, bucket, pos);
        assert all[..|all| - 1] == list;
      } else {
        assert BucketList(s, bucket, pos) == list;
      }
    }
  }

  lemma NextBucket(h: Hashes, s: State, t: State, bucket: nat)
    requires Consistent(h, s) && NewOwned(s) && TriedOwned(s) && Loading(h, s, t, bucket, ADDRMAN_BUCKET_SIZE)
    ensures Loading(h, s, t, bucket + 1, 0)
  {
    hide NewSeq, TriedSeq, IndexesFit, TriedAre, NewId, OldId;
    hide IdsOk, AddrOk, RandomOk, TriedSlotsOk, CountsOk, RefsOk, SettledBut;
    forall slot | slot in s.vvNew
      ensures Before(slot, bucket, ADDRMAN_BUCKET_SIZE) <==> Before(slot, bucket + 1, 0)
    {
      assert slot == NewSlot(h, s.nKey, s.mapInfo[s.vvNew[slot]].address.service, slot.bucket);
    }
    forall id
      ensures Done(s.vvNew, id, bucket, ADDRMAN_BUCKET_SIZE) == Done(s.vvNew, id, bucket + 1, 0)
    {
    }
  }

  /** Every new slot is read back. */
  lemma {:induction false} LoadBucketsOk(h: Hashes, s: State, n: nat)
    requires Consistent(h, s) && Owned(s) && NewOwned(s) && TriedOwned(s) && n <= ADDRMAN_NEW_BUCKET_COUNT
    ensures Loading(h, s, LoadBuckets(h, DumpOf(s), n), n, 0)
  {
    hide NewSeq, TriedSeq, Consistent, Loading, LoadList, BucketList, Owned, NewOwned, TriedOwned;
    if n > 0 {
      LoadBucketsOk(h, s, n - 1);
      var t := LoadBuckets(h, DumpOf(s), n - 1);
      LoadListOk(h, s, t, n - 1, ADDRMAN_BUCKET_SIZE);
      NextBucket(h, s, LoadBuckets(h, DumpOf(s), n), n - 1);
    } else {
      LoadTriedOk(h, s, |TriedSeq(s)|);
      DumpCounts(s);
      LoadingStart(h, s, LoadBuckets(h, DumpOf(s), 0));
    }
  }

  lemma LoadingStart(h: Hashes, s: State, t: State)
    requires NewOwned(s) && TriedOwned(s)
    requires IndexesFit(s, t) && InfosAre(s, t.mapInfo, |NewSeq(s)| + |TriedSeq(s)|, 0, 0)
    requires TriedAre(s, t.vvTried, |NewSeq(s)| + |TriedSeq(s)|) && t.nIdCount == |NewSeq(s)| + |TriedSeq(s)|
    requires t.vvNew == map[]
    ensures Loading(h, s, t, 0, 0)
  {
  }

  /** Ids read back as untried but with no slot: pruned at the end. */
  function Lost(m: map<nat, Info>): set<nat> {
    set id | id in m && !m[id].fInTried && m[id].nRefCount == 0
  }

  ghost function Prune(s: State, todo: set<nat>): State
    requires RandomOk(s.mapInfo, s.vRandom) && todo <= s.mapInfo.Keys
    decreases |todo|
  {
    if todo == {} then s else
      var id := Least(todo);
      DeleteShape(s, id);
      Prune(Delete(s, id), todo - {id})
  }

  /** The manager rebuilt from a complete dump. */
  ghost function Load(h: Hashes, d: Dump): State
    requires Complete(d)
  {
    var t := LoadBuckets(h, d, |d.buckets|);
    LoadedRandom(h, d, |d.buckets|);
    Prune(t, Lost(t.mapInfo))
  }

  /** The same manager under the new names; only what is kept in memory is forgotten. */
  ghost predicate Renamed(s: State, t: State)
    requires NewOwned(s) && TriedOwned(s)
  {
    && t.nKey == s.nKey && t.nNew == s.nNew && t.nTried == s.nTried && t.nIdCount == |s.mapInfo|
    && (forall j: nat :: j in t.mapInfo <==> j < |s.mapInfo|)
    && (forall id :: id in s.mapInfo ==>
         NewId(s, id) in t.mapInfo && t.mapInfo[NewId(s, id)] == Kept(s.mapInfo[id], NewId(s, id)))
    && t.vvTried == (map slot | slot in s.vvTried :: NewId(s, s.vvTried[slot]))
    && t.vvNew == (map slot | slot in s.vvNew :: NewId(s, s.vvNew[slot]))
    && AddrOk(t.mapInfo, t.mapAddr) && RandomOk(t.mapInfo, t.vRandom)
  }

  // Reading any dump keeps vRandom and the infos in step, so pruning is always defined.

  lemma EnterRandom(t: State, id: nat, slot: Slot)
    requires id in t.mapInfo && RandomOk(t.mapInfo, t.vRandom)
    ensures RandomOk(Enter(t, id, slot).mapInfo, t.vRandom) && Enter(t, id, slot).mapInfo.Keys == t.mapInfo.Keys
  {
  }

  lemma LoadNewOneRandom(h: Hashes, d: Dump, t: State, n: nat)
    requires n < |d.newInfos| && RandomOk(t.mapInfo, t.vRandom) && forall j :: j in t.mapInfo ==> j < n
    ensures var u := LoadNewOne(h, d, t, n);
            RandomOk(u.mapInfo, u.vRandom) && forall j :: j in u.mapInfo ==> j <= n
  {
    hide HomeSlot, Usable, Enter, RandomOk;
    var info := FromRecord(d.newInfos[n], |t.vRandom|);
    CreateRandom(t.mapInfo, t.vRandom, n, info);
    EnterRandom(WithInfo(t, n, info), n, HomeSlot(h, t.nKey, info));
    EnterKeeps(WithInfo(t, n, info), n, HomeSlot(h, t.nKey, info));
  }

  lemma {:induction false} LoadNewRandom(h: Hashes, d: Dump, n: nat)
    requires n <= |d.newInfos|
    ensures var t := LoadNew(h, d, n);
            RandomOk(t.mapInfo, t.vRandom) && forall j :: j in t.mapInfo ==> j < n
  {
    hide LoadNewOne;
    if n > 0 {
      LoadNewRandom(h, d, n - 1);
      LoadNewOneRandom(h, d, LoadNew(h, d, n - 1), n - 1);
    }
  }

  lemma EnterKeeps(t: State, id: nat, slot: Slot)
    requires id in t.mapInfo
    ensures Enter(t, id, slot) == t.(mapInfo := Enter(t, id, slot).mapInfo, vvNew := t.vvNew[slot := id])
  {
  }

  lemma {:induction false} LoadTriedRandom(h: Hashes, d: Dump, n: nat)
    requires |d.newInfos| == d.nNew && n <= |d.triedInfos|
    ensures var t := LoadTried(h, d, n);
            && RandomOk(t.mapInfo, t.vRandom) && d.nNew <= t.nIdCount
            && forall j :: j in t.mapInfo ==> j < t.nIdCount
  {
    hide TriedSlot, LoadNew;
    if n > 0 {
      LoadTriedRandom(h, d, n - 1);
      var t := LoadTried(h, d, n - 1);
      CreateRandom(t.mapInfo, t.vRandom, t.nIdCount, FromRecord(d.triedInfos[n - 1], |t.vRandom|).(fInTried := true));
    } else {
      LoadNewRandom(h, d, d.nNew);
    }
  }

  lemma {:induction false} LoadListRandom(h: Hashes, d: Dump, t: State, bucket: nat, list: seq<int>)
    requires RandomOk(t.mapInfo, t.vRandom)
    ensures var u := LoadList(h, d, t, bucket, list); RandomOk(u.mapInfo, u.vRandom)
    decreases |list|
  {
    hide Usable, NewSlot, Enter, RandomOk;
    if list != [] {
      var front := list[..|list| - 1];
      LoadListRandom(h, d, t, bucket, front);
      var u := LoadList(h, d, t, bucket, front);
      var index := list[|list| - 1];
      if 0 <= index && index in u.mapInfo {
        var slot := NewSlot(h, u.nKey, u.mapInfo[index].address.service, bucket);
        EnterRandom(u, index, slot);
        EnterKeeps(u, index, slot);
      }
    }
  }

  lemma {:induction false} LoadedRandom(h: Hashes, d: Dump, n: nat)
    requires |d.newInfos| == d.nNew && n <= |d.buckets|
    ensures var t := LoadBuckets(h, d, n); RandomOk(t.mapInfo, t.vRandom)
  {
    hide RandomOk, LoadList;
    if n > 0 {
      LoadedRandom(h, d, n - 1);
      LoadListRandom(h, d, LoadBuckets(h, d, n - 1), n - 1, d.buckets[n - 1]);
    } else {
      LoadTriedRandom(h, d, |d.triedInfos|);
    }
  }

  // ----- The round trip, put together -----

  lemma OwnersOk(h: Hashes, s: State)
    requires Consistent(h, s)
    ensures Owned(s) && NewOwned(s) && TriedOwned(s)
  {
  }

  lemma AllDone(h: Hashes, s: State, id: nat)
    requires Consistent(h, s) && id in s.mapInfo
    ensures |Done(s.vvNew, id, ADDRMAN_NEW_BUCKET_COUNT, 0)| == s.mapInfo[id].nRefCount
    ensures !s.mapInfo[id].fInTried ==> s.mapInfo[id].nRefCount > 0
  {
    hide IdsOk, AddrOk, RandomOk, TriedSlotsOk, CountsOk;
    assert Done(s.vvNew, id, ADDRMAN_NEW_BUCKET_COUNT, 0) == SlotsOf(s.vvNew, id);
    assert Settled(h, s.nKey, s.mapInfo[id], id, s.vvTried);
  }

  lemma SizesAgree(h: Hashes, s: State)
    requires Consistent(h, s)
    ensures |s.mapInfo| == |NewSeq(s)| + |TriedSeq(s)| && s.nNew == |NewSeq(s)| && s.nTried == |TriedSeq(s)|
  {
    IdsSplit(s.mapInfo);
  }

  lemma TablesAgree(h: Hashes, s: State, t: State)
    requires Consistent(h, s) && NewOwned(s) && TriedOwned(s) && Loading(h, s, t, ADDRMAN_NEW_BUCKET_COUNT, 0)
    ensures t.vvTried == (map slot | slot in s.vvTried :: NewId(s, s.vvTried[slot]))
    ensures t.vvNew == (map slot | slot in s.vvNew :: NewId(s, s.vvNew[slot]))
  {
    hide IdsOk, AddrOk, RandomOk, TriedSlotsOk, RefsOk, SettledBut;
    hide CountsOk, NewSeq, TriedSeq, NewId, IndexesFit, InfosAre;
    forall slot | slot in s.vvTried
      ensures NewId(s, s.vvTried[slot]) < |NewSeq(s)| + |TriedSeq(s)|
    {
      OldIdOfNewId(s, s.vvTried[slot]);
    }
    forall slot | slot in s.vvNew
      ensures Before(slot, ADDRMAN_NEW_BUCKET_COUNT, 0)
    {
    }
  }

  lemma InfosAgree(h: Hashes, s: State, t: State, id: nat)
    requires Consistent(h, s) && NewOwned(s) && TriedOwned(s) && Loading(h, s, t, ADDRMAN_NEW_BUCKET_COUNT, 0)
    requires id in s.mapInfo
    ensures NewId(s, id) in t.mapInfo && t.mapInfo[NewId(s, id)] == Kept(s.mapInfo[id], NewId(s, id))
    ensures NewId(s, id) !in Lost(t.mapInfo)
  {
    hide ConsistentBut, NewSeq, TriedSeq, NewId, IndexesFit, InfosAre, NewAre, TriedAre, Done;
    OldIdOfNewId(s, id);
    AllDone(h, s, id);
    InfoAt(s, t.mapInfo, NewId(s, id), ADDRMAN_NEW_BUCKET_COUNT, 0);
  }

  lemma LoadedIsRenamed(h: Hashes, s: State, t: State)
    requires Consistent(h, s) && NewOwned(s) && TriedOwned(s) && Loading(h, s, t, ADDRMAN_NEW_BUCKET_COUNT, 0)
    ensures Renamed(s, t) && Lost(t.mapInfo) == {}
  {
    hide ConsistentBut, NewSeq, TriedSeq, NewId, OldId, NewAre, TriedAre, Done, Rebuilt, Lost, AddrOk, RandomOk;
    SizesAgree(h, s);
    TablesAgree(h, s, t);
    forall id | id in s.mapInfo
      ensures NewId(s, id) in t.mapInfo && t.mapInfo[NewId(s, id)] == Kept(s.mapInfo[id], NewId(s, id))
    {
      InfosAgree(h, s, t, id);
    }
    forall j | j in t.mapInfo
      ensures j !in Lost(t.mapInfo)
    {
      NewIdOfOldId(s, j);
      InfosAgree(h, s, t, OldId(s, j));
    }
    LostKnown(t.mapInfo);
  }

  lemma LostKnown(m: map<nat, Info>)
    ensures Lost(m) <= m.Keys
  {
  }

  /** What was written is read back: every address, slot and reference, under the new names, with nothing pruned. */
  lemma RoundTrip(h: Hashes, s: State)
    requires Consistent(h, s)
    ensures NewOwned(s) && TriedOwned(s) && Owned(s) && Complete(DumpOf(s))
    ensures Renamed(s, Load(h, DumpOf(s))) && Consistent(h, Load(h, DumpOf(s))) && Load(h, DumpOf(s)).collisions == {}
  {
    hide ConsistentBut, Renamed, LoadBuckets, Lost, InfosAre, NewAre, TriedAre;
    OwnersOk(h, s);
    DumpUsable(s);
    LoadBucketsOk(h, s, ADDRMAN_NEW_BUCKET_COUNT);
    LoadedIsRenamed(h, s, LoadBuckets(h, DumpOf(s), ADDRMAN_NEW_BUCKET_COUNT));
    RenamedOk(h, s, Load(h, DumpOf(s)));
  }

  // ----- A renamed manager is consistent -----

  lemma RenamedSource(s: State, t: State, j: nat) returns (id: nat)
    requires NewOwned(s) && TriedOwned(s) && Renamed(s, t) && j in t.mapInfo
    requires |s.mapInfo| == |NewSeq(s)| + |TriedSeq(s)|
    ensures id in s.mapInfo && NewId(s, id) == j && t.mapInfo[j] == Kept(s.mapInfo[id], j)
  {
    hide NewSeq, TriedSeq, NewId, AddrOk, RandomOk;
    id := OldId(s, j);
    NewIdOfOldId(s, j);
  }

  lemma NewIdInjective(s: State, i: nat, j: nat)
    requires i in s.mapInfo && j in s.mapInfo && NewId(s, i) == NewId(s, j)
    ensures i == j
  {
    OldIdOfNewId(s, i);
    OldIdOfNewId(s, j);
  }

  lemma RenamedSlots(h: Hashes, s: State, t: State)
    requires Consistent(h, s) && NewOwned(s) && TriedOwned(s) && Renamed(s, t)
    ensures TriedSlotsOk(h, t.nKey, t.mapInfo, t.vvTried) && NewSlotsOk(h, t.nKey, t.mapInfo, t.vvNew)
  {
    hide IdsOk, AddrOk, RandomOk, RefsOk, SettledBut, CountsOk, NewId, TriedSlot, NewSlot;
  }

  lemma RenamedRefs(h: Hashes, s: State, t: State)
    requires Consistent(h, s) && NewOwned(s) && TriedOwned(s) && Renamed(s, t)
    ensures RefsOk(t.mapInfo, t.vvNew)
  {
    hide ConsistentBut, NewId, AddrOk, RandomOk, SlotsOf, NewSeq, TriedSeq;
    SizesAgree(h, s);
    forall j | j in t.mapInfo
      ensures t.mapInfo[j].nRefCount == |SlotsOf(t.vvNew, j)|
    {
      var id := RenamedSource(s, t, j);
      SlotsRenamed(s, t, id);
      RefsPart(h, s, id);
    }
  }

  lemma RefsPart(h: Hashes, s: State, id: nat)
    requires Consistent(h, s) && id in s.mapInfo
    ensures s.mapInfo[id].nRefCount == |SlotsOf(s.vvNew, id)|
  {
  }

  lemma SlotsRenamed(s: State, t: State, id: nat)
    requires NewOwned(s) && id in s.mapInfo && t.vvNew == (map slot | slot in s.vvNew :: NewId(s, s.vvNew[slot]))
    ensures SlotsOf(t.vvNew, NewId(s, id)) == SlotsOf(s.vvNew, id)
  {
    hide NewId;
    forall slot | slot in s.vvNew
      ensures NewId(s, s.vvNew[slot]) == NewId(s, id) <==> s.vvNew[slot] == id
    {
      if NewId(s, s.vvNew[slot]) == NewId(s, id) {
        NewIdInjective(s, s.vvNew[slot], id);
      }
    }
  }

  lemma RenamedSettled(h: Hashes, s: State, t: State)
    requires Consistent(h, s) && NewOwned(s) && TriedOwned(s) && Renamed(s, t)
    ensures SettledBut(h, t.nKey, t.mapInfo, t.vvTried, {})
  {
    hide ConsistentBut, NewId, AddrOk, RandomOk, NewSeq, TriedSeq, TriedSlot;
    SizesAgree(h, s);
    forall j | j in t.mapInfo
      ensures Settled(h, t.nKey, t.mapInfo[j], j, t.vvTried)
    {
      var id := RenamedSource(s, t, j);
      SettledPart(h, s, id);
    }
  }

  lemma SettledPart(h: Hashes, s: State, id: nat)
    requires Consistent(h, s) && id in s.mapInfo
    ensures Settled(h, s.nKey, s.mapInfo[id], id, s.vvTried)
  {
  }

  lemma {:induction false} RangeSize(ids: set<nat>, lo: nat, hi: nat)
    requires lo <= hi && forall j :: j in ids <==> lo <= j < hi
    ensures |ids| == hi - lo
    decreases hi
  {
    if lo < hi {
      RangeSize(ids - {hi - 1}, lo, hi - 1);
    } else {
      assert ids == {};
    }
  }

  lemma RenamedCounts(h: Hashes, s: State, t: State)
    requires Consistent(h, s) && NewOwned(s) && TriedOwned(s) && Renamed(s, t)
    ensures CountsOk(t.mapInfo, t.nTried, t.nNew, 0)
  {
    hide ConsistentBut, NewId, AddrOk, RandomOk, NewSeq, TriedSeq;
    SizesAgree(h, s);
    forall j | j in t.mapInfo
      ensures t.mapInfo[j].fInTried <==> j >= |NewSeq(s)|
    {
      var id := RenamedSource(s, t, j);
      NewIdIff(s, id, j);
      assert id == OldId(s, j);
    }
    RangeSize(NewIds(t.mapInfo), 0, |NewSeq(s)|);
    RangeSize(TriedIds(t.mapInfo), |NewSeq(s)|, |s.mapInfo|);
  }

  /** The rebuilt manager passes the same check. */
  lemma RenamedOk(h: Hashes, s: State, t: State)
    requires Consistent(h, s) && NewOwned(s) && TriedOwned(s) && Renamed(s, t) && t.collisions == {}
    ensures Consistent(h, t)
  {
    hide AddrOk, RandomOk, TriedSlotsOk, NewSlotsOk, RefsOk, SettledBut, CountsOk, NewId, NewOwned, TriedOwned;
    RenamedSlots(h, s, t);
    RenamedRefs(h, s, t);
    RenamedSettled(h, s, t);
    RenamedCounts(h, s, t);
  }

  // ----- The counts fit the limits -----

  ghost function Positions(buckets: nat, size: nat): (r: set<Slot>)
    ensures forall slot: Slot :: slot in r <==> slot.bucket < buckets && slot.pos < size
  {
    set b: nat, p: nat | b < buckets && p < size :: Slot(b, p)
  }

  lemma {:induction false} PositionsSize(buckets: nat, size: nat)
    ensures |Positions(buckets, size)| == buckets * size
  {
    hide Positions, Row;
    if buckets == 0 {
      assert Positions(buckets, size) == {};
    } else {
      PositionsSize(buckets - 1, size);
      PositionsGrow(buckets - 1, size);
      assert (buckets - 1) * size + size == buckets * size;
    }
  }

  lemma PositionsGrow(buckets: nat, size: nat)
    ensures |Positions(buckets + 1, size)| == |Positions(buckets, size)| + size
  {
    hide Positions, Row;
    RowSize(buckets, size);
    assert Positions(buckets + 1, size) == Positions(buckets, size) + Row(buckets, size);
  }

  ghost function Row(bucket: nat, size: nat): (r: set<Slot>)
    ensures forall slot: Slot :: slot in r <==> slot.bucket == bucket && slot.pos < size
  {
    set p: nat | p < size :: Slot(bucket, p)
  }

  lemma {:induction false} RowSize(bucket: nat, size: nat)
    ensures |Row(bucket, size)| == size
  {
    if size == 0 {
      assert Row(bucket, size) == {};
    } else {
      RowSize(bucket, size - 1);
      assert Row(bucket, size) == Row(bucket, size - 1) + {Slot(bucket, size - 1)};
    }
  }

  /** A table has no more ids than positions. */
  lemma {:induction false} IdsFit(table: map<Slot, nat>, ids: set<nat>)
    requires forall id :: id in ids ==> exists slot :: slot in table && table[slot] == id
    ensures |ids| <= |table|
    decreases |ids|
  {
    if ids != {} {
      var id :| id in ids;
      var slot :| slot in table && table[slot] == id;
      forall other | other in ids - {id}
        ensures exists o :: o in table - {slot} && (table - {slot})[o] == other
      {
        var o :| o in table && table[o] == other;
        assert o in table - {slot};
      }
      IdsFit(table - {slot}, ids - {id});
    }
  }

  lemma TableFits(table: map<Slot, nat>, buckets: nat, size: nat)
    requires forall slot :: slot in table ==> slot.bucket < buckets && slot.pos < size
    ensures |table| <= buckets * size
  {
    PositionsSize(buckets, size);
    CardinalityLe(table.Keys, Positions(buckets, size));
  }

  lemma NewIdsFit(h: Hashes, s: State)
    requires Consistent(h, s)
    ensures |NewIds(s.mapInfo)| <= ADDRMAN_NEW_BUCKET_COUNT * ADDRMAN_BUCKET_SIZE
  {
    hide IdsOk, AddrOk, RandomOk, TriedSlotsOk, CountsOk, TriedSlot;
    TableFits(s.vvNew, ADDRMAN_NEW_BUCKET_COUNT, ADDRMAN_BUCKET_SIZE);
    forall id | id in NewIds(s.mapInfo)
      ensures exists slot :: slot in s.vvNew && s.vvNew[slot] == id
    {
      UntriedIsInABucket(h, s, id);
      var slot :| slot in SlotsOf(s.vvNew, id);
    }
    IdsFit(s.vvNew, NewIds(s.mapInfo));
  }

  lemma TriedIdsFit(h: Hashes, s: State)
    requires Consistent(h, s)
    ensures |TriedIds(s.mapInfo)| <= ADDRMAN_TRIED_BUCKET_COUNT * ADDRMAN_BUCKET_SIZE
  {
    hide IdsOk, AddrOk, RandomOk, NewSlotsOk, CountsOk, RefsOk, SettledBut;
    TableFits(s.vvTried, ADDRMAN_TRIED_BUCKET_COUNT, ADDRMAN_BUCKET_SIZE);
    forall id | id in TriedIds(s.mapInfo)
      ensures exists slot :: slot in s.vvTried && s.vvTried[slot] == id
    {
      TriedHome(h, s, id);
    }
    IdsFit(s.vvTried, TriedIds(s.mapInfo));
  }

  /** One's own dump passes the size checks. */
  lemma DumpAccepted(h: Hashes, s: State)
    requires Consistent(h, s)
    ensures Owned(s) && Accepted(DumpOf(s))
  {
    hide ConsistentBut, BucketList, NewIds, TriedIds;
    OwnersOk(h, s);
    NewIdsFit(h, s);
    TriedIdsFit(h, s);
  }
}
