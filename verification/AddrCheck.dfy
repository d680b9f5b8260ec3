/** The debug check of the address manager: exactly what it finds out, and that every consistent manager passes. */
module AddrCheck {

  import opened AddrTable
  import opened AddrMan

  /** What the check is there to confirm. */
  ghost predicate Sane(h: Hashes, s: State) {
    Consistent(h, s) && StampsOk(s) && s.nKey != 0
  }

  /** What passing the check means. */
  ghost predicate Passes(h: Hashes, s: State) {
    && |s.vRandom| == s.nTried + s.nNew && InfosPass(s)
    && s.nTried == |TriedIds(s.mapInfo)| && s.nNew == |NewIds(s.mapInfo)|
    && TriedPass(h, s) && NewPass(h, s) && s.nKey != 0
  }

  ghost predicate InfosPass(s: State) {
    forall id :: id in s.mapInfo ==> InfoCode(s.mapInfo[id], id, s.mapAddr, s.vRandom) == 0
  }

  ghost predicate TriedPass(h: Hashes, s: State) {
    && TriedSlotsOk(h, s.nKey, s.mapInfo, s.vvTried)
    && forall id :: id in s.mapInfo && s.mapInfo[id].fInTried ==>
         TriedSlot(h, s.nKey, s.mapInfo[id].address.service) in s.vvTried
         && s.vvTried[TriedSlot(h, s.nKey, s.mapInfo[id].address.service)] == id
  }

  ghost predicate NewPass(h: Hashes, s: State) {
    NewSlotsOk(h, s.nKey, s.mapInfo, s.vvNew) && RefsOk(s.mapInfo, s.vvNew)
  }

  // ----- Sizes -----

  ghost function Elements(ids: seq<nat>): set<nat> {
    set id | id in ids
  }

  lemma {:induction false} InjectiveSize(ids: seq<nat>)
    requires forall i, j :: 0 <= i < j < |ids| ==> ids[i] != ids[j]
    ensures |Elements(ids)| == |ids|
  {
    if ids != [] {
      var front, last := ids[..|ids| - 1], ids[|ids| - 1];
      assert ids == front + [last];
      InjectiveSize(front);
      assert Elements(ids) == Elements(front) + {last};
      assert last !in Elements(front);
    }
  }

  lemma {:induction false} ElementsBound(ids: seq<nat>)
    ensures |Elements(ids)| <= |ids|
    ensures |Elements(ids)| == |ids| ==> forall i, j :: 0 <= i < j < |ids| ==> ids[i] != ids[j]
    decreases |ids|
  {
    if ids != [] {
      var front, last := ids[..|ids| - 1], ids[|ids| - 1];
      assert ids == front + [last];
      ElementsBound(front);
      assert Elements(ids) == Elements(front) + {last};
      if last in Elements(front) {
        assert Elements(ids) == Elements(front);
      }
    }
  }

  /** vRandom has one position for each id. */
  lemma RandomSize(m: map<nat, Info>, vRandom: seq<nat>)
    requires RandomOk(m, vRandom)
    ensures |vRandom| == |m|
  {
    forall i, j | 0 <= i < j < |vRandom|
      ensures vRandom[i] != vRandom[j]
    {
      assert m[vRandom[i]].nRandomPos == i && m[vRandom[j]].nRandomPos == j;
    }
    InjectiveSize(vRandom);
    assert Elements(vRandom) == m.Keys;
  }

  /** With as many positions as ids, recording a position for each id settles vRandom. */
  lemma RandomFromSize(m: map<nat, Info>, vRandom: seq<nat>)
    requires |vRandom| == |m|
    requires forall id :: id in m ==> 0 <= m[id].nRandomPos < |vRandom| && vRandom[m[id].nRandomPos] == id
    ensures RandomOk(m, vRandom)
  {
    assert m.Keys <= Elements(vRandom) by {
      forall id | id in m
        ensures id in Elements(vRandom)
      {
        assert vRandom[m[id].nRandomPos] == id;
      }
    }
    ElementsBound(vRandom);
    SameSize(m.Keys, Elements(vRandom));
    forall i | 0 <= i < |vRandom|
      ensures vRandom[i] in m && m[vRandom[i]].nRandomPos == i
    {
      assert vRandom[i] in Elements(vRandom);
    }
  }

  lemma SameSize(a: set<nat>, b: set<nat>)
    requires a <= b && |b| <= |a|
    ensures a == b
  {
    assert b == a + (b - a);
    assert b - a == {};
  }

  lemma SizesOk(h: Hashes, s: State)
    requires Consistent(h, s)
    ensures |s.vRandom| == s.nTried + s.nNew
    ensures s.nTried == |TriedIds(s.mapInfo)| && s.nNew == |NewIds(s.mapInfo)|
  {
    hide IdsOk, AddrOk, RandomOk, TriedSlotsOk, NewSlotsOk, RefsOk, SettledBut, TriedIds, NewIds;
    RandomSize(s.mapInfo, s.vRandom);
    IdsSplit(s.mapInfo);
  }

  // ----- What the check confirms -----

  /** A consistent manager with proper time stamps and key passes. */
  lemma SanePasses(h: Hashes, s: State)
    requires Sane(h, s)
    ensures Passes(h, s)
  {
    hide TriedSlot, NewSlot, TriedIds, NewIds, InfoCode;
    SizesOk(h, s);
    forall id | id in s.mapInfo
      ensures InfoCode(s.mapInfo[id], id, s.mapAddr, s.vRandom) == 0
    {
      InfoOk(h, s, id);
    }
    TriedIsSettled(h, s);
  }

  lemma TriedIsSettled(h: Hashes, s: State)
    requires Consistent(h, s)
    ensures TriedPass(h, s)
  {
    hide TriedSlot, NewSlot, IdsOk, AddrOk, RandomOk, NewSlotsOk, RefsOk, CountsOk;
    forall id | id in s.mapInfo && s.mapInfo[id].fInTried
      ensures TriedSlot(h, s.nKey, s.mapInfo[id].address.service) in s.vvTried
      ensures s.vvTried[TriedSlot(h, s.nKey, s.mapInfo[id].address.service)] == id
    {
      assert Settled(h, s.nKey, s.mapInfo[id], id, s.vvTried);
    }
  }

  /** With sound ids and addresses, which it does not look at in full, passing the check means being consistent. */
  lemma PassesIsSane(h: Hashes, s: State)
    requires Passes(h, s) && IdsOk(s.mapInfo, s.collisions, s.nIdCount) && AddrOk(s.mapInfo, s.mapAddr)
    ensures Sane(h, s)
  {
    hide TriedSlot, NewSlot, TriedSlotsOk, NewSlotsOk, RefsOk, TriedIds, NewIds, IdsOk, AddrOk, RandomOk, InfoCode;
    IdsSplit(s.mapInfo);
    forall id | id in s.mapInfo
      ensures 0 <= s.mapInfo[id].nRandomPos < |s.vRandom| && s.vRandom[s.mapInfo[id].nRandomPos] == id
    {
      CodeMeans(s.mapInfo[id], id, s.mapAddr, s.vRandom);
    }
    RandomFromSize(s.mapInfo, s.vRandom);
    forall id | id in s.mapInfo
      ensures Settled(h, s.nKey, s.mapInfo[id], id, s.vvTried)
      ensures s.mapInfo[id].nLastTry >= 0 && s.mapInfo[id].nLastSuccess >= 0
      ensures (s.mapInfo[id].fInTried ==> s.mapInfo[id].nLastSuccess != 0)
    {
      CodeMeans(s.mapInfo[id], id, s.mapAddr, s.vRandom);
    }
  }

  // ----- The infos -----

  /** The reference counts of the untried among some ids. */
  ghost function Refs(m: map<nat, Info>, ids: set<nat>): map<nat, int> {
    map id | id in ids && id in m && !m[id].fInTried :: m[id].nRefCount
  }

  /** The checks on one info; a missing address reads as id 0. */
  function InfoCode(info: Info, id: nat, mapAddr: map<NetAddr, nat>, vRandom: seq<nat>): int {
    if info.fInTried && info.nLastSuccess == 0 then -1
    else if info.fInTried && info.nRefCount != 0 then -2
    else if !info.fInTried && (info.nRefCount < 0 || info.nRefCount > ADDRMAN_NEW_BUCKETS_PER_ADDRESS) then -3
    else if !info.fInTried && info.nRefCount == 0 then -4
    else if (if info.address.service.addr in mapAddr then mapAddr[info.address.service.addr] else 0) != id then -5
    else if info.nRandomPos < 0 || info.nRandomPos >= |vRandom| || vRandom[info.nRandomPos] != id then -14
    else if info.nLastTry < 0 then -6
    else if info.nLastSuccess < 0 then -8
    else 0
  }

  lemma InfoCodes(m: map<nat, Info>, mapAddr: map<NetAddr, nat>, vRandom: seq<nat>)
    ensures forall id :: id in m ==>
              InfoCode(m[id], id, mapAddr, vRandom) in {0, -1, -2, -3, -4, -5, -6, -8, -14}
  {
  }

  /** What each code says about an entry, given that no test before it failed. */
  lemma CodeMeans(info: Info, id: nat, mapAddr: map<NetAddr, nat>, vRandom: seq<nat>)
    ensures var code := InfoCode(info, id, mapAddr, vRandom);
            && (code == -1 <==> info.fInTried && info.nLastSuccess == 0)
            && (code == -2 <==> info.fInTried && info.nLastSuccess != 0 && info.nRefCount != 0)
            && (code == -3 <==> !info.fInTried && (info.nRefCount < 0 || info.nRefCount > 8))
            && (code == -4 <==> !info.fInTried && info.nRefCount == 0)
            && (code == -5 ==> !(info.address.service.addr in mapAddr && mapAddr[info.address.service.addr] == id))
            && (code == -14 ==> !(0 <= info.nRandomPos < |vRandom| && vRandom[info.nRandomPos] == id))
            && (code == -6 ==> info.nLastTry < 0) && (code == -8 ==> info.nLastSuccess < 0)
            && (code == 0 ==>
                  && (if info.fInTried then info.nLastSuccess > 0 && info.nRefCount == 0 else 1 <= info.nRefCount <= 8)
                  && 0 <= info.nRandomPos < |vRandom| && vRandom[info.nRandomPos] == id && info.nLastTry >= 0
                  && info.nLastSuccess >= 0)
  {
  }

  lemma InfoOk(h: Hashes, s: State, id: nat)
    requires Sane(h, s) && id in s.mapInfo
    ensures InfoCode(s.mapInfo[id], id, s.mapAddr, s.vRandom) == 0
  {
    hide TriedSlot, NewSlot, CountsOk, IdsOk, TriedSlotsOk;
    assert Settled(h, s.nKey, s.mapInfo[id], id, s.vvTried);
    if s.mapInfo[id].fInTried {
      assert SlotsOf(s.vvNew, id) == {};
    }
  }

  lemma CollectStep(m: map<nat, Info>, rest: set<nat>, id: nat)
    requires id in rest && id in m
    ensures TriedIds(m) - (rest - {id}) == if m[id].fInTried then TriedIds(m) - rest + {id} else TriedIds(m) - rest
    ensures Refs(m, m.Keys - (rest - {id})) ==
            if m[id].fInTried then Refs(m, m.Keys - rest) else Refs(m, m.Keys - rest)[id := m[id].nRefCount]
  {
    assert id !in TriedIds(m) - rest;
  }

  lemma CollectEdges(m: map<nat, Info>)
    ensures TriedIds(m) - m.Keys == {} && Refs(m, m.Keys - m.Keys) == map[]
    ensures TriedIds(m) - {} == TriedIds(m) && m.Keys - {} == m.Keys
  {
  }

  /** The first loop: one info at a time, in whatever order, collecting the tried and the new. */
  method CheckInfos(a: CAddrMan) returns (code: int, setTried: set<nat>, mapNew: map<nat, int>)
    ensures code == 0 <==> InfosPass(a.Abs())
    ensures code != 0 ==>
              exists id :: id in a.mapInfo && InfoCode(a.mapInfo[id], id, a.mapAddr, a.vRandom) == code
    ensures code == 0 ==> setTried == TriedIds(a.mapInfo) && mapNew == Refs(a.mapInfo, a.mapInfo.Keys)
  {
    hide TriedIds, Refs, InfoCode;
    setTried, mapNew, code := {}, map[], 0;
    var rest := a.mapInfo.Keys;
    CollectEdges(a.mapInfo);
    while rest != {}
      invariant rest <= a.mapInfo.Keys
      invariant forall id :: id in a.mapInfo && id !in rest ==> InfoCode(a.mapInfo[id], id, a.mapAddr, a.vRandom) == 0
      invariant setTried == TriedIds(a.mapInfo) - rest
      invariant mapNew == Refs(a.mapInfo, a.mapInfo.Keys - rest)
      decreases |rest|
    {
      var n :| n in rest;
      var info := a.mapInfo[n];
      CollectStep(a.mapInfo, rest, n);
      code := InfoCode(info, n, a.mapAddr, a.vRandom);
      if code != 0 {
        return;
      }
      if info.fInTried {
        setTried := setTried + {n};
      } else {
        mapNew := mapNew[n := info.nRefCount];
      }
      rest := rest - {n};
    }
    code := 0;
  }

  // ----- The tried table -----

  /** The ids in the slots the scan has passed. */
  ghost function SeenTried(table: map<Slot, nat>, bucket: nat, pos: nat): set<nat> {
    set slot | slot in table && Before(slot, bucket, pos) :: table[slot]
  }

  /** The slots the scan has passed hold tried ids in their own slots. */
  ghost predicate TriedSoFar(h: Hashes, s: State, bucket: nat, pos: nat) {
    forall slot :: slot in s.vvTried && Before(slot, bucket, pos) ==>
      s.vvTried[slot] in s.mapInfo && s.mapInfo[s.vvTried[slot]].fInTried
      && slot == TriedSlot(h, s.nKey, s.mapInfo[s.vvTried[slot]].address.service)
  }

  lemma TriedStep(h: Hashes, s: State, bucket: nat, pos: nat)
    requires TriedSoFar(h, s, bucket, pos)
    ensures var slot := Slot(bucket, pos);
            if slot !in s.vvTried then
              TriedSoFar(h, s, bucket, pos + 1)
              && SeenTried(s.vvTried, bucket, pos + 1) == SeenTried(s.vvTried, bucket, pos)
            else
              var id := s.vvTried[slot];
              && SeenTried(s.vvTried, bucket, pos + 1) == SeenTried(s.vvTried, bucket, pos) + {id}
              && (TriedSoFar(h, s, bucket, pos + 1) <==>
                    id in s.mapInfo && s.mapInfo[id].fInTried
                    && slot == TriedSlot(h, s.nKey, s.mapInfo[id].address.service))
              && (id in SeenTried(s.vvTried, bucket, pos) ==> !TriedSoFar(h, s, bucket, pos + 1))
  {
    hide TriedSlot;
    var slot := Slot(bucket, pos);
    if slot in s.vvTried {
      assert Before(slot, bucket, pos + 1);
    }
  }

  lemma TriedRow(h: Hashes, s: State, bucket: nat)
    requires forall slot :: slot in s.vvTried ==>
               slot.bucket < ADDRMAN_TRIED_BUCKET_COUNT && slot.pos < ADDRMAN_BUCKET_SIZE
    ensures SeenTried(s.vvTried, bucket, ADDRMAN_BUCKET_SIZE) == SeenTried(s.vvTried, bucket + 1, 0)
    ensures TriedSoFar(h, s, bucket, ADDRMAN_BUCKET_SIZE) <==> TriedSoFar(h, s, bucket + 1, 0)
    ensures SeenTried(s.vvTried, 0, 0) == {} && TriedSoFar(h, s, 0, 0)
  {
    hide TriedSlot;
  }

  /** Once something passed is wrong the table does not pass. */
  lemma TriedBad(h: Hashes, s: State, bucket: nat, pos: nat)
    requires !TriedSoFar(h, s, bucket, pos)
    ensures !TriedPass(h, s)
  {
    hide TriedSlot;
  }

  lemma TriedEnd(h: Hashes, s: State)
    requires TriedSoFar(h, s, ADDRMAN_TRIED_BUCKET_COUNT, 0)
    requires forall slot :: slot in s.vvTried ==>
               slot.bucket < ADDRMAN_TRIED_BUCKET_COUNT && slot.pos < ADDRMAN_BUCKET_SIZE
    ensures TriedIds(s.mapInfo) - SeenTried(s.vvTried, ADDRMAN_TRIED_BUCKET_COUNT, 0) == {} <==> TriedPass(h, s)
  {
    hide TriedSlot;
    var seen := SeenTried(s.vvTried, ADDRMAN_TRIED_BUCKET_COUNT, 0);
    if TriedIds(s.mapInfo) - seen == {} {
      forall id | id in s.mapInfo && s.mapInfo[id].fInTried
        ensures TriedSlot(h, s.nKey, s.mapInfo[id].address.service) in s.vvTried
        ensures s.vvTried[TriedSlot(h, s.nKey, s.mapInfo[id].address.service)] == id
      {
        assert id in TriedIds(s.mapInfo) - seen || id in seen;
      }
    }
    if TriedPass(h, s) {
      forall id | id in TriedIds(s.mapInfo)
        ensures id in seen
      {
        var slot := TriedSlot(h, s.nKey, s.mapInfo[id].address.service);
        assert slot in s.vvTried && Before(slot, ADDRMAN_TRIED_BUCKET_COUNT, 0);
      }
    }
  }

  /** The scan of the tried table; `rest` ids were not met. */
  method CheckTried(a: CAddrMan, tried: set<nat>) returns (code: int, rest: nat)
    requires a.Shaped() && tried == TriedIds(a.mapInfo)
    ensures code == 0 && rest == 0 <==> TriedPass(a.h, a.Abs())
    ensures code in {0, -11, -17, -18}
  {
    hide Table, TableOk, SeenTried, TriedSoFar, TriedIds, TriedPass, TriedSlot;
    ghost var s := a.Abs();
    var setTried := tried;
    TableRange(a.vvTried);
    TriedRow(a.h, s, 0);
    for n := 0 to ADDRMAN_TRIED_BUCKET_COUNT
      invariant TriedSoFar(a.h, s, n, 0) && setTried == tried - SeenTried(s.vvTried, n, 0)
    {
      for i := 0 to ADDRMAN_BUCKET_SIZE
        invariant TriedSoFar(a.h, s, n, i) && setTried == tried - SeenTried(s.vvTried, n, i)
      {
        var slot := Slot(n, i);
        TableAt(a.vvTried, slot);
        TriedStep(a.h, s, n, i);
        if a.vvTried[n, i] != -1 {
          TableNonNegative(a.vvTried, slot);
          var id := a.vvTried[n, i];
          TriedMember(a.mapInfo, id);
          OwnTriedSlot(a.h, s, n, i, id);
          if id !in setTried { TriedBad(a.h, s, n, i + 1); return -11, 0; }
          // A missing info reads as the default one.
          if id !in a.mapInfo || GetTriedBucket(a.h, a.nKey, a.mapInfo[id].address.service) != n {
            TriedBad(a.h, s, n, i + 1);
            return -17, 0;
          }
          if GetBucketPosition(a.h, a.nKey, false, n, a.mapInfo[id].address.service) != i {
            TriedBad(a.h, s, n, i + 1);
            return -18, 0;
          }
          setTried := setTried - {id};
        }
      }
      TriedRow(a.h, s, n);
    }
    TriedEnd(a.h, s);
    code, rest := 0, |setTried|;
  }

  lemma TableRange(a: array2<int>)
    ensures forall slot :: slot in Table(a) ==> slot.bucket < a.Length0 && slot.pos < a.Length1
  {
  }

  lemma TriedMember(m: map<nat, Info>, id: nat)
    ensures id in TriedIds(m) <==> id in m && m[id].fInTried
  {
  }

  lemma OwnTriedSlot(h: Hashes, s: State, n: nat, i: nat, id: nat)
    ensures id in s.mapInfo ==>
              (Slot(n, i) == TriedSlot(h, s.nKey, s.mapInfo[id].address.service) <==>
               GetTriedBucket(h, s.nKey, s.mapInfo[id].address.service) == n
               && GetBucketPosition(h, s.nKey, false, n, s.mapInfo[id].address.service) == i)
  {
  }

  // ----- The new table -----

  ghost function SlotsBefore(table: map<Slot, nat>, id: nat, bucket: nat, pos: nat): set<Slot> {
    set slot | slot in table && table[slot] == id && Before(slot, bucket, pos)
  }

  /** The references still to be met. */
  ghost function Left(refs: map<nat, int>, table: map<Slot, nat>, bucket: nat, pos: nat): map<nat, int> {
    map id | id in refs && |SlotsBefore(table, id, bucket, pos)| < refs[id] ::
      refs[id] - |SlotsBefore(table, id, bucket, pos)|
  }

  /** The slots the scan has passed hold untried ids at their positions, none of them too often. */
  ghost predicate NewSoFar(h: Hashes, s: State, bucket: nat, pos: nat) {
    && (forall slot :: slot in s.vvNew && Before(slot, bucket, pos) ==> NewOwn(h, s, slot))
    && (forall id :: id in s.mapInfo ==> |SlotsBefore(s.vvNew, id, bucket, pos)| <= s.mapInfo[id].nRefCount)
  }

  ghost predicate NewOwn(h: Hashes, s: State, slot: Slot)
    requires slot in s.vvNew
  {
    var id := s.vvNew[slot];
    id in s.mapInfo && !s.mapInfo[id].fInTried && slot == NewSlot(h, s.nKey, s.mapInfo[id].address.service, slot.bucket)
  }

  lemma SlotsBeforeStep(table: map<Slot, nat>, id: nat, bucket: nat, pos: nat)
    ensures var slot := Slot(bucket, pos);
            |SlotsBefore(table, id, bucket, pos + 1)|
              == |SlotsBefore(table, id, bucket, pos)| + if slot in table && table[slot] == id then 1 else 0
  {
    hide SlotsBefore;
    OneSlotMore(table, id, bucket, pos);
  }

  lemma OneSlotMore(table: map<Slot, nat>, id: nat, bucket: nat, pos: nat)
    ensures var slot := Slot(bucket, pos);
            var was, now := SlotsBefore(table, id, bucket, pos), SlotsBefore(table, id, bucket, pos + 1);
            slot !in was && now == if slot in table && table[slot] == id then was + {slot} else was
  {
    var slot := Slot(bucket, pos);
    var was, now := SlotsBefore(table, id, bucket, pos), SlotsBefore(table, id, bucket, pos + 1);
    forall other
      ensures other in now <==> other in was || (other == slot && slot in table && table[slot] == id)
    {
    }
  }

  lemma NewStep(h: Hashes, s: State, bucket: nat, pos: nat)
    requires NewSoFar(h, s, bucket, pos)
    ensures var slot := Slot(bucket, pos);
            var refs := Refs(s.mapInfo, s.mapInfo.Keys);
            var was, now := Left(refs, s.vvNew, bucket, pos), Left(refs, s.vvNew, bucket, pos + 1);
            if slot !in s.vvNew then NewSoFar(h, s, bucket, pos + 1) && now == was
            else
              var id := s.vvNew[slot];
              && (id !in was || !NewOwn(h, s, slot) ==> !NewSoFar(h, s, bucket, pos + 1))
              && (id in was && NewOwn(h, s, slot) ==> NewSoFar(h, s, bucket, pos + 1))
              && (id in was ==> now == if was[id] == 1 then was - {id} else was[id := was[id] - 1])
  {
    hide NewSoFar, Left, NewOwn, Refs;
    LeftStep(Refs(s.mapInfo, s.mapInfo.Keys), s.vvNew, bucket, pos);
    SoFarStep(h, s, bucket, pos);
  }

  lemma LeftStep(refs: map<nat, int>, table: map<Slot, nat>, bucket: nat, pos: nat)
    ensures var slot := Slot(bucket, pos);
            var was, now := Left(refs, table, bucket, pos), Left(refs, table, bucket, pos + 1);
            if slot !in table then now == was
            else table[slot] in was ==>
              now == if was[table[slot]] == 1 then was - {table[slot]} else was[table[slot] := was[table[slot]] - 1]
  {
    hide SlotsBefore;
    var slot := Slot(bucket, pos);
    forall id: nat
      ensures |SlotsBefore(table, id, bucket, pos + 1)|
                == |SlotsBefore(table, id, bucket, pos)| + if slot in table && table[slot] == id then 1 else 0
    {
      SlotsBeforeStep(table, id, bucket, pos);
    }
  }

  lemma SoFarStep(h: Hashes, s: State, bucket: nat, pos: nat)
    requires NewSoFar(h, s, bucket, pos)
    ensures var slot := Slot(bucket, pos);
            if slot !in s.vvNew then NewSoFar(h, s, bucket, pos + 1)
            else NewSoFar(h, s, bucket, pos + 1) <==>
                   NewOwn(h, s, slot) && s.vvNew[slot] in Left(Refs(s.mapInfo, s.mapInfo.Keys), s.vvNew, bucket, pos)
  {
    hide SlotsBefore, NewSlot;
    var slot := Slot(bucket, pos);
    forall id: nat
      ensures |SlotsBefore(s.vvNew, id, bucket, pos + 1)|
                == |SlotsBefore(s.vvNew, id, bucket, pos)| + if slot in s.vvNew && s.vvNew[slot] == id then 1 else 0
    {
      SlotsBeforeStep(s.vvNew, id, bucket, pos);
    }
    BeforeNext(bucket, pos);
  }

  lemma BeforeNext(bucket: nat, pos: nat)
    ensures forall slot: Slot ::
              Before(slot, bucket, pos + 1) <==> Before(slot, bucket, pos) || slot == Slot(bucket, pos)
  {
  }

  ghost predicate InNewRange(table: map<Slot, nat>) {
    forall slot :: slot in table ==> slot.bucket < ADDRMAN_NEW_BUCKET_COUNT && slot.pos < ADDRMAN_BUCKET_SIZE
  }

  lemma SlotsBeforeRow(table: map<Slot, nat>, id: nat, bucket: nat)
    requires InNewRange(table)
    ensures SlotsBefore(table, id, bucket, ADDRMAN_BUCKET_SIZE) == SlotsBefore(table, id, bucket + 1, 0)
    ensures SlotsBefore(table, id, 0, 0) == {}
    ensures SlotsBefore(table, id, ADDRMAN_NEW_BUCKET_COUNT, 0) == SlotsOf(table, id)
  {
  }

  lemma NewRow(h: Hashes, s: State, bucket: nat)
    requires InNewRange(s.vvNew)
    ensures NewSoFar(h, s, bucket, ADDRMAN_BUCKET_SIZE) <==> NewSoFar(h, s, bucket + 1, 0)
    ensures var refs := Refs(s.mapInfo, s.mapInfo.Keys);
            Left(refs, s.vvNew, bucket, ADDRMAN_BUCKET_SIZE) == Left(refs, s.vvNew, bucket + 1, 0)
  {
    hide SlotsBefore, NewOwn;
    forall id: nat
      ensures SlotsBefore(s.vvNew, id, bucket, ADDRMAN_BUCKET_SIZE) == SlotsBefore(s.vvNew, id, bucket + 1, 0)
    {
      SlotsBeforeRow(s.vvNew, id, bucket);
    }
    forall slot | slot in s.vvNew
      ensures Before(slot, bucket, ADDRMAN_BUCKET_SIZE) <==> Before(slot, bucket + 1, 0)
    {
    }
  }

  lemma NewStart(h: Hashes, s: State)
    requires InNewRange(s.vvNew) && InfosPass(s)
    ensures NewSoFar(h, s, 0, 0)
    ensures Left(Refs(s.mapInfo, s.mapInfo.Keys), s.vvNew, 0, 0) == Refs(s.mapInfo, s.mapInfo.Keys)
  {
    hide SlotsBefore, NewOwn;
    forall id: nat
      ensures SlotsBefore(s.vvNew, id, 0, 0) == {}
    {
      SlotsBeforeRow(s.vvNew, id, 0);
    }
    forall id | id in s.mapInfo
      ensures s.mapInfo[id].nRefCount >= 0 && (!s.mapInfo[id].fInTried ==> s.mapInfo[id].nRefCount >= 1)
    {
      assert InfoCode(s.mapInfo[id], id, s.mapAddr, s.vRandom) == 0;
    }
  }

  lemma NewBad(h: Hashes, s: State, bucket: nat, pos: nat)
    requires !NewSoFar(h, s, bucket, pos)
    ensures !NewPass(h, s)
  {
    hide NewSlot, SlotsBefore;
    if NewPass(h, s) {
      assert forall slot :: slot in s.vvNew ==> NewOwn(h, s, slot);
      forall id | id in s.mapInfo
        ensures |SlotsBefore(s.vvNew, id, bucket, pos)| <= s.mapInfo[id].nRefCount
      {
        Fewer(s.vvNew, id, bucket, pos);
      }
    }
  }

  lemma Fewer(table: map<Slot, nat>, id: nat, bucket: nat, pos: nat)
    ensures |SlotsBefore(table, id, bucket, pos)| <= |SlotsOf(table, id)|
  {
    var part, all := SlotsBefore(table, id, bucket, pos), SlotsOf(table, id);
    assert all == part + (all - part);
  }

  lemma NewEnd(h: Hashes, s: State)
    requires InNewRange(s.vvNew) && InfosPass(s) && NewSoFar(h, s, ADDRMAN_NEW_BUCKET_COUNT, 0)
    ensures Left(Refs(s.mapInfo, s.mapInfo.Keys), s.vvNew, ADDRMAN_NEW_BUCKET_COUNT, 0) == map[] <==> NewPass(h, s)
  {
    hide NewSlot, SlotsBefore, SlotsOf, InfoCode;
    var left := Left(Refs(s.mapInfo, s.mapInfo.Keys), s.vvNew, ADDRMAN_NEW_BUCKET_COUNT, 0);
    forall id: nat
      ensures SlotsBefore(s.vvNew, id, ADDRMAN_NEW_BUCKET_COUNT, 0) == SlotsOf(s.vvNew, id)
    {
      SlotsBeforeRow(s.vvNew, id, 0);
    }
    assert forall slot :: slot in s.vvNew ==> NewOwn(h, s, slot);
    if left == map[] {
      forall id | id in s.mapInfo
        ensures s.mapInfo[id].nRefCount == |SlotsOf(s.vvNew, id)|
      {
        TriedHasNoRefs(s, id);
        assert id !in left;
      }
    } else {
      var id :| id in left;
      assert id in s.mapInfo && s.mapInfo[id].nRefCount != |SlotsOf(s.vvNew, id)|;
    }
  }

  lemma TriedHasNoRefs(s: State, id: nat)
    requires InfosPass(s) && id in s.mapInfo
    ensures s.mapInfo[id].fInTried ==> s.mapInfo[id].nRefCount == 0
  {
    assert InfoCode(s.mapInfo[id], id, s.mapAddr, s.vRandom) == 0;
  }

  /** The scan of the new table; `rest` ids were not met often enough. */
  method CheckNew(a: CAddrMan, refs: map<nat, int>) returns (code: int, rest: nat)
    requires a.Shaped() && refs == Refs(a.mapInfo, a.mapInfo.Keys) && InfosPass(a.Abs())
    ensures code == 0 && rest == 0 <==> NewPass(a.h, a.Abs())
    ensures code in {0, -12, -19}
  {
    hide Table, TableOk, Left, NewSoFar, Refs, NewPass, InfosPass, NewOwn, InNewRange;
    ghost var s := a.Abs();
    var mapNew := refs;
    NewInRange(a);
    NewStart(a.h, s);
    for n := 0 to ADDRMAN_NEW_BUCKET_COUNT
      invariant NewSoFar(a.h, s, n, 0) && mapNew == Left(refs, s.vvNew, n, 0)
    {
      for i := 0 to ADDRMAN_BUCKET_SIZE
        invariant NewSoFar(a.h, s, n, i) && mapNew == Left(refs, s.vvNew, n, i)
      {
        var slot := Slot(n, i);
        TableAt(a.vvNew, slot);
        NewStep(a.h, s, n, i);
        if a.vvNew[n, i] != -1 {
          TableNonNegative(a.vvNew, slot);
          var id := a.vvNew[n, i];
          if id !in mapNew { NewBad(a.h, s, n, i + 1); return -12, 0; }
          OwnNewSlot(a.h, s, n, i, mapNew);
          if id !in a.mapInfo || GetBucketPosition(a.h, a.nKey, true, n, a.mapInfo[id].address.service) != i {
            NewBad(a.h, s, n, i + 1);
            return -19, 0;
          }
          if mapNew[id] == 1 {
            mapNew := mapNew - {id};
          } else {
            mapNew := mapNew[id := mapNew[id] - 1];
          }
        }
      }
      NewRow(a.h, s, n);
    }
    NewEnd(a.h, s);
    code, rest := 0, |mapNew|;
  }

  lemma NewInRange(a: CAddrMan)
    requires a.Shaped()
    ensures InNewRange(a.Abs().vvNew)
  {
    TableRange(a.vvNew);
  }

  lemma OwnNewSlot(h: Hashes, s: State, n: nat, i: nat, mapNew: map<nat, int>)
    requires Slot(n, i) in s.vvNew && s.vvNew[Slot(n, i)] in mapNew
    requires mapNew == Left(Refs(s.mapInfo, s.mapInfo.Keys), s.vvNew, n, i)
    ensures var id := s.vvNew[Slot(n, i)];
            && id in s.mapInfo
            && (NewOwn(h, s, Slot(n, i)) <==> GetBucketPosition(h, s.nKey, true, n, s.mapInfo[id].address.service) == i)
  {
  }

  /** The whole check returns 0 exactly when everything it looks at is in order. */
  method Check_(a: CAddrMan) returns (code: int)
    requires a.Shaped()
    ensures code == 0 <==> Passes(a.h, a.Abs())
    // What each code tells, in the order of the tests.
    ensures code == -7 <==> |a.vRandom| != a.nTried + a.nNew
    ensures code in {-1, -2, -3, -4, -5, -6, -8, -14} <==> code != -7 && !InfosPass(a.Abs())
    ensures code in {-1, -2, -3, -4, -5, -6, -8, -14} ==>
              exists id :: id in a.mapInfo && InfoCode(a.mapInfo[id], id, a.mapAddr, a.vRandom) == code
    ensures code == -9 ==> a.nTried != |TriedIds(a.mapInfo)|
    ensures code == -10 ==> a.nTried == |TriedIds(a.mapInfo)| && a.nNew != |NewIds(a.mapInfo)|
    ensures code in {-11, -13, -17, -18} ==> !TriedPass(a.h, a.Abs())
    ensures code in {-12, -15, -19} ==> !NewPass(a.h, a.Abs())
    ensures code == -16 ==> a.nKey == 0
    ensures -19 <= code <= 0
  {
    hide InfosPass, InfoCode, TriedPass, NewPass, TriedIds, NewIds, Refs;
    if |a.vRandom| != a.nTried + a.nNew { return -7; }
    var setTried, mapNew;
    code, setTried, mapNew := CheckInfos(a);
    InfoCodes(a.mapInfo, a.mapAddr, a.vRandom);
    if code != 0 { return; }
    RefsSize(a.mapInfo);
    if |setTried| != a.nTried { return -9; }
    if |mapNew| != a.nNew { return -10; }
    var triedLeft, newLeft;
    code, triedLeft := CheckTried(a, setTried);
    if code != 0 { return; }
    code, newLeft := CheckNew(a, mapNew);
    if code != 0 { return; }
    if triedLeft != 0 { return -13; }
    if newLeft != 0 { return -15; }
    if a.nKey == 0 { return -16; }
  }

  lemma RefsSize(m: map<nat, Info>)
    ensures |Refs(m, m.Keys)| == |NewIds(m)|
  {
    assert Refs(m, m.Keys).Keys == NewIds(m);
  }
}
