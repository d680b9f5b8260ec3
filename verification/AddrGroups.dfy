/**
  How far the addresses of one network group, and those heard from one, can spread: at most 8 tried buckets, and at
  most 64 new buckets for each group of sources, after any run.
 */
module AddrGroups {
  import opened AddrTable
  import opened AddrEffects

  // ----- The buckets of a group -----

  function TriedBucketOf(h: Hashes, key: Key, group: nat, choice: nat): nat {
    h.triedChoice(key, group, choice) % 256
  }

  function NewBucketOf(h: Hashes, key: Key, group: nat, choice: nat): nat {
    h.newChoice(key, group, choice) % 1024
  }

  /** The tried buckets open to a group. */
  ghost function TriedBuckets(h: Hashes, key: Key, group: nat, n: nat): set<nat> {
    set i | 0 <= i < n :: TriedBucketOf(h, key, group, i)
  }

  /** The new buckets open to what is heard from a group. */
  ghost function NewBuckets(h: Hashes, key: Key, group: nat, n: nat): set<nat> {
    set i | 0 <= i < n :: NewBucketOf(h, key, group, i)
  }

  ghost function SourceBuckets(h: Hashes, key: Key, groups: set<nat>): set<nat> {
    set g, b | g in groups && b in NewBuckets(h, key, g, 64) :: b
  }

  lemma {:induction false} TriedBucketsCount(h: Hashes, key: Key, group: nat, n: nat)
    ensures |TriedBuckets(h, key, group, n)| <= n
  {
    hide TriedBucketOf;
    if n > 0 {
      TriedBucketsCount(h, key, group, n - 1);
      assert TriedBuckets(h, key, group, n)
          == TriedBuckets(h, key, group, n - 1) + {TriedBucketOf(h, key, group, n - 1)};
    } else {
      assert TriedBuckets(h, key, group, n) == {};
    }
  }

  lemma {:induction false} NewBucketsCount(h: Hashes, key: Key, group: nat, n: nat)
    ensures |NewBuckets(h, key, group, n)| <= n
  {
    hide NewBucketOf;
    if n > 0 {
      NewBucketsCount(h, key, group, n - 1);
      assert NewBuckets(h, key, group, n) == NewBuckets(h, key, group, n - 1) + {NewBucketOf(h, key, group, n - 1)};
    } else {
      assert NewBuckets(h, key, group, n) == {};
    }
  }

  lemma {:induction false} SourceBucketsCount(h: Hashes, key: Key, groups: set<nat>)
    ensures |SourceBuckets(h, key, groups)| <= 64 * |groups|
    decreases |groups|
  {
    hide NewBuckets;
    if groups == {} {
      assert SourceBuckets(h, key, groups) == {};
    } else {
      var g :| g in groups;
      var rest := groups - {g};
      SourceBucketsCount(h, key, rest);
      NewBucketsCount(h, key, g, 64);
      assert SourceBuckets(h, key, groups) == SourceBuckets(h, key, rest) + NewBuckets(h, key, g, 64);
    }
  }

  lemma TriedBucketHere(h: Hashes, key: Key, svc: Service)
    ensures GetTriedBucket(h, key, svc) in TriedBuckets(h, key, h.group(svc.addr), 8)
  {
    var choice := h.ofService(key, svc) % 8;
    assert GetTriedBucket(h, key, svc) == TriedBucketOf(h, key, h.group(svc.addr), choice);
  }

  lemma NewBucketHere(h: Hashes, key: Key, svc: Service, src: NetAddr, groups: set<nat>)
    requires h.group(src) in groups
    ensures GetNewBucket(h, key, svc, src) in SourceBuckets(h, key, groups)
  {
    var choice := h.ofGroups(key, h.group(svc.addr), h.group(src)) % 64;
    assert GetNewBucket(h, key, svc, src) == NewBucketOf(h, key, h.group(src), choice);
    assert GetNewBucket(h, key, svc, src) in NewBuckets(h, key, h.group(src), 64);
  }

  // ----- Slots of a few buckets -----

  lemma {:induction false} SlotsOfBuckets(slots: set<Slot>, buckets: set<nat>)
    requires forall slot :: slot in slots ==> slot.bucket in buckets && slot.pos < 64
    ensures |slots| <= 64 * |buckets|
    decreases |buckets|
  {
    if buckets == {} {
      assert slots == {};
    } else {
      var b :| b in buckets;
      var here, rest := set slot | slot in slots && slot.bucket == b, set slot | slot in slots && slot.bucket != b;
      SlotsOfBuckets(rest, buckets - {b});
      SlotsOfOne(here, b, 64);
      assert slots == here + rest;
    }
  }

  lemma {:induction false} SlotsOfOne(slots: set<Slot>, b: nat, n: nat)
    requires forall slot :: slot in slots ==> slot.bucket == b && slot.pos < n
    ensures |slots| <= n
  {
    if n == 0 {
      assert slots == {};
    } else {
      SlotsOfOne(slots - {Slot(b, n - 1)}, b, n - 1);
    }
  }

  // ----- Tried -----

  /** The tried slots held by addresses of a group. */
  ghost function TriedOf(h: Hashes, s: State, group: nat): set<Slot> {
    set slot | slot in s.vvTried && s.vvTried[slot] in s.mapInfo
               && h.group(s.mapInfo[s.vvTried[slot]].address.service.addr) == group
  }

  /** In a consistent manager a group holds tried slots in at most 8 buckets, so at most 512 of them. */
  lemma TriedIsConfined(h: Hashes, s: State, group: nat)
    requires Consistent(h, s)
    ensures |set slot | slot in TriedOf(h, s, group) :: slot.bucket| <= 8
    ensures |TriedOf(h, s, group)| <= 512
  {
    hide IdsOk, AddrOk, RandomOk, NewSlotsOk, RefsOk, CountsOk, SettledBut, GetTriedBucket, TriedBuckets;
    var buckets := TriedBuckets(h, s.nKey, group, 8);
    forall slot | slot in TriedOf(h, s, group)
      ensures slot.bucket in buckets && slot.pos < 64
    {
      TriedBucketHere(h, s.nKey, s.mapInfo[s.vvTried[slot]].address.service);
    }
    TriedBucketsCount(h, s.nKey, group, 8);
    CardinalityLe(set slot | slot in TriedOf(h, s, group) :: slot.bucket, buckets);
    SlotsOfBuckets(TriedOf(h, s, group), buckets);
  }

  // ----- New -----

  /** Every new slot in use is in a bucket of one of the groups, and every entry was first heard from one of them. */
  ghost predicate Local(h: Hashes, s: State, groups: set<nat>) {
    && (forall slot :: slot in s.vvNew ==> slot.bucket in SourceBuckets(h, s.nKey, groups))
    && (forall id :: id in s.mapInfo ==> h.group(s.mapInfo[id].source) in groups)
  }

  predicate SourcesKept(m: map<nat, Info>, n: map<nat, Info>) {
    forall id :: id in n ==> id in m && n[id].source == m[id].source
  }

  lemma LocalStays(h: Hashes, s: State, t: State, groups: set<nat>)
    requires Local(h, s, groups) && t.nKey == s.nKey && SourcesKept(s.mapInfo, t.mapInfo)
    requires forall slot :: slot in t.vvNew ==> slot in s.vvNew || slot.bucket in SourceBuckets(h, s.nKey, groups)
    ensures Local(h, t, groups)
  {
    hide SourceBuckets;
  }

  lemma TouchedLocal(h: Hashes, s: State, id: nat, info: Info, groups: set<nat>)
    requires Local(h, s, groups) && id in s.mapInfo && info.source == s.mapInfo[id].source
    ensures Local(h, Touch(s, id, info), groups)
  {
    hide SourceBuckets;
  }

  lemma MakeTriedLocal(h: Hashes, s: State, id: nat, groups: set<nat>)
    requires Consistent(h, s) && Local(h, s, groups) && id in s.mapInfo && !s.mapInfo[id].fInTried
    ensures Local(h, MakeTried(h, s, id), groups)
  {
    hide Consistent, MakeTried, Local, TriedSlot, GetNewBucket, SourceBuckets, InfosKept;
    MakeTriedMoves(h, s, id);
    MakeTriedOk(h, s, id);
    var t, slot := MakeTried(h, s, id), TriedSlot(h, s.nKey, s.mapInfo[id].address.service);
    KeptSources(s.mapInfo[id := s.mapInfo[id].(fInTried := true)], t.mapInfo);
    if slot in s.vvTried {
      var out := s.mapInfo[s.vvTried[slot]];
      LocalSource(h, s, s.vvTried[slot], groups);
      NewBucketHere(h, s.nKey, out.address.service, out.source, groups);
    }
    WithoutKeys(s.vvNew, id);
    LocalStays(h, s, t, groups);
  }

  lemma LocalSource(h: Hashes, s: State, id: nat, groups: set<nat>)
    requires Local(h, s, groups) && id in s.mapInfo
    ensures h.group(s.mapInfo[id].source) in groups
  {
  }

  lemma WithoutKeys(table: map<Slot, nat>, id: nat)
    ensures Without(table, id).Keys <= table.Keys
  {
  }

  lemma KeptSources(m: map<nat, Info>, n: map<nat, Info>)
    requires InfosKept(m, n)
    ensures SourcesKept(m, n)
  {
  }

  lemma GoodLocal(h: Hashes, s: State, svc: Service, testBeforeEvict: bool, time: int, groups: set<nat>)
    requires Consistent(h, s) && Local(h, s, groups)
    ensures Local(h, Good(h, s, svc, testBeforeEvict, time), groups)
  {
    hide ConsistentBut, MakeTried, Local, TriedSlot, Touch, SlotsOf;
    var s0 := s.(nLastGood := time);
    assert Local(h, s0, groups) by { SameTables(h, s, s0, groups); }
    if FindsService(s, svc) {
      var id := s.mapAddr[svc.addr];
      var touched := s.mapInfo[id].(nLastSuccess := time, nLastTry := time, nAttempts := 0);
      SameButClock(h, s, time);
      TouchOk(h, s0, id, touched, {}, 0);
      var s1 := Touch(s0, id, touched);
      TouchedLocal(h, s0, id, touched, groups);
      TouchedIs(s0, id, touched);
      if !s.mapInfo[id].fInTried {
        MakeTriedLocal(h, s1, id, groups);
      }
      SameTables(h, s1, s1.(collisions := s.collisions + {id}), groups);
    }
  }

  lemma TouchedIs(s: State, id: nat, info: Info)
    requires id in s.mapInfo
    ensures id in Touch(s, id, info).mapInfo && Touch(s, id, info).mapInfo[id] == info
  {
  }

  lemma SameButClock(h: Hashes, s: State, time: int)
    requires Consistent(h, s)
    ensures Consistent(h, s.(nLastGood := time))
  {
    hide IdsOk, AddrOk, RandomOk, TriedSlotsOk, NewSlotsOk, RefsOk, CountsOk, SettledBut;
  }

  lemma SameTables(h: Hashes, s: State, t: State, groups: set<nat>)
    requires Local(h, s, groups) && t.nKey == s.nKey && t.mapInfo == s.mapInfo && t.vvNew == s.vvNew
    ensures Local(h, t, groups)
  {
  }

  lemma PlaceLocal(h: Hashes, s: State, id: nat, source: NetAddr, now: int, loose: set<nat>, groups: set<nat>)
    requires ConsistentBut(h, s, loose, 0) && loose <= {id} && id in s.mapInfo && !s.mapInfo[id].fInTried
    requires s.mapInfo[id].nRefCount < ADDRMAN_NEW_BUCKETS_PER_ADDRESS
    requires Local(h, s, groups) && h.group(source) in groups
    ensures Local(h, Place(h, s, id, source, now, loose), groups)
  {
    hide ConsistentBut, Place, Local, GetNewBucket, SourceBuckets, InfosKept, IsTerrible;
    PlaceMoves(h, s, id, source, now, loose);
    PlaceOk(h, s, id, source, now, loose);
    var t := Place(h, s, id, source, now, loose);
    KeptSources(s.mapInfo, t.mapInfo);
    NewBucketHere(h, s.nKey, s.mapInfo[id].address.service, source, groups);
    LocalStays(h, s, t, groups);
  }

  lemma KnownLocal(h: Hashes, s: State, addr: Address, source: NetAddr, p: int, now: int, groups: set<nat>)
    requires Consistent(h, s) && Local(h, s, groups) && Finds(s, addr.service.addr) && h.group(source) in groups
    ensures var id := s.mapAddr[addr.service.addr];
            var info := Refreshed(s.mapInfo[id], addr, p, now);
            var t := Touch(s, id, info);
            && Consistent(h, t) && Local(h, t, groups) && id in t.mapInfo && t.mapInfo[id] == info
            && (!info.fInTried && info.nRefCount != ADDRMAN_NEW_BUCKETS_PER_ADDRESS ==>
                  Local(h, Place(h, t, id, source, now, {}), groups))
  {
    hide ConsistentBut, Place, Local, Refreshed;
    var id := s.mapAddr[addr.service.addr];
    RefreshedShape(s.mapInfo[id], addr, p, now);
    RefreshedSource(s.mapInfo[id], addr, p, now);
    var info := Refreshed(s.mapInfo[id], addr, p, now);
    TouchOk(h, s, id, info, {}, 0);
    TouchedLocal(h, s, id, info, groups);
    RefCountBound(h, s, id);
    if !info.fInTried && info.nRefCount != ADDRMAN_NEW_BUCKETS_PER_ADDRESS {
      PlaceLocal(h, Touch(s, id, info), id, source, now, {}, groups);
    }
  }

  lemma RefreshedSource(info: Info, addr: Address, p: int, now: int)
    ensures Refreshed(info, addr, p, now).source == info.source
  {
  }

  lemma UnknownLocal(h: Hashes, s: State, addr: Address, source: NetAddr, p: int, now: int, groups: set<nat>)
    requires Consistent(h, s) && Local(h, s, groups) && !Finds(s, addr.service.addr) && h.group(source) in groups
    ensures var id := s.nIdCount;
            var t := Create(s, addr, source);
            && id in t.mapInfo
            && var info := t.mapInfo[id].(address := addr.(nTime := Max0(addr.nTime - p)));
               var u := Touch(t, id, info).(nNew := s.nNew + 1);
               && ConsistentBut(h, u, {id}, 0) && id in u.mapInfo && !u.mapInfo[id].fInTried
               && Local(h, Place(h, u, id, source, now, {id}), groups)
  {
    hide ConsistentBut, Place;
    AddUnknownOk(h, s, addr, source, p, now);
    var id := s.nIdCount;
    var t := Create(s, addr, source);
    var info := t.mapInfo[id].(address := addr.(nTime := Max0(addr.nTime - p)));
    var u := Touch(t, id, info).(nNew := s.nNew + 1);
    assert Local(h, u, groups);
    PlaceLocal(h, u, id, source, now, {id}, groups);
  }

  lemma AddLocal(h: Hashes, s: State, addr: Address, source: NetAddr, penalty: int, routable: bool, now: int,
                 lucky: bool, groups: set<nat>)
    requires Consistent(h, s) && Local(h, s, groups) && h.group(source) in groups
    ensures Local(h, Add(h, s, addr, source, penalty, routable, now, lucky).0, groups)
  {
    hide Consistent, ConsistentBut, Place, Local, Refreshed, Create, Touch;
    var p := if addr.service.addr == source then 0 else penalty;
    if routable {
      if Finds(s, addr.service.addr) {
        KnownLocal(h, s, addr, source, p, now, groups);
      } else {
        UnknownLocal(h, s, addr, source, p, now, groups);
      }
    }
  }

  lemma ResolveOneLocal(h: Hashes, s: State, id: nat, now: int, valid: Service -> bool, groups: set<nat>)
    requires Consistent(h, s) && Local(h, s, groups)
    ensures Local(h, ResolveOne(h, s, id, now, valid), groups)
  {
    hide Consistent, Local, Good, TriedSlot;
    SameTables(h, s, s.(collisions := s.collisions - {id}), groups);
    if id in s.mapInfo {
      var t := Good(h, s, s.mapInfo[id].address.service, false, now);
      GoodLocal(h, s, s.mapInfo[id].address.service, false, now, groups);
      SameTables(h, t, t.(collisions := t.collisions - {id}), groups);
    }
  }

  lemma {:induction false} ResolveLocal(h: Hashes, s: State, todo: set<nat>, now: int, valid: Service -> bool,
                                        groups: set<nat>)
    requires Sound(h, s) && Local(h, s, groups)
    ensures Local(h, Resolve(h, s, todo, now, valid), groups)
    decreases |todo|
  {
    hide Consistent, CollisionsOk, Local, ResolveOne;
    if todo != {} {
      var id := Least(todo);
      ResolveOneOk(h, s, id, now, valid);
      ResolveOneLocal(h, s, id, now, valid, groups);
      ResolveLocal(h, ResolveOne(h, s, id, now, valid), todo - {id}, now, valid, groups);
    }
  }

  lemma {:induction false} ShuffleLocal(h: Hashes, s: State, n: nat, picks: seq<nat>, groups: set<nat>)
    requires Sound(h, s) && Local(h, s, groups)
    ensures Local(h, Shuffle(h, s, n, picks), groups)
    decreases |picks|
  {
    hide Consistent, CollisionsOk, Local, SwapRandom, SourceBuckets;
    if picks != [] && n < |s.vRandom| {
      var j := n + picks[0] % (|s.vRandom| - n);
      ShuffleOk(h, s, n, j);
      SwapLocal(h, s, n, j, groups);
      ShuffleLocal(h, SwapRandom(s, n, j), n + 1, picks[1..], groups);
    }
  }

  lemma SwapLocal(h: Hashes, s: State, i: nat, j: nat, groups: set<nat>)
    requires Consistent(h, s) && Local(h, s, groups) && i < |s.vRandom| && j < |s.vRandom|
    ensures Local(h, SwapRandom(s, i, j), groups)
  {
    hide IdsOk, AddrOk, TriedSlotsOk, NewSlotsOk, RefsOk, CountsOk, SettledBut, SwapRandom, Local;
    SwapRandomOk(s, i, j);
    LocalStays(h, s, SwapRandom(s, i, j), groups);
  }

  lemma StatisticsLocal(h: Hashes, s: State, svc: Service, countFailure: bool, services: set<nat>, time: int,
                        groups: set<nat>)
    requires Local(h, s, groups)
    ensures Local(h, Attempt(s, svc, countFailure, time), groups)
    ensures Local(h, Connected(s, svc, time), groups) && Local(h, SetServices(s, svc, services), groups)
  {
    hide SourceBuckets;
  }

  /** The call hears addresses from the given groups only. */
  predicate HeardFrom(h: Hashes, op: Op, groups: set<nat>) {
    op.AddOp? ==> h.group(op.source) in groups
  }

  lemma StepLocal(h: Hashes, s: State, op: Op, groups: set<nat>)
    requires Sound(h, s) && Local(h, s, groups) && HeardFrom(h, op, groups)
    ensures Local(h, Step(h, s, op), groups)
  {
    hide Consistent, CollisionsOk, Local, Add, Good, Attempt, Connected, SetServices, Shuffle, Resolve;
    match op
    case AddOp(addr, source, penalty, routable, now, lucky) =>
      AddLocal(h, s, addr, source, penalty, routable, now, lucky, groups);
    case GoodOp(svc, testBeforeEvict, time) => GoodLocal(h, s, svc, testBeforeEvict, time, groups);
    case AttemptOp(svc, countFailure, time) => StatisticsLocal(h, s, svc, countFailure, {}, time, groups);
    case ConnectedOp(svc, time) => StatisticsLocal(h, s, svc, false, {}, time, groups);
    case SetServicesOp(svc, services) => StatisticsLocal(h, s, svc, false, services, 0, groups);
    case GetAddrOp(picks) => ShuffleLocal(h, s, 0, picks, groups);
    case ResolveOp(now, valid) => ResolveLocal(h, s, s.collisions, now, valid, groups);
    case SelectOp(pick) => SameTables(h, s, s.(collisions := s.collisions - {pick}), groups);
  }

  lemma {:induction false} RunLocal(h: Hashes, s: State, ops: seq<Op>, groups: set<nat>)
    requires Sound(h, s) && Local(h, s, groups) && forall op :: op in ops ==> HeardFrom(h, op, groups)
    ensures Local(h, Run(h, s, ops), groups) && Sound(h, Run(h, s, ops)) && Run(h, s, ops).nKey == s.nKey
    decreases |ops|
  {
    hide Consistent, CollisionsOk, Local, Step, StampsOk, HeardFrom;
    if ops != [] {
      StepOk(h, s, ops[0]);
      StepLocal(h, s, ops[0], groups);
      RunLocal(h, Step(h, s, ops[0]), ops[1..], groups);
    }
  }

  /**
    Whatever is said and done, sources from a number of network groups fill at most 64 new buckets for each group, and
    so at most 4096 slots for each.
   */
  lemma SourcesAreConfined(h: Hashes, s: State, ops: seq<Op>, groups: set<nat>)
    requires Sound(h, s) && s.mapInfo == map[] && forall op :: op in ops ==> HeardFrom(h, op, groups)
    ensures var t := Run(h, s, ops);
            && |set slot | slot in t.vvNew :: slot.bucket| <= 64 * |groups|
            && |t.vvNew| <= 4096 * |groups|
  {
    hide Sound, Run, HeardFrom;
    NothingHeard(h, s, groups);
    RunLocal(h, s, ops, groups);
    Confined(h, Run(h, s, ops), groups);
  }

  lemma NothingHeard(h: Hashes, s: State, groups: set<nat>)
    requires Sound(h, s) && s.mapInfo == map[]
    ensures Local(h, s, groups)
  {
    hide IdsOk, AddrOk, RandomOk, TriedSlotsOk, RefsOk, CountsOk, SettledBut, CollisionsOk, SourceBuckets;
  }

  lemma Confined(h: Hashes, t: State, groups: set<nat>)
    requires Sound(h, t) && Local(h, t, groups)
    ensures |set slot | slot in t.vvNew :: slot.bucket| <= 64 * |groups|
    ensures |t.vvNew| <= 4096 * |groups|
  {
    hide SourceBuckets, IdsOk, AddrOk, RandomOk, TriedSlotsOk, RefsOk, CountsOk, SettledBut, CollisionsOk;
    var buckets := SourceBuckets(h, t.nKey, groups);
    SourceBucketsCount(h, t.nKey, groups);
    CardinalityLe(set slot | slot in t.vvNew :: slot.bucket, buckets);
    NewSlotsSmall(h, t);
    SlotsOfBuckets(t.vvNew.Keys, buckets);
    assert |t.vvNew| == |t.vvNew.Keys|;
  }

  lemma NewSlotsSmall(h: Hashes, t: State)
    requires Consistent(h, t)
    ensures forall slot :: slot in t.vvNew ==> slot.pos < 64
  {
    hide IdsOk, AddrOk, RandomOk, TriedSlotsOk, RefsOk, CountsOk, SettledBut;
  }
}
