/** Compact blocks: announcing a block by short ids, and putting it together again. */
module CompactBlocks {
  import opened Options

  /** A transaction by its witness hash. */
  datatype Tx = Tx(hash: nat, isNull: bool)

  datatype Prefilled = Prefilled(index: nat, tx: Tx)

  /** Short ids are 48 bits of a keyed hash; the key comes from the header and a nonce. */
  datatype HeaderAndShortTxIDs = HeaderAndShortTxIDs(
    headerIsNull: bool, shorttxids: seq<nat>, prefilledtxn: seq<Prefilled>, shortId: nat -> nat)

  const MAX_BLOCK_WEIGHT: nat := 1_000_000
  const MIN_SERIALIZABLE_TRANSACTION_WEIGHT: nat := 10
  const UINT16_MAX: nat := 0xffff

  type Slots = seq<Option<Tx>>

  function BlockTxCount(c: HeaderAndShortTxIDs): nat {
    |c.shorttxids| + |c.prefilledtxn|
  }

  // ----- Prefilled positions -----

  /** The place of prefilled transaction `i` in the block. */
  function Position(p: seq<Prefilled>, i: nat): (r: nat)
    requires i < |p|
    ensures i <= r
  {
    p[i].index + if i == 0 then 0 else Position(p, i - 1) + 1
  }

  predicate PlaceOk(c: HeaderAndShortTxIDs, i: nat)
    requires i < |c.prefilledtxn|
  {
    && !c.prefilledtxn[i].tx.isNull
    && Position(c.prefilledtxn, i) <= UINT16_MAX && Position(c.prefilledtxn, i) <= |c.shorttxids| + i
  }

  predicate WellFormed(c: HeaderAndShortTxIDs) {
    && !c.headerIsNull && BlockTxCount(c) > 0
    && BlockTxCount(c) <= MAX_BLOCK_WEIGHT / MIN_SERIALIZABLE_TRANSACTION_WEIGHT
    && forall i :: 0 <= i < |c.prefilledtxn| ==> PlaceOk(c, i)
  }

  /** The slots once `n` transactions are prefilled. */
  function Prefill(c: HeaderAndShortTxIDs, n: nat): (r: Slots)
    requires n <= |c.prefilledtxn| && forall i :: 0 <= i < n ==> PlaceOk(c, i)
    ensures |r| == BlockTxCount(c)
  {
    if n == 0 then seq(BlockTxCount(c), _ => None)
    else
      assert PlaceOk(c, n - 1);
      Prefill(c, n - 1)[Position(c.prefilledtxn, n - 1) := Some(c.prefilledtxn[n - 1].tx)]
  }

  // ----- Open slots -----

  /** The positions below `n` still open, in order. */
  function Open(s: Slots, n: nat): (r: seq<nat>)
    requires n <= |s|
  {
    if n == 0 then [] else Open(s, n - 1) + if s[n - 1].None? then [n - 1] else []
  }

  lemma {:induction false} OpenAre(s: Slots, n: nat)
    requires n <= |s|
    ensures |Open(s, n)| <= n
    ensures forall k :: 0 <= k < |Open(s, n)| ==> Open(s, n)[k] < n && s[Open(s, n)[k]].None?
    ensures forall k, l :: 0 <= k < l < |Open(s, n)| ==> Open(s, n)[k] < Open(s, n)[l]
    ensures forall p :: 0 <= p < n && s[p].None? ==> p in Open(s, n)
  {
    if n > 0 {
      OpenAre(s, n - 1);
    }
  }

  lemma {:induction false} OpenPrefix(s: Slots, m: nat, n: nat)
    requires m <= n <= |s|
    ensures Open(s, m) <= Open(s, n)
    decreases n
  {
    if m < n {
      OpenPrefix(s, m, n - 1);
    }
  }

  lemma {:induction false} OpenFill(s: Slots, p: nat, tx: Tx, n: nat)
    requires p < |s| && s[p].None? && n <= |s|
    ensures |Open(s[p := Some(tx)], n)| == |Open(s, n)| - if p < n then 1 else 0
  {
    if n > 0 {
      OpenFill(s, p, tx, n - 1);
    }
  }

  lemma {:induction false} OpenAll(s: Slots, n: nat)
    requires n <= |s| && forall i :: 0 <= i < |s| ==> s[i].None?
    ensures |Open(s, n)| == n
  {
    if n > 0 {
      OpenAll(s, n - 1);
    }
  }

  /** Prefilling leaves exactly one open slot for each short id. */
  lemma {:induction false} OneSlotEach(c: HeaderAndShortTxIDs, n: nat)
    requires n <= |c.prefilledtxn| && forall i :: 0 <= i < n ==> PlaceOk(c, i)
    ensures |Open(Prefill(c, n), BlockTxCount(c))| == BlockTxCount(c) - n
    ensures forall p :: 0 <= p < BlockTxCount(c) && (n == 0 || p > Position(c.prefilledtxn, n - 1)) ==>
              Prefill(c, n)[p].None?
  {
    if n == 0 {
      OpenAll(Prefill(c, 0), BlockTxCount(c));
    } else {
      assert PlaceOk(c, n - 1);
      OneSlotEach(c, n - 1);
      OpenFill(Prefill(c, n - 1), Position(c.prefilledtxn, n - 1), c.prefilledtxn[n - 1].tx, BlockTxCount(c));
    }
  }

  // ----- Where slots get their transactions from -----

  /** Slots filled since prefilling. */
  function Found(base: Slots, s: Slots, n: nat): nat
    requires n <= |base| == |s|
  {
    if n == 0 then 0 else Found(base, s, n - 1) + if base[n - 1].None? && s[n - 1].Some? then 1 else 0
  }

  lemma {:induction false} FoundUpdate(base: Slots, s: Slots, p: nat, x: Option<Tx>, n: nat)
    requires n <= |base| == |s| && p < |s| && base[p].None?
    ensures Found(base, s[p := x], n)
              == Found(base, s, n) + if p < n then (if x.Some? then 1 else 0) - (if s[p].Some? then 1 else 0) else 0
  {
    if n > 0 {
      FoundUpdate(base, s, p, x, n - 1);
    }
  }

  lemma {:induction false} FoundNone(base: Slots, n: nat)
    requires n <= |base|
    ensures Found(base, base, n) == 0
  {
    if n > 0 {
      FoundNone(base, n - 1);
    }
  }

  type Pool = seq<(nat, Tx)>

  /** Prefilled slots are untouched; any other filled slot holds a pool transaction with the slot's short id. */
  ghost predicate Sourced(c: HeaderAndShortTxIDs, base: Slots, s: Slots, pool: Pool) {
    && |s| == |base|
    && (forall i :: 0 <= i < |s| && base[i].Some? ==> s[i] == base[i])
    && (forall k :: 0 <= k < |Open(base, |base|)| && k < |c.shorttxids| ==> SourcedAt(c, base, s, pool, k))
  }

  ghost predicate SourcedAt(c: HeaderAndShortTxIDs, base: Slots, s: Slots, pool: Pool, k: nat)
    requires |s| == |base| && k < |Open(base, |base|)| && k < |c.shorttxids|
  {
    var p := Open(base, |base|)[k];
    p < |s| && (s[p].Some? ==>
      exists j :: 0 <= j < |pool| && c.shortId(pool[j].0) == c.shorttxids[k] && s[p].value == pool[j].1)
  }

  /** The block a compact block stands for. */
  ghost predicate Describes(c: HeaderAndShortTxIDs, vtx: seq<Tx>) {
    && WellFormed(c) && |vtx| == BlockTxCount(c)
    && (forall i :: 0 <= i < |c.prefilledtxn| ==>
         Position(c.prefilledtxn, i) < |vtx| && vtx[Position(c.prefilledtxn, i)] == c.prefilledtxn[i].tx)
    && var open := Open(Prefill(c, |c.prefilledtxn|), |vtx|);
       |open| == |c.shorttxids| && forall k :: 0 <= k < |open| ==>
         open[k] < |vtx| && c.shortId(vtx[open[k]].hash) == c.shorttxids[k]
  }

  /** Equal short ids mean equal transactions. */
  ghost predicate NoCollision(c: HeaderAndShortTxIDs, vtx: seq<Tx>, pool: Pool) {
    forall i, j :: 0 <= i < |vtx| && 0 <= j < |pool| && c.shortId(vtx[i].hash) == c.shortId(pool[j].0) ==>
      vtx[i] == pool[j].1
  }

  ghost predicate Right(vtx: seq<Tx>, s: Slots) {
    |s| == |vtx| && forall i :: 0 <= i < |s| && s[i].Some? ==> s[i].value == vtx[i]
  }

  /** Without collisions every filled slot holds the block's own transaction. */
  lemma SourcedIsRight(c: HeaderAndShortTxIDs, vtx: seq<Tx>, s: Slots, pool: Pool)
    requires Describes(c, vtx) && NoCollision(c, vtx, pool) && Sourced(c, Prefill(c, |c.prefilledtxn|), s, pool)
    ensures Right(vtx, s)
  {
    hide Position;
    var base := Prefill(c, |c.prefilledtxn|);
    OpenAre(base, |base|);
    forall i | 0 <= i < |s| && s[i].Some?
      ensures s[i].value == vtx[i]
    {
      if base[i].Some? {
        PrefilledFrom(c, |c.prefilledtxn|, i);
      } else {
        var open := Open(base, |base|);
        var k :| 0 <= k < |open| && open[k] == i;
        assert SourcedAt(c, base, s, pool, k);
      }
    }
  }

  lemma {:induction false} PrefilledFrom(c: HeaderAndShortTxIDs, n: nat, p: nat)
    requires n <= |c.prefilledtxn| && (forall i :: 0 <= i < n ==> PlaceOk(c, i)) && p < BlockTxCount(c)
    requires Prefill(c, n)[p].Some?
    ensures exists i :: 0 <= i < n && Position(c.prefilledtxn, i) == p && Prefill(c, n)[p] == Some(c.prefilledtxn[i].tx)
  {
    if n > 0 && p != Position(c.prefilledtxn, n - 1) {
      PrefilledFrom(c, n - 1, p);
    }
  }

  // ----- Announcing a block -----

  /** The short ids of a block: of everything but the coinbase, in order. */
  function ShortIds(vtx: seq<Tx>, shortId: nat -> nat): (r: seq<nat>)
    requires vtx != []
    ensures |r| == |vtx| - 1 && forall i :: 0 <= i < |r| ==> r[i] == shortId(vtx[i + 1].hash)
  {
    if |vtx| == 1 then [] else ShortIds(vtx[..|vtx| - 1], shortId) + [shortId(vtx[|vtx| - 1].hash)]
  }

  /** The coinbase is sent along, every other transaction by its short id. */
  method Announce(vtx: seq<Tx>, shortId: nat -> nat) returns (c: HeaderAndShortTxIDs)
    requires vtx != []
    ensures c.prefilledtxn == [Prefilled(0, vtx[0])] && c.shorttxids == ShortIds(vtx, shortId)
    ensures !c.headerIsNull && c.shortId == shortId
    ensures !vtx[0].isNull && |vtx| <= MAX_BLOCK_WEIGHT / MIN_SERIALIZABLE_TRANSACTION_WEIGHT ==> Describes(c, vtx)
  {
    var ids: seq<nat> := [];
    for i := 1 to |vtx|
      invariant |ids| == i - 1 && forall k :: 0 <= k < i - 1 ==> ids[k] == shortId(vtx[k + 1].hash)
    {
      ids := ids + [shortId(vtx[i].hash)];
    }
    c := HeaderAndShortTxIDs(false, ids, [Prefilled(0, vtx[0])], shortId);
    if !vtx[0].isNull {
      assert PlaceOk(c, 0);
      OneSlotEach(c, 1);
      AfterFirst(Prefill(c, 1), |vtx|);
    }
  }

  lemma {:induction false} AfterFirst(s: Slots, n: nat)
    requires 1 <= n <= |s| && s[0].Some? && forall i :: 1 <= i < |s| ==> s[i].None?
    ensures |Open(s, n)| == n - 1 && forall k :: 0 <= k < n - 1 ==> Open(s, n)[k] == k + 1
  {
    if n == 1 {
      assert Open(s, 0) == [];
    } else {
      AfterFirst(s, n - 1);
    }
  }

  // ----- Reconstruction -----

  datatype ReadStatus = ReadOk | ReadInvalid | ReadFailed | ReadCheckBlockFailed

  /** What the validity test of a completed block says. */
  datatype Checked = Passed | Mutated | Invalid

  function StatusOf(checked: Checked): ReadStatus {
    match checked
    case Passed => ReadOk
    case Mutated => ReadFailed
    case Invalid => ReadCheckBlockFailed
  }

  ghost predicate DistinctIds(ids: seq<nat>, n: nat)
    requires n <= |ids|
  {
    forall k, l :: 0 <= k < l < n ==> ids[k] != ids[l]
  }

  /** The last of the first `n` ids lands in a bucket that is then too full. */
  predicate FullAt(ids: seq<nat>, overfull: seq<nat> -> bool, n: nat)
    requires n <= |ids|
  {
    overfull(ids[..n])
  }

  ghost predicate Crowded(ids: seq<nat>, overfull: seq<nat> -> bool) {
    exists n :: 1 <= n <= |ids| && FullAt(ids, overfull, n)
  }

  const UINT64_MODULUS: nat := 0x1_0000_0000_0000_0000

  function Wrap64(x: int): nat { x % UINT64_MODULUS }

  lemma NoWrap(x: nat)
    requires x < UINT64_MODULUS
    ensures Wrap64(x) == x
  {
  }

  lemma WrapStep(x: int)
    ensures Wrap64(Wrap64(x) + 1) == Wrap64(x + 1) && Wrap64(Wrap64(x) - 1) == Wrap64(x - 1)
  {
  }

  /** Short ids to open slots, in order, once no id occurs twice. */
  ghost predicate Mapped(c: HeaderAndShortTxIDs, open: seq<nat>, ids: map<nat, nat>, n: nat)
    requires n <= |c.shorttxids| == |open|
  {
    && (forall k :: 0 <= k < n ==> c.shorttxids[k] in ids && ids[c.shorttxids[k]] == open[k])
    && (forall id :: id in ids ==> exists k :: 0 <= k < n && c.shorttxids[k] == id)
  }

  class PartiallyDownloadedBlock {
    var txn_available: Slots
    var prefilled_count: nat
    var mempool_count: nat
    /** Unsigned, and so wrapping when an extra transaction frees a slot that the mempool filled. */
    var extra_count: nat
    var headerIsNull: bool

    constructor ()
      ensures txn_available == [] && headerIsNull && prefilled_count == 0 && mempool_count == 0 && extra_count == 0
    {
      txn_available, prefilled_count, mempool_count, extra_count, headerIsNull := [], 0, 0, 0, true;
    }

    method PrefillSlots(c: HeaderAndShortTxIDs) returns (ok: bool)
      requires BlockTxCount(c) > 0
      modifies this
      ensures ok <==> forall i :: 0 <= i < |c.prefilledtxn| ==> PlaceOk(c, i)
      ensures ok ==> txn_available == Prefill(c, |c.prefilledtxn|) && prefilled_count == |c.prefilledtxn|
      ensures mempool_count == old(mempool_count) && extra_count == old(extra_count)
    {
      hide Open;
      txn_available := seq(BlockTxCount(c), _ => None);
      headerIsNull := false;
      var lastprefilledindex := -1;
      for i := 0 to |c.prefilledtxn|
        invariant forall j :: 0 <= j < i ==> PlaceOk(c, j)
        invariant txn_available == Prefill(c, i) && mempool_count == old(mempool_count)
        invariant extra_count == old(extra_count)
        invariant lastprefilledindex == if i == 0 then -1 else Position(c.prefilledtxn, i - 1)
      {
        if c.prefilledtxn[i].tx.isNull {
          assert !PlaceOk(c, i);
          return false;
        }
        lastprefilledindex := lastprefilledindex + c.prefilledtxn[i].index + 1;
        if lastprefilledindex > UINT16_MAX {
          assert !PlaceOk(c, i);
          return false;
        }
        if lastprefilledindex > |c.shorttxids| + i {
          assert !PlaceOk(c, i);
          return false;
        }
        assert PlaceOk(c, i);
        txn_available := txn_available[lastprefilledindex := Some(c.prefilledtxn[i].tx)];
      }
      prefilled_count := |c.prefilledtxn|;
      ok := true;
    }

    /** Gives each short id the next open slot; fails exactly for a repeated id or an overfull bucket. */
    method MapShortIds(c: HeaderAndShortTxIDs, overfull: seq<nat> -> bool) returns (ok: bool, ids: map<nat, nat>)
      requires |txn_available| == BlockTxCount(c) && |Open(txn_available, |txn_available|)| == |c.shorttxids|
      ensures ok <==> DistinctIds(c.shorttxids, |c.shorttxids|) && !Crowded(c.shorttxids, overfull)
      ensures ok ==> Mapped(c, Open(txn_available, |txn_available|), ids, |c.shorttxids|) && |ids| == |c.shorttxids|
    {
      hide Mapped, DistinctIds, Numbered, FullAt;
      ghost var total := |txn_available|;
      ghost var open := Open(txn_available, total);
      ids := map[];
      MappedNone(c, open);
      var index_offset := 0;
      for i := 0 to |c.shorttxids|
        invariant i + index_offset <= total && |Open(txn_available, i + index_offset)| == i
        invariant Numbered(c, open, ids, i) && forall n :: 1 <= n <= i ==> !FullAt(c.shorttxids, overfull, n)
      {
        while txn_available[i + index_offset].Some?
          invariant i + index_offset < total && |Open(txn_available, i + index_offset)| == i
          decreases total - (i + index_offset)
        {
          NotAtEnd(txn_available, i + index_offset + 1);
          index_offset := index_offset + 1;
        }
        ghost var before := ids;
        OpenPrefix(txn_available, i + index_offset + 1, total);
        ids := ids[c.shorttxids[i] := i + index_offset];
        MappedNext(c, open, before, ids, i);
        if FullAt(c.shorttxids, overfull, i + 1) {
          return false, ids;
        }
      }
      NumberedIs(c, open, ids, |c.shorttxids|);
      ok := |ids| == |c.shorttxids|;
    }

    /** A mempool transaction matches the slot at `p`. */
    method MatchMempool(p: nat, tx: Tx, have: seq<bool>) returns (have_txn: seq<bool>)
      requires p < |txn_available| == |have|
      requires (!have[p] ==> txn_available[p].None?) && (txn_available[p].Some? ==> mempool_count > 0)
      modifies this`txn_available, this`mempool_count
      ensures txn_available == old(txn_available)[p := Outcome(old(txn_available)[p], have[p], tx, true)]
      ensures have_txn == have[p := true]
      ensures var before, after := old(txn_available)[p], txn_available[p];
              mempool_count == old(mempool_count) + (if after.Some? then 1 else 0) - (if before.Some? then 1 else 0)
    {
      have_txn := have;
      if !have_txn[p] {
        txn_available := txn_available[p := Some(tx)];
        have_txn := have_txn[p := true];
        mempool_count := mempool_count + 1;
      } else if txn_available[p].Some? {
        txn_available := txn_available[p := None];
        mempool_count := mempool_count - 1;
      }
    }

    /**
      Looks the short ids up in the mempool: a slot gets the one transaction that matches it and stays open when none
      or two do. The first `looked` entries are looked at: all, unless every slot is filled before.
     */
    method ScanMempool(c: HeaderAndShortTxIDs, ids: map<nat, nat>, vTxHashes: Pool, ghost base: Slots)
      returns (have_txn: seq<bool>, ghost looked: nat)
      requires txn_available == base && mempool_count == 0
      requires |Open(base, |base|)| == |c.shorttxids| == |ids| && Mapped(c, Open(base, |base|), ids, |c.shorttxids|)
      modifies this`txn_available, this`mempool_count
      ensures StopsAt(c, vTxHashes, |vTxHashes|, 0, looked) && (looked < |vTxHashes| ==> mempool_count == |ids|)
      ensures Scanning(c, base, txn_available, have_txn, mempool_count, vTxHashes, |vTxHashes|, looked)
    {
      hide Scanning, Mapped, Open, Full, Outcome;
      ghost var m := |vTxHashes|;
      have_txn := seq(|txn_available|, _ => false);
      ScanStart(c, base, vTxHashes, m);
      looked := 0;
      for i := 0 to |vTxHashes|
        invariant looked == i && forall n :: 0 < n <= i ==> !Full(c, vTxHashes, m, n)
        invariant Scanning(c, base, txn_available, have_txn, mempool_count, vTxHashes, m, i)
      {
        var shortid := c.shortId(vTxHashes[i].0);
        if shortid in ids {
          var p := ids[shortid];
          ghost var k := SlotOf(c, base, ids, shortid);
          ScanShape(c, base, txn_available, have_txn, mempool_count, vTxHashes, m, i, k);
          ScanPut(c, base, txn_available, have_txn, mempool_count, vTxHashes, m, i, k);
          have_txn := MatchMempool(p, vTxHashes[i].1, have_txn);
        } else {
          NotAsked(c, Open(base, |base|), ids, vTxHashes, i);
          ScanPass(c, base, txn_available, have_txn, mempool_count, vTxHashes, m, i);
        }
        looked := i + 1;
        FullCount(c, base, txn_available, have_txn, mempool_count, vTxHashes, m, i + 1);
        if mempool_count == |ids| {
          break;
        }
      }
    }

    /** An extra transaction matches the slot at `p`. */
    method MatchExtra(p: nat, tx: Tx, have: seq<bool>) returns (have_txn: seq<bool>)
      requires p < |txn_available| == |have|
      requires (!have[p] ==> txn_available[p].None?) && (txn_available[p].Some? ==> mempool_count > 0)
      modifies this`txn_available, this`mempool_count, this`extra_count
      ensures txn_available == old(txn_available)[p := Outcome(old(txn_available)[p], have[p], tx, false)]
      ensures have_txn == have[p := true]
      ensures var before, after := old(txn_available)[p], txn_available[p];
              mempool_count == old(mempool_count) + (if after.Some? then 1 else 0) - (if before.Some? then 1 else 0)
      ensures mempool_count == old(mempool_count) ==> extra_count == old(extra_count)
      ensures mempool_count != old(mempool_count) ==>
                extra_count == Wrap64(old(extra_count) + mempool_count - old(mempool_count))
    {
      hide Wrap64;
      have_txn := have;
      if !have_txn[p] {
        txn_available := txn_available[p := Some(tx)];
        have_txn := have_txn[p := true];
        mempool_count := mempool_count + 1;
        extra_count := Wrap64(extra_count + 1);
      } else if txn_available[p].Some? && txn_available[p].value.hash != tx.hash {
        txn_available := txn_available[p := None];
        mempool_count := mempool_count - 1;
        extra_count := Wrap64(extra_count - 1);
      }
    }

    /**
      The same for the extra transactions, where a match by the same transaction is no second match. In `pool` the
      first `m` entries are those looked at in the mempool.
     */
    method ScanExtra(c: HeaderAndShortTxIDs, ids: map<nat, nat>, extra_txn: Pool, have: seq<bool>, ghost base: Slots,
                     ghost pool: Pool, ghost m: nat)
      returns (ghost have_txn: seq<bool>, ghost looked: nat)
      requires m <= |pool| && pool[m..] == extra_txn
      requires Scanning(c, base, txn_available, have, mempool_count, pool, m, m)
      requires |Open(base, |base|)| == |c.shorttxids| == |ids| && Mapped(c, Open(base, |base|), ids, |c.shorttxids|)
      requires extra_count < UINT64_MODULUS
      modifies this`txn_available, this`mempool_count, this`extra_count
      ensures extra_count == Wrap64(old(extra_count) + mempool_count - old(mempool_count))
      ensures StopsAt(c, pool, m, m, looked) && (looked < |pool| ==> mempool_count == |ids|)
      ensures Scanning(c, base, txn_available, have_txn, mempool_count, pool, m, looked)
    {
      hide Scanning, Mapped, Open, Wrap64, Full, Outcome;
      var marked := have;
      NoWrap(extra_count);
      looked := m;
      for i := 0 to |extra_txn|
        invariant looked == m + i && forall n :: m < n <= m + i ==> !Full(c, pool, m, n)
        invariant Scanning(c, base, txn_available, marked, mempool_count, pool, m, m + i)
        invariant extra_count == Wrap64(old(extra_count) + mempool_count - old(mempool_count))
      {
        var shortid := c.shortId(extra_txn[i].0);
        assert pool[m + i] == extra_txn[i];
        WrapStep(old(extra_count) + mempool_count - old(mempool_count));
        if shortid in ids {
          var p := ids[shortid];
          ghost var k := SlotOf(c, base, ids, shortid);
          ScanShape(c, base, txn_available, marked, mempool_count, pool, m, m + i, k);
          ScanPut(c, base, txn_available, marked, mempool_count, pool, m, m + i, k);
          marked := MatchExtra(p, extra_txn[i].1, marked);
        } else {
          NotAsked(c, Open(base, |base|), ids, pool, m + i);
          ScanPass(c, base, txn_available, marked, mempool_count, pool, m, m + i);
        }
        looked := m + i + 1;
        FullCount(c, base, txn_available, marked, mempool_count, pool, m, looked);
        if mempool_count == |ids| {
          break;
        }
      }
      have_txn := marked;
    }

    /**
      Fills what the compact block, the mempool and the extra transactions give. The first `m` entries of the mempool
      are looked at and then extra ones until `n` entries have been: both stop early only where every slot is filled.
     */
    method InitData(c: HeaderAndShortTxIDs, vTxHashes: Pool, extra_txn: Pool, overfull: seq<nat> -> bool)
      returns (status: ReadStatus, ghost m: nat, ghost n: nat)
      requires headerIsNull && txn_available == [] && mempool_count == 0 && extra_count == 0
      requires BlockTxCount(c) <= 0xffff
      modifies this
      ensures status == ReadInvalid <==> !WellFormed(c)
      ensures WellFormed(c) ==> (status == ReadFailed <==>
                                   Crowded(c.shorttxids, overfull) || !DistinctIds(c.shorttxids, |c.shorttxids|))
      ensures status != ReadCheckBlockFailed
      ensures status == ReadOk ==>
                && !headerIsNull && prefilled_count == |c.prefilledtxn|
                && Sourced(c, Prefill(c, |c.prefilledtxn|), txn_available, vTxHashes + extra_txn)
                && mempool_count == Found(Prefill(c, |c.prefilledtxn|), txn_available, BlockTxCount(c))
                && Exhausted(c, Prefill(c, |c.prefilledtxn|), txn_available, vTxHashes + extra_txn)
                && StopsAt(c, vTxHashes, |vTxHashes|, 0, m) && StopsAt(c, vTxHashes[..m] + extra_txn, m, m, n)
                && Looked(c, Prefill(c, |c.prefilledtxn|), txn_available, vTxHashes[..m] + extra_txn, m, n)
    {
      hide Open, Sourced, Mapped, Scanning, Exhausted, Position, PlaceOk, DistinctIds, Crowded, Looked, Full, Found;
      m, n := 0, 0;
      if c.headerIsNull || (c.shorttxids == [] && c.prefilledtxn == []) {
        return ReadInvalid, m, n;
      }
      if |c.shorttxids| + |c.prefilledtxn| > MAX_BLOCK_WEIGHT / MIN_SERIALIZABLE_TRANSACTION_WEIGHT {
        return ReadInvalid, m, n;
      }
      var ok := PrefillSlots(c);
      if !ok {
        return ReadInvalid, m, n;
      }
      headerIsNull := false;
      ghost var base := txn_available;
      OneSlotEach(c, |c.prefilledtxn|);
      var ids;
      ok, ids := MapShortIds(c, overfull);
      if !ok {
        return ReadFailed, m, n;
      }
      var have;
      have, m := ScanMempool(c, ids, vTxHashes, base);
      ghost var pool := vTxHashes[..m] + extra_txn;
      assert pool[m..] == extra_txn;
      ScanOn(c, base, txn_available, have, mempool_count, vTxHashes, pool, m);
      ghost var have_txn;
      have_txn, n := ScanExtra(c, ids, extra_txn, have, base, pool, m);
      ScanEnd(c, base, txn_available, have_txn, mempool_count, vTxHashes, extra_txn, m, n);
      status := ReadOk;
    }

    /** Puts the missing transactions into the open slots, in order, and tests the result. */
    method FillBlock(vtx_missing: seq<Tx>, check: seq<Tx> -> Checked) returns (status: ReadStatus, vtx: seq<Tx>)
      requires !headerIsNull
      modifies this
      ensures var open := Open(old(txn_available), |old(txn_available)|);
              // With too few transactions the slots are not given up.
              && (if |vtx_missing| < |open| then !headerIsNull else headerIsNull && txn_available == [])
              && if |vtx_missing| != |open| then status == ReadInvalid
                 else vtx == Completed(old(txn_available), vtx_missing) && status == StatusOf(check(vtx))
    {
      ghost var s := txn_available;
      ghost var total := |s|;
      vtx := [];
      var tx_missing_offset := 0;
      for i := 0 to |txn_available|
        invariant !headerIsNull && |txn_available| == total && |vtx| == i
        invariant forall k :: i <= k < total ==> txn_available[k] == s[k]
        invariant tx_missing_offset == |Open(s, i)| <= |vtx_missing| && vtx == CompletedUpTo(s, vtx_missing, i)
      {
        OpenPrefix(s, i + 1, total);
        if txn_available[i].None? {
          if |vtx_missing| <= tx_missing_offset {
            return ReadInvalid, vtx;
          }
          vtx := vtx + [vtx_missing[tx_missing_offset]];
          tx_missing_offset := tx_missing_offset + 1;
        } else {
          vtx := vtx + [txn_available[i].value];
          txn_available := txn_available[i := None];
        }
      }
      headerIsNull := true;
      txn_available := [];
      status := if |vtx_missing| != tx_missing_offset then ReadInvalid else StatusOf(check(vtx));
    }
  }

  function CompletedUpTo(s: Slots, missing: seq<Tx>, n: nat): (r: seq<Tx>)
    requires n <= |s| && |Open(s, n)| <= |missing|
    ensures |r| == n
  {
    if n == 0 then [] else
      CompletedUpTo(s, missing, n - 1) + [if s[n - 1].Some? then s[n - 1].value else missing[|Open(s, n - 1)|]]
  }

  /** Every open slot, in order, takes the next of the missing transactions. */
  function Completed(s: Slots, missing: seq<Tx>): seq<Tx>
    requires |Open(s, |s|)| <= |missing|
  {
    CompletedUpTo(s, missing, |s|)
  }

  /** The missing transactions are those of the block, for the slots below `n`. */
  ghost predicate Supplies(vtx: seq<Tx>, s: Slots, missing: seq<Tx>, n: nat)
    requires n <= |s|
  {
    var open := Open(s, n);
    |open| <= |missing| && forall k :: 0 <= k < |open| ==> open[k] < |vtx| && missing[k] == vtx[open[k]]
  }

  /** The block's own transactions in the open slots complete the block. */
  lemma {:induction false} CompletedIsBlock(vtx: seq<Tx>, s: Slots, missing: seq<Tx>, n: nat)
    requires Right(vtx, s) && n <= |s| && Supplies(vtx, s, missing, n)
    ensures CompletedUpTo(s, missing, n) == vtx[..n]
  {
    if n > 0 {
      OpenPrefix(s, n - 1, n);
      CompletedIsBlock(vtx, s, missing, n - 1);
      assert vtx[..n] == vtx[..n - 1] + [vtx[n - 1]];
      if s[n - 1].None? {
        var k := |Open(s, n - 1)|;
        assert Open(s, n)[k] == n - 1;
      }
    }
  }

  /** An entry matches no slot when its short id is not in the map. */
  lemma NotAsked(c: HeaderAndShortTxIDs, open: seq<nat>, ids: map<nat, nat>, pool: Pool, n: nat)
    requires |open| == |c.shorttxids| && Mapped(c, open, ids, |c.shorttxids|) && n < |pool|
    requires c.shortId(pool[n].0) !in ids
    ensures forall k :: 0 <= k < |c.shorttxids| ==> !Matches(c, pool, n, k)
  {
  }

  /** Where fewer slots are open below a point than in all, the point is not the end. */
  lemma NotAtEnd(s: Slots, n: nat)
    requires n <= |s|
    ensures |Open(s, n)| < |Open(s, |s|)| ==> n < |s|
  {
  }

  /** After `n` short ids: the map is theirs, and as large as that exactly if they are distinct. */
  ghost predicate Numbered(c: HeaderAndShortTxIDs, open: seq<nat>, ids: map<nat, nat>, n: nat)
    requires n <= |c.shorttxids| == |open|
  {
    && |ids| <= n && (|ids| == n <==> DistinctIds(c.shorttxids, n)) && (|ids| == n ==> Mapped(c, open, ids, n))
    && (forall k :: 0 <= k < n ==> c.shorttxids[k] in ids)
    && (forall id :: id in ids ==> OneOf(c.shorttxids, n, id))
  }

  ghost predicate OneOf(ids: seq<nat>, n: nat, id: nat)
    requires n <= |ids|
  {
    exists k :: 0 <= k < n && ids[k] == id
  }

  lemma NumberedIs(c: HeaderAndShortTxIDs, open: seq<nat>, ids: map<nat, nat>, n: nat)
    requires n <= |c.shorttxids| == |open| && Numbered(c, open, ids, n)
    ensures |ids| == n <==> DistinctIds(c.shorttxids, n)
    ensures |ids| == n ==> Mapped(c, open, ids, n)
  {
    hide Mapped, DistinctIds;
  }

  lemma MappedNone(c: HeaderAndShortTxIDs, open: seq<nat>)
    requires |c.shorttxids| == |open|
    ensures Numbered(c, open, map[], 0)
  {
  }

  lemma MappedNext(c: HeaderAndShortTxIDs, open: seq<nat>, before: map<nat, nat>, after: map<nat, nat>, i: nat)
    requires i < |c.shorttxids| == |open| && Numbered(c, open, before, i)
    requires after == before[c.shorttxids[i] := open[i]]
    ensures Numbered(c, open, after, i + 1)
  {
    hide Mapped, DistinctIds, OneOf;
    var id := c.shorttxids[i];
    forall x | x in after
      ensures OneOf(c.shorttxids, i + 1, x)
    {
      OneOfMore(c.shorttxids, i, x);
    }
    PutSize(before, id, open[i]);
    if id in before {
      Repeated(c.shorttxids, i);
    } else {
      NextDistinct(c.shorttxids, i);
      if |before| == i {
        MappedFresh(c, open, before, i);
      }
    }
  }

  lemma PutSize(ids: map<nat, nat>, id: nat, v: nat)
    ensures |ids[id := v]| == |ids| + if id in ids then 0 else 1
  {
    assert ids[id := v].Keys == ids.Keys + {id};
  }

  lemma OneOfMore(ids: seq<nat>, n: nat, id: nat)
    requires n < |ids| && (id == ids[n] || OneOf(ids, n, id))
    ensures OneOf(ids, n + 1, id)
  {
  }

  lemma Repeated(ids: seq<nat>, n: nat)
    requires n < |ids| && OneOf(ids, n, ids[n])
    ensures !DistinctIds(ids, n + 1)
  {
  }

  lemma NextDistinct(ids: seq<nat>, n: nat)
    requires n < |ids| && forall k :: 0 <= k < n ==> ids[k] != ids[n]
    ensures DistinctIds(ids, n) <==> DistinctIds(ids, n + 1)
  {
  }

  lemma MappedFresh(c: HeaderAndShortTxIDs, open: seq<nat>, ids: map<nat, nat>, i: nat)
    requires i < |c.shorttxids| == |open| && Mapped(c, open, ids, i) && c.shorttxids[i] !in ids
    ensures Mapped(c, open, ids[c.shorttxids[i] := open[i]], i + 1)
  {
    var after := ids[c.shorttxids[i] := open[i]];
    forall x | x in after
      ensures exists k :: 0 <= k < i + 1 && c.shorttxids[k] == x
    {
      if x in ids {
        var k :| 0 <= k < i && c.shorttxids[k] == x;
        assert 0 <= k < i + 1;
      }
    }
  }

  // ----- Looking the short ids up -----

  ghost predicate Matches(c: HeaderAndShortTxIDs, pool: Pool, j: nat, k: nat) {
    j < |pool| && k < |c.shorttxids| && c.shortId(pool[j].0) == c.shorttxids[k]
  }

  ghost predicate MatchedOnce(c: HeaderAndShortTxIDs, pool: Pool, n: nat, k: nat) {
    exists j :: 0 <= j < n && Matches(c, pool, j, k)
  }

  ghost predicate MatchedTwice(c: HeaderAndShortTxIDs, pool: Pool, n: nat, k: nat) {
    exists i, j :: 0 <= i < j < n && Matches(c, pool, i, k) && Matches(c, pool, j, k)
  }

  /** Two matches that free a slot: any two among the first `m` entries, or two with different transactions. */
  ghost predicate Clash(c: HeaderAndShortTxIDs, pool: Pool, m: nat, n: nat, k: nat) {
    exists i, j :: 0 <= i < j < n && ClashAt(c, pool, m, k, i, j)
  }

  ghost predicate ClashAt(c: HeaderAndShortTxIDs, pool: Pool, m: nat, k: nat, i: nat, j: nat) {
    && Matches(c, pool, i, k) && Matches(c, pool, j, k) && (j < m || pool[i].1.hash != pool[j].1.hash)
  }

  /** Entry `j` is the first that matches slot `k`. */
  ghost predicate First(c: HeaderAndShortTxIDs, pool: Pool, k: nat, j: nat) {
    Matches(c, pool, j, k) && forall i :: 0 <= i < j ==> !Matches(c, pool, i, k)
  }

  /** What slot `k` holds after `n` entries: the first match, unless there is none or two matches clash. */
  ghost predicate Settled(c: HeaderAndShortTxIDs, pool: Pool, m: nat, n: nat, k: nat, slot: Option<Tx>) {
    && (slot.None? <==> !MatchedOnce(c, pool, n, k) || Clash(c, pool, m, n, k))
    && (slot.Some? ==> exists j :: 0 <= j < n && First(c, pool, k, j) && slot.value == pool[j].1)
  }

  /** Every slot for a short id is settled, and the prefilled ones are untouched. */
  ghost predicate Looked(c: HeaderAndShortTxIDs, base: Slots, s: Slots, pool: Pool, m: nat, n: nat) {
    var open := Open(base, |base|);
    && |s| == |base| && |open| == |c.shorttxids| && n <= |pool|
    && (forall i :: 0 <= i < |s| && base[i].Some? ==> s[i] == base[i])
    && (forall k :: 0 <= k < |open| ==> open[k] < |s| && Settled(c, pool, m, n, k, s[open[k]]))
  }

  /** After `n` entries every slot is filled. */
  ghost predicate Full(c: HeaderAndShortTxIDs, pool: Pool, m: nat, n: nat) {
    forall k :: 0 <= k < |c.shorttxids| ==> MatchedOnce(c, pool, n, k) && !Clash(c, pool, m, n, k)
  }

  /** Looking on from entry `start` ends after `n`: the first time that all is filled, or with the last entry. */
  ghost predicate StopsAt(c: HeaderAndShortTxIDs, pool: Pool, m: nat, start: nat, n: nat) {
    && start <= n <= |pool| && (forall i :: start < i < n ==> !Full(c, pool, m, i))
    && (n < |pool| ==> start < n && Full(c, pool, m, n))
  }

  /** A slot is marked once its short id has been met. */
  ghost predicate AllMarked(c: HeaderAndShortTxIDs, base: Slots, have: seq<bool>, pool: Pool, n: nat) {
    var open := Open(base, |base|);
    && |have| == |base|
    && forall k :: 0 <= k < |open| ==> open[k] < |have| && (have[open[k]] <==> MatchedOnce(c, pool, n, k))
  }

  /** What holds while the mempool and the extra transactions are looked through, `n` of them so far. */
  ghost predicate Scanning(c: HeaderAndShortTxIDs, base: Slots, s: Slots, have: seq<bool>, count: int, pool: Pool,
                           m: nat, n: nat) {
    Looked(c, base, s, pool, m, n) && AllMarked(c, base, have, pool, n) && count == Found(base, s, |s|)
  }

  /** A slot stays open only if nothing matches it or two entries do. */
  ghost predicate Exhausted(c: HeaderAndShortTxIDs, base: Slots, s: Slots, pool: Pool) {
    var open := Open(base, |base|);
    && |s| == |base|
    && forall k :: 0 <= k < |open| ==>
         open[k] < |s| && (s[open[k]].None? ==> !MatchedOnce(c, pool, |pool|, k) || MatchedTwice(c, pool, |pool|, k))
  }

  lemma ScanStart(c: HeaderAndShortTxIDs, base: Slots, pool: Pool, m: nat)
    requires |Open(base, |base|)| == |c.shorttxids|
    ensures Scanning(c, base, base, seq(|base|, _ => false), 0, pool, m, 0)
  {
    FoundNone(base, |base|);
    OpenAre(base, |base|);
    hide Open, Found, ClashAt, First;
  }

  /** The slot of a short id that is asked for. */
  lemma SlotOf(c: HeaderAndShortTxIDs, base: Slots, ids: map<nat, nat>, id: nat) returns (k: nat)
    requires |Open(base, |base|)| == |c.shorttxids| && Mapped(c, Open(base, |base|), ids, |c.shorttxids|) && id in ids
    ensures k < |c.shorttxids| && c.shorttxids[k] == id && ids[id] == Open(base, |base|)[k] < |base|
    ensures base[ids[id]].None?
    ensures forall l :: 0 <= l < |c.shorttxids| && c.shorttxids[l] == id ==> l == k
  {
    OpenAre(base, |base|);
    hide Open;
    k :| 0 <= k < |c.shorttxids| && c.shorttxids[k] == id;
  }

  lemma ScanShape(c: HeaderAndShortTxIDs, base: Slots, s: Slots, have: seq<bool>, count: int, pool: Pool, m: nat,
                  n: nat, k: nat)
    requires Scanning(c, base, s, have, count, pool, m, n) && k < |c.shorttxids| && k < |Open(base, |base|)|
    ensures var p := Open(base, |base|)[k];
            p < |s| == |have| && (!have[p] ==> s[p].None?) && (s[p].Some? ==> count > 0)
  {
    OpenAre(base, |base|);
    hide Open, MatchedOnce, Clash, First;
    var p := Open(base, |base|)[k];
    assert Settled(c, pool, m, n, k, s[p]);
    if s[p].Some? {
      FoundUpdate(base, s, p, None, |s|);
    }
  }

  /** What a matching entry makes of a slot. */
  function Outcome(slot: Option<Tx>, have: bool, tx: Tx, inMempool: bool): Option<Tx> {
    if !have then Some(tx)
    else if inMempool || (slot.Some? && slot.value.hash != tx.hash) then None else slot
  }

  /** One entry that matches slot `k`. */
  lemma ScanPut(c: HeaderAndShortTxIDs, base: Slots, s: Slots, have: seq<bool>, count: int, pool: Pool, m: nat, n: nat,
                k: nat)
    requires Scanning(c, base, s, have, count, pool, m, n) && n < |pool| && Matches(c, pool, n, k)
    requires forall l :: 0 <= l < |c.shorttxids| && c.shorttxids[l] == c.shorttxids[k] ==> l == k
    requires k < |Open(base, |base|)| && Open(base, |base|)[k] < |s| == |have|
    ensures var p := Open(base, |base|)[k];
            var x := Outcome(s[p], have[p], pool[n].1, n < m);
            Scanning(c, base, s[p := x], have[p := true],
                     count + (if x.Some? then 1 else 0) - (if s[p].Some? then 1 else 0), pool, m, n + 1)
  {
    OpenAre(base, |base|);
    hide Open, Looked, Outcome, Matches, AllMarked;
    var p := Open(base, |base|)[k];
    var x := Outcome(s[p], have[p], pool[n].1, n < m);
    FoundUpdate(base, s, p, x, |s|);
    MarkedPut(c, base, have, pool, n, k);
    LookedPut(c, base, s, pool, m, n, k, have[p]);
  }

  lemma MarkedPut(c: HeaderAndShortTxIDs, base: Slots, have: seq<bool>, pool: Pool, n: nat, k: nat)
    requires AllMarked(c, base, have, pool, n) && Matches(c, pool, n, k) && |Open(base, |base|)| == |c.shorttxids|
    requires forall l :: 0 <= l < |c.shorttxids| && c.shorttxids[l] == c.shorttxids[k] ==> l == k
    ensures var p := Open(base, |base|)[k];
            && p < |have| && (have[p] <==> MatchedOnce(c, pool, n, k))
            && AllMarked(c, base, have[p := true], pool, n + 1)
  {
    OpenAre(base, |base|);
    hide Open, MatchedOnce;
    var open := Open(base, |base|);
    forall l | 0 <= l < |open|
      ensures have[open[k] := true][open[l]] <==> MatchedOnce(c, pool, n + 1, l)
    {
      MatchedNext(c, pool, n, l);
      if l != k {
        NotMatched(c, pool, n, k, l);
      }
    }
  }

  lemma LookedPut(c: HeaderAndShortTxIDs, base: Slots, s: Slots, pool: Pool, m: nat, n: nat, k: nat, have: bool)
    requires Looked(c, base, s, pool, m, n) && n < |pool| && Matches(c, pool, n, k)
    requires forall l :: 0 <= l < |c.shorttxids| && c.shorttxids[l] == c.shorttxids[k] ==> l == k
    requires have <==> MatchedOnce(c, pool, n, k)
    ensures var p := Open(base, |base|)[k];
            p < |s| && Looked(c, base, s[p := Outcome(s[p], have, pool[n].1, n < m)], pool, m, n + 1)
  {
    OpenAre(base, |base|);
    hide Open, Settled, Outcome, MatchedOnce;
    var open := Open(base, |base|);
    var p := open[k];
    var t := s[p := Outcome(s[p], have, pool[n].1, n < m)];
    forall l | 0 <= l < |open|
      ensures open[l] < |t| && Settled(c, pool, m, n + 1, l, t[open[l]])
    {
      if l == k {
        SettledMatch(c, pool, m, n, k, s[p], have);
      } else {
        NotMatched(c, pool, n, k, l);
        SettledPass(c, pool, m, n, l, s[open[l]]);
      }
    }
  }

  lemma NotMatched(c: HeaderAndShortTxIDs, pool: Pool, n: nat, k: nat, l: nat)
    requires Matches(c, pool, n, k) && k < |c.shorttxids| && l < |c.shorttxids| && c.shorttxids[l] != c.shorttxids[k]
    ensures !Matches(c, pool, n, l)
  {
  }

  lemma MatchedNext(c: HeaderAndShortTxIDs, pool: Pool, n: nat, k: nat)
    ensures MatchedOnce(c, pool, n + 1, k) <==> MatchedOnce(c, pool, n, k) || Matches(c, pool, n, k)
  {
    hide Matches;
  }

  lemma ClashNext(c: HeaderAndShortTxIDs, pool: Pool, m: nat, n: nat, k: nat)
    ensures Clash(c, pool, m, n + 1, k) <==> Clash(c, pool, m, n, k) || LastClash(c, pool, m, n, k)
  {
    hide ClashAt;
    if Clash(c, pool, m, n + 1, k) && !Clash(c, pool, m, n, k) {
      var i, j :| 0 <= i < j < n + 1 && ClashAt(c, pool, m, k, i, j);
      assert j == n;
    }
  }

  /** Entry `n` clashes with an earlier one. */
  ghost predicate LastClash(c: HeaderAndShortTxIDs, pool: Pool, m: nat, n: nat, k: nat) {
    exists i :: 0 <= i < n && ClashAt(c, pool, m, k, i, n)
  }

  lemma FirstOnly(c: HeaderAndShortTxIDs, pool: Pool, n: nat, k: nat)
    requires Matches(c, pool, n, k) && !MatchedOnce(c, pool, n, k)
    ensures First(c, pool, k, n)
  {
    hide Matches;
  }

  lemma SettledPass(c: HeaderAndShortTxIDs, pool: Pool, m: nat, n: nat, k: nat, slot: Option<Tx>)
    requires Settled(c, pool, m, n, k, slot) && !Matches(c, pool, n, k)
    ensures Settled(c, pool, m, n + 1, k, slot)
  {
    hide Clash, First;
    MatchedNext(c, pool, n, k);
    ClashNext(c, pool, m, n, k);
  }

  lemma SettledMatch(c: HeaderAndShortTxIDs, pool: Pool, m: nat, n: nat, k: nat, slot: Option<Tx>, have: bool)
    requires n < |pool| && Settled(c, pool, m, n, k, slot) && Matches(c, pool, n, k)
    requires have <==> MatchedOnce(c, pool, n, k)
    ensures Settled(c, pool, m, n + 1, k, Outcome(slot, have, pool[n].1, n < m))
  {
    hide Clash, ClashAt, First, Matches;
    MatchedNext(c, pool, n, k);
    ClashNext(c, pool, m, n, k);
    if !have {
      FirstOnly(c, pool, n, k);
      NoClash(c, pool, m, n, k);
    } else if slot.None? || n < m {
      LaterMatch(c, pool, m, n, k);
    } else {
      var j :| 0 <= j < n && First(c, pool, k, j) && slot.value == pool[j].1;
      ClashesWithFirst(c, pool, m, n, k, j);
    }
  }

  lemma NoClash(c: HeaderAndShortTxIDs, pool: Pool, m: nat, n: nat, k: nat)
    requires !MatchedOnce(c, pool, n, k)
    ensures !Clash(c, pool, m, n, k) && !LastClash(c, pool, m, n, k)
  {
    hide Matches;
  }

  lemma LaterMatch(c: HeaderAndShortTxIDs, pool: Pool, m: nat, n: nat, k: nat)
    requires MatchedOnce(c, pool, n, k) && Matches(c, pool, n, k)
    ensures n < m ==> LastClash(c, pool, m, n, k)
  {
    hide Matches;
    var j :| 0 <= j < n && Matches(c, pool, j, k);
    assert n < m ==> ClashAt(c, pool, m, k, j, n);
  }

  /** While nothing clashes every match carries the transaction of the first. */
  lemma ClashesWithFirst(c: HeaderAndShortTxIDs, pool: Pool, m: nat, n: nat, k: nat, j: nat)
    requires !Clash(c, pool, m, n, k) && m <= n < |pool| && j < n && First(c, pool, k, j) && Matches(c, pool, n, k)
    ensures LastClash(c, pool, m, n, k) <==> pool[j].1.hash != pool[n].1.hash
  {
    hide Matches;
    if pool[j].1.hash != pool[n].1.hash {
      assert ClashAt(c, pool, m, k, j, n);
    }
    forall i | 0 <= i < n && Matches(c, pool, i, k)
      ensures pool[i].1.hash == pool[j].1.hash
    {
      assert !ClashAt(c, pool, m, k, j, i) || i <= j;
    }
  }

  /** An entry whose short id is not asked for changes nothing. */
  lemma ScanPass(c: HeaderAndShortTxIDs, base: Slots, s: Slots, have: seq<bool>, count: int, pool: Pool, m: nat, n: nat)
    requires Scanning(c, base, s, have, count, pool, m, n) && n < |pool|
    requires forall k :: 0 <= k < |c.shorttxids| ==> !Matches(c, pool, n, k)
    ensures Scanning(c, base, s, have, count, pool, m, n + 1)
  {
    hide Open, Settled, Matches, Found, MatchedOnce;
    var open := Open(base, |base|);
    forall k | 0 <= k < |open|
      ensures Settled(c, pool, m, n + 1, k, s[open[k]])
      ensures have[open[k]] <==> MatchedOnce(c, pool, n + 1, k)
    {
      MatchedNext(c, pool, n, k);
      SettledPass(c, pool, m, n, k, s[open[k]]);
    }
  }

  /** All short ids are found exactly when every slot is filled. */
  lemma FullCount(c: HeaderAndShortTxIDs, base: Slots, s: Slots, have: seq<bool>, count: int, pool: Pool, m: nat,
                  n: nat)
    requires Scanning(c, base, s, have, count, pool, m, n)
    ensures count == |c.shorttxids| <==> Full(c, pool, m, n)
  {
    hide Open, MatchedOnce, Clash, First, Found;
    var open := Open(base, |base|);
    forall k | 0 <= k < |open|
      ensures s[open[k]].Some? <==> MatchedOnce(c, pool, n, k) && !Clash(c, pool, m, n, k)
      ensures count == |open| ==> s[open[k]].Some?
    {
      assert Settled(c, pool, m, n, k, s[open[k]]);
      AllFound(base, s, |base|, k);
    }
    if Full(c, pool, m, n) {
      AllFilled(base, s, |base|);
    }
  }

  lemma {:induction false} AllFound(base: Slots, s: Slots, n: nat, k: nat)
    requires n <= |base| == |s| && k < |Open(base, n)|
    ensures Found(base, s, n) <= |Open(base, n)| && Open(base, n)[k] < n
    ensures Found(base, s, n) == |Open(base, n)| ==> s[Open(base, n)[k]].Some?
    decreases n
  {
    if |Open(base, n - 1)| == 0 {
      NoneFound(base, s, n - 1);
    } else {
      AllFound(base, s, n - 1, if k < |Open(base, n - 1)| then k else 0);
    }
  }

  lemma {:induction false} AllFilled(base: Slots, s: Slots, n: nat)
    requires n <= |base| == |s|
    requires forall k :: 0 <= k < |Open(base, n)| ==> Open(base, n)[k] < n && s[Open(base, n)[k]].Some?
    ensures Found(base, s, n) == |Open(base, n)|
    decreases n
  {
    if n > 0 {
      OpenAre(base, n - 1);
      var open := Open(base, n - 1);
      forall k | 0 <= k < |open|
        ensures s[open[k]].Some?
      {
        assert Open(base, n)[k] == open[k];
      }
      AllFilled(base, s, n - 1);
      if base[n - 1].None? {
        assert Open(base, n)[|Open(base, n - 1)|] == n - 1;
      }
    }
  }

  lemma {:induction false} NoneFound(base: Slots, s: Slots, n: nat)
    requires n <= |base| == |s| && |Open(base, n)| == 0
    ensures Found(base, s, n) == 0
    decreases n
  {
    if n > 0 {
      NoneFound(base, s, n - 1);
    }
  }

  /** What was looked at in the mempool is where looking at the extra transactions starts from. */
  lemma ScanOn(c: HeaderAndShortTxIDs, base: Slots, s: Slots, have: seq<bool>, count: int, before: Pool, pool: Pool,
               m: nat)
    requires m <= |before| && m <= |pool| && before[..m] == pool[..m]
    requires Scanning(c, base, s, have, count, before, |before|, m)
    ensures Scanning(c, base, s, have, count, pool, m, m)
  {
    hide Open, Settled, Found, MatchedOnce;
    var open := Open(base, |base|);
    forall k | 0 <= k < |open|
      ensures Settled(c, pool, m, m, k, s[open[k]])
      ensures MatchedOnce(c, pool, m, k) <==> MatchedOnce(c, before, m, k)
    {
      SamePrefix(c, before, pool, m, k);
      SettledOn(c, before, pool, m, k, s[open[k]]);
    }
  }

  lemma SamePrefix(c: HeaderAndShortTxIDs, before: Pool, pool: Pool, m: nat, k: nat)
    requires m <= |before| && m <= |pool| && before[..m] == pool[..m]
    ensures forall i :: 0 <= i < m ==> before[i] == pool[i] && (Matches(c, before, i, k) <==> Matches(c, pool, i, k))
    ensures MatchedOnce(c, pool, m, k) <==> MatchedOnce(c, before, m, k)
    ensures Clash(c, pool, m, m, k) <==> Clash(c, before, |before|, m, k)
  {
    forall i | 0 <= i < m
      ensures before[i] == pool[i]
    {
      assert before[..m][i] == before[i] && pool[..m][i] == pool[i];
    }
    SameMatches(c, before, pool, m, k);
    SameClashes(c, before, pool, m, |before|, m, k);
  }

  lemma SameMatches(c: HeaderAndShortTxIDs, before: Pool, pool: Pool, m: nat, k: nat)
    requires m <= |before| && m <= |pool| && forall i :: 0 <= i < m ==> before[i] == pool[i]
    ensures forall i :: 0 <= i < m ==> (Matches(c, before, i, k) <==> Matches(c, pool, i, k))
    ensures MatchedOnce(c, pool, m, k) <==> MatchedOnce(c, before, m, k)
  {
  }

  lemma SameClashes(c: HeaderAndShortTxIDs, before: Pool, pool: Pool, n: nat, m: nat, l: nat, k: nat)
    requires n <= |before| && n <= |pool| && (forall i :: 0 <= i < n ==> before[i] == pool[i]) && n <= m && n <= l
    ensures Clash(c, pool, l, n, k) <==> Clash(c, before, m, n, k)
  {
    forall i, j | 0 <= i < j < n
      ensures ClashAt(c, pool, l, k, i, j) <==> ClashAt(c, before, m, k, i, j)
    {
    }
  }

  lemma SettledOn(c: HeaderAndShortTxIDs, before: Pool, pool: Pool, m: nat, k: nat, slot: Option<Tx>)
    requires m <= |before| && m <= |pool| && before[..m] == pool[..m] && Settled(c, before, |before|, m, k, slot)
    ensures Settled(c, pool, m, m, k, slot)
  {
    hide Matches, Clash, MatchedOnce;
    SamePrefix(c, before, pool, m, k);
    if slot.Some? {
      var j :| 0 <= j < m && First(c, before, k, j) && slot.value == before[j].1;
      assert First(c, pool, k, j);
    }
  }

  /** What is filled comes from the pools, and what is open is not to be had from them. */
  lemma ScanEnd(c: HeaderAndShortTxIDs, base: Slots, s: Slots, have: seq<bool>, count: int, vTxHashes: Pool,
                extra: Pool, m: nat, n: nat)
    requires StopsAt(c, vTxHashes, |vTxHashes|, 0, m) && StopsAt(c, vTxHashes[..m] + extra, m, m, n)
    requires Scanning(c, base, s, have, count, vTxHashes[..m] + extra, m, n)
    ensures Looked(c, base, s, vTxHashes[..m] + extra, m, n) && |s| == |base| && count == Found(base, s, |base|)
    ensures Sourced(c, base, s, vTxHashes + extra) && Exhausted(c, base, s, vTxHashes + extra)
  {
    hide Open, Settled, MatchedOnce, MatchedTwice, Found, Full;
    var open := Open(base, |base|);
    forall k | 0 <= k < |open|
      ensures SourcedAt(c, base, s, vTxHashes + extra, k)
      ensures s[open[k]].None? ==>
                || !MatchedOnce(c, vTxHashes + extra, |vTxHashes + extra|, k)
                || MatchedTwice(c, vTxHashes + extra, |vTxHashes + extra|, k)
    {
      var slot := s[open[k]];
      if slot.Some? {
        FilledFrom(c, vTxHashes, extra, m, n, k, slot);
      } else {
        OpenBecause(c, vTxHashes, extra, m, n, k);
      }
    }
  }

  /** Where an entry that was looked at stands in the pools. */
  function InPools(vTxHashes: Pool, m: nat, j: nat): nat {
    if j < m then j else |vTxHashes| + j - m
  }

  lemma InPoolsSame(c: HeaderAndShortTxIDs, vTxHashes: Pool, extra: Pool, m: nat, j: nat, k: nat)
    requires m <= |vTxHashes| && j < m + |extra|
    ensures var p := InPools(vTxHashes, m, j);
            p < |vTxHashes + extra| && (vTxHashes[..m] + extra)[j] == (vTxHashes + extra)[p]
    ensures Matches(c, vTxHashes[..m] + extra, j, k) <==> Matches(c, vTxHashes + extra, InPools(vTxHashes, m, j), k)
  {
  }

  lemma FilledFrom(c: HeaderAndShortTxIDs, vTxHashes: Pool, extra: Pool, m: nat, n: nat, k: nat, slot: Option<Tx>)
    requires m <= |vTxHashes| && n <= m + |extra| && Settled(c, vTxHashes[..m] + extra, m, n, k, slot) && slot.Some?
    ensures exists j :: 0 <= j < |vTxHashes + extra| && Matches(c, vTxHashes + extra, j, k)
                        && slot.value == (vTxHashes + extra)[j].1
  {
    hide Matches, Clash, MatchedOnce;
    var j :| 0 <= j < n && First(c, vTxHashes[..m] + extra, k, j) && slot.value == (vTxHashes[..m] + extra)[j].1;
    InPoolsSame(c, vTxHashes, extra, m, j, k);
    assert Matches(c, vTxHashes + extra, InPools(vTxHashes, m, j), k);
  }

  lemma OpenBecause(c: HeaderAndShortTxIDs, vTxHashes: Pool, extra: Pool, m: nat, n: nat, k: nat)
    requires StopsAt(c, vTxHashes, |vTxHashes|, 0, m) && StopsAt(c, vTxHashes[..m] + extra, m, m, n)
    requires k < |c.shorttxids| && Settled(c, vTxHashes[..m] + extra, m, n, k, None)
    ensures || !MatchedOnce(c, vTxHashes + extra, |vTxHashes + extra|, k)
            || MatchedTwice(c, vTxHashes + extra, |vTxHashes + extra|, k)
  {
    hide Matches;
    var pool := vTxHashes[..m] + extra;
    if Clash(c, pool, m, n, k) {
      var i, j :| 0 <= i < j < n && ClashAt(c, pool, m, k, i, j);
      InPoolsSame(c, vTxHashes, extra, m, i, k);
      InPoolsSame(c, vTxHashes, extra, m, j, k);
      assert InPools(vTxHashes, m, i) < InPools(vTxHashes, m, j);
    } else {
      NoneLeft(c, vTxHashes, extra, m, n, k);
      assert vTxHashes[..m] + extra == vTxHashes + extra;
    }
  }

  /** A slot that nothing matched so far means that everything was looked at. */
  lemma NoneLeft(c: HeaderAndShortTxIDs, vTxHashes: Pool, extra: Pool, m: nat, n: nat, k: nat)
    requires StopsAt(c, vTxHashes, |vTxHashes|, 0, m) && StopsAt(c, vTxHashes[..m] + extra, m, m, n)
    requires k < |c.shorttxids| && !MatchedOnce(c, vTxHashes[..m] + extra, n, k)
    ensures m == |vTxHashes| && n == |vTxHashes[..m] + extra|
  {
    hide Matches, Clash;
    var pool := vTxHashes[..m] + extra;
    if m < |vTxHashes| {
      assert MatchedOnce(c, vTxHashes, m, k);
      var j :| 0 <= j < m && Matches(c, vTxHashes, j, k);
      MatchesPrefix(c, vTxHashes, extra, m, j, k);
      assert false;
    }
  }

  lemma MatchesPrefix(c: HeaderAndShortTxIDs, vTxHashes: Pool, extra: Pool, m: nat, j: nat, k: nat)
    requires j < m <= |vTxHashes| && Matches(c, vTxHashes, j, k)
    ensures Matches(c, vTxHashes[..m] + extra, j, k)
  {
  }

  /** What a peer that has the block sends for the open slots. */
  function Requested(vtx: seq<Tx>, open: seq<nat>): seq<Tx>
    requires forall k :: 0 <= k < |open| ==> open[k] < |vtx|
  {
    seq(|open|, k requires 0 <= k < |open| => vtx[open[k]])
  }

  /**
   * A block announced, looked up and completed is the block, whatever the pools hold; the lookup fails exactly when
   * short ids of the block itself collide or crowd a bucket.
   */
  method Roundtrip(vtx: seq<Tx>, shortId: nat -> nat, vTxHashes: Pool, extra_txn: Pool, overfull: seq<nat> -> bool,
                   check: seq<Tx> -> Checked)
    returns (status: ReadStatus, r: seq<Tx>)
    requires 1 <= |vtx| <= 0xffff && !vtx[0].isNull
    requires forall i, j :: 0 <= i < |vtx| && 0 <= j < |vTxHashes + extra_txn|
                            && shortId(vtx[i].hash) == shortId((vTxHashes + extra_txn)[j].0)
               ==> vtx[i] == (vTxHashes + extra_txn)[j].1
    ensures var ids := ShortIds(vtx, shortId);
            if DistinctIds(ids, |ids|) && !Crowded(ids, overfull) then r == vtx && status == StatusOf(check(vtx))
            else status == ReadFailed
  {
    hide Open, Prefill, Sourced, Position, PlaceOk, DistinctIds, Crowded;
    var c := Announce(vtx, shortId);
    assert c.shorttxids == ShortIds(vtx, shortId);
    var partial := new PartiallyDownloadedBlock();
    ghost var m, n;
    status, m, n := partial.InitData(c, vTxHashes, extra_txn, overfull);
    if status != ReadOk {
      return status, [];
    }
    SourcedIsRight(c, vtx, partial.txn_available, vTxHashes + extra_txn);
    ghost var s := partial.txn_available;
    OpenAre(s, |s|);
    var missing := Requested(vtx, Open(partial.txn_available, |partial.txn_available|));
    CompletedIsBlock(vtx, s, missing, |s|);
    assert vtx[..|vtx|] == vtx;
    status, r := partial.FillBlock(missing, check);
  }

  // ----- Differential indexes -----

  ghost predicate Rising(indexes: seq<nat>) {
    forall i, j :: 0 <= i < j < |indexes| ==> indexes[i] < indexes[j]
  }

  /** Differences from one past the last index, as 64-bit numbers. */
  function Differences(indexes: seq<nat>): (r: seq<nat>)
    ensures |r| == |indexes|
  {
    seq(|indexes|, i requires 0 <= i < |indexes| => Difference(indexes, i))
  }

  function Difference(indexes: seq<nat>, i: nat): nat
    requires i < |indexes|
  {
    (indexes[i] - if i == 0 then 0 else indexes[i - 1] + 1) % UINT64_MODULUS
  }

  /** The indexes of `n` differences, or none where one leaves 16 bits. */
  function Sums(wire: seq<nat>, n: nat): Option<seq<nat>>
    requires n <= |wire|
  {
    if n == 0 then Some([]) else
      match Sums(wire, n - 1)
      case None => None
      case Some(before) =>
        var index := wire[n - 1] + Offset(before);
        if index > UINT16_MAX then None else Some(before + [index])
  }

  function Offset(before: seq<nat>): nat { if before == [] then 0 else before[|before| - 1] + 1 }

  method WriteIndexes(indexes: seq<nat>) returns (wire: seq<nat>)
    ensures wire == Differences(indexes)
  {
    wire := [];
    for i := 0 to |indexes|
      invariant |wire| == i && forall k :: 0 <= k < i ==> wire[k] == Difference(indexes, k)
    {
      wire := wire + [Difference(indexes, i)];
    }
  }

  /** First every number must fit 16 bits, then every sum. */
  method ReadIndexes(wire: seq<nat>) returns (r: Option<seq<nat>>)
    ensures r == if forall i :: 0 <= i < |wire| ==> wire[i] <= 0xffff then Sums(wire, |wire|) else None
  {
    for i := 0 to |wire|
      invariant forall k :: 0 <= k < i ==> wire[k] <= UINT16_MAX
    {
      if wire[i] > UINT16_MAX {
        return None;
      }
    }
    var indexes := wire;
    var offset := 0;
    for j := 0 to |wire|
      invariant |indexes| == |wire| && Sums(wire, j) == Some(indexes[..j]) && offset == Offset(indexes[..j])
      invariant forall k :: j <= k < |wire| ==> indexes[k] == wire[k]
    {
      if indexes[j] + offset > UINT16_MAX {
        SumsStop(wire, j + 1, |wire|);
        return None;
      }
      ghost var before := indexes[..j];
      indexes := indexes[j := indexes[j] + offset];
      assert indexes[..j] == before && indexes[..j + 1] == before + [indexes[j]];
      offset := indexes[j] + 1;
    }
    assert indexes[..|wire|] == indexes;
    r := Some(indexes);
  }

  lemma {:induction false} SumsStop(wire: seq<nat>, m: nat, n: nat)
    requires m <= n <= |wire| && Sums(wire, m).None?
    ensures Sums(wire, n).None?
    decreases n
  {
    if m < n {
      SumsStop(wire, m, n - 1);
    }
  }

  lemma {:induction false} SumsBack(indexes: seq<nat>, n: nat)
    requires Rising(indexes) && n <= |indexes| && forall i :: 0 <= i < |indexes| ==> indexes[i] <= 0xffff
    ensures Sums(Differences(indexes), n) == Some(indexes[..n])
    decreases n
  {
    if n > 0 {
      SumsBack(indexes, n - 1);
      assert indexes[..n] == indexes[..n - 1] + [indexes[n - 1]];
      assert Differences(indexes)[n - 1] == Difference(indexes, n - 1);
    }
  }

  lemma {:induction false} SumsRise(wire: seq<nat>, n: nat)
    requires n <= |wire|
    ensures Sums(wire, n).Some? ==> |Sums(wire, n).value| == n && Rising(Sums(wire, n).value)
    decreases n
  {
    if n > 0 {
      SumsRise(wire, n - 1);
    }
  }

  /** Exactly the strictly rising lists of 16-bit indexes come back. */
  method IndexesRoundtrip(indexes: seq<nat>) returns (r: Option<seq<nat>>)
    requires forall i :: 0 <= i < |indexes| ==> indexes[i] <= 0xffff
    ensures r == Some(indexes) <==> Rising(indexes)
  {
    hide Sums;
    var wire := WriteIndexes(indexes);
    r := ReadIndexes(wire);
    SumsRise(wire, |wire|);
    if Rising(indexes) {
      SumsBack(indexes, |indexes|);
      assert indexes[..|indexes|] == indexes;
      assert forall i :: 0 <= i < |wire| ==> wire[i] == Difference(indexes, i);
    }
  }
}
