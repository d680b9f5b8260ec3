/**
  The UTXO cache stack: write-back caches with DIRTY/FRESH flags over a backing
  store, of any depth.  The stack must read like one plain map from outpoints to
  unspent coins.
 */
module Coins {
  import opened Options

  type Script = seq<bv8>

  datatype OutPoint = OutPoint(hash: nat, n: nat)

  datatype TxOut = TxOut(nValue: int, scriptPubKey: Script)

  datatype Coin = Coin(out: TxOut, fCoinBase: bool, nHeight: nat)

  /** A cache entry; the two flag bits are kept as booleans. */
  datatype Entry = Entry(coin: Coin, isDirty: bool, isFresh: bool)

  type CoinsMap = map<OutPoint, Coin>
  type CacheMap = map<OutPoint, Entry>

  const OP_RETURN: bv8 := 0x6a
  const MAX_SCRIPT_SIZE := 10000

  /** The cleared coin: null output, no height. */
  const EMPTY_COIN := Coin(TxOut(-1, []), false, 0)

  predicate IsSpent(coin: Coin) {
    coin.out.nValue == -1
  }

  predicate IsUnspendable(script: Script) {
    (|script| > 0 && script[0] == OP_RETURN) || |script| > MAX_SCRIPT_SIZE
  }

  /** Heap bytes of a script: up to 28 bytes are stored inline. */
  function MemoryUsage(coin: Coin): nat {
    var size := |coin.out.scriptPubKey|;
    if size <= 28 then 0 else (size + 31) / 16 * 16
  }

  /**
    Spendable are the scripts of at most 10000 bytes that do not start with 0x6a. A script of more than 28 bytes takes
    the multiple of 16 bytes that leaves at least 16 and less than 32 over.
   */
  lemma ScriptRules(coin: Coin)
    ensures var script, usage := coin.out.scriptPubKey, MemoryUsage(coin);
            && (!IsUnspendable(script) <==> |script| <= 10000 && (script == [] || script[0] != 0x6a))
            && if |script| <= 28 then usage == 0 else usage % 16 == 0 && |script| + 16 <= usage < |script| + 32
  {
    var size := |coin.out.scriptPubKey|;
    assert size + 31 == (size + 31) / 16 * 16 + (size + 31) % 16;
  }

  // ----- The plain map a stack of views stands for -----

  function Unspent(m: CoinsMap): CoinsMap {
    map k | k in m && !IsSpent(m[k]) :: m[k]
  }

  /** What a reader of a cache over `b` sees. */
  function Overlay(b: CoinsMap, cache: CacheMap): CoinsMap {
    map k | k in b.Keys + cache.Keys && (k in cache ==> !IsSpent(cache[k].coin))
      :: if k in cache then cache[k].coin else b[k]
  }

  /** Writing a coin, spent or not, into a plain map. */
  function Put(m: CoinsMap, k: OutPoint, coin: Coin): CoinsMap {
    if IsSpent(coin) then m - {k} else m[k := coin]
  }

  /** The effect of pushing a child's modified entries onto a plain map. */
  function Pushed(m: CoinsMap, child: CacheMap): CoinsMap {
    map k | k in m.Keys + child.Keys && (k in child && child[k].isDirty ==> !IsSpent(child[k].coin))
            && (k in m || child[k].isDirty)
      :: if k in child && child[k].isDirty then child[k].coin else m[k]
  }

  // ----- The cross-level invariant -----

  /** A clean entry mirrors the parent; a FRESH entry has no unspent coin in the parent. */
  predicate EntryOk(b: CoinsMap, k: OutPoint, e: Entry) {
    && (!e.isDirty ==> if IsSpent(e.coin) then k !in b else k in b && b[k] == e.coin)
    && (e.isFresh ==> k !in b)
  }

  predicate CacheOk(b: CoinsMap, cache: CacheMap) {
    forall k :: k in cache ==> EntryOk(b, k, cache[k])
  }

  /** The parent's logic error: a FRESH child entry over a cached unspent coin. */
  predicate Misapplied(cache: CacheMap, child: CacheMap) {
    exists k :: k in child && MisappliedAt(cache, child, k)
  }

  predicate MisappliedAt(cache: CacheMap, child: CacheMap, k: OutPoint) {
    k in child && child[k].isDirty && child[k].isFresh && k in cache && !IsSpent(cache[k].coin)
  }

  lemma MisappliedIff(cache: CacheMap, child: CacheMap)
    ensures !Misapplied(cache, child) <==>
            forall k :: k in child && child[k].isDirty && child[k].isFresh && k in cache ==> IsSpent(cache[k].coin)
  {
    forall k | k in child
      ensures !MisappliedAt(cache, child, k) <==>
              (child[k].isDirty && child[k].isFresh && k in cache ==> IsSpent(cache[k].coin))
    {
    }
  }

  /** The flags never claim more than the parent's coins allow. */
  lemma SoundIsNotMisapplied(b: CoinsMap, cache: CacheMap, child: CacheMap)
    requires CacheOk(Overlay(b, cache), child)
    ensures !Misapplied(cache, child)
  {
    forall k | k in child && child[k].isFresh && k in cache
      ensures IsSpent(cache[k].coin)
    {
      assert EntryOk(Overlay(b, cache), k, child[k]);
    }
  }

  /** A sound cache reads the same as its parent after the parent took its entries. */
  lemma PushedIsOverlay(m: CoinsMap, child: CacheMap)
    requires CacheOk(m, child)
    ensures Pushed(m, child) == Overlay(m, child)
  {
    forall k | k in child
      ensures EntryOk(m, k, child[k])
    {
    }
    assert Pushed(m, child).Keys == Overlay(m, child).Keys;
  }

  /** Marking an uncached coin FRESH is sound exactly when the parent has no such coin. */
  lemma FreshIffAbsent(b: CoinsMap, cache: CacheMap, k: OutPoint, coin: Coin)
    requires CacheOk(b, cache)
    ensures CacheOk(b, cache[k := Entry(coin, true, true)]) <==> k !in b
  {
    var next := cache[k := Entry(coin, true, true)];
    assert k in next && (EntryOk(b, k, next[k]) <==> k !in b);
    forall j | j in next && j != k
      ensures EntryOk(b, j, next[j])
    {
      assert j in cache && next[j] == cache[j];
    }
  }

  lemma OverlayAt(b: CoinsMap, cache: CacheMap, k: OutPoint)
    ensures k in Overlay(b, cache) <==> if k in cache then !IsSpent(cache[k].coin) else k in b
    ensures k in Overlay(b, cache) ==> Overlay(b, cache)[k] == if k in cache then cache[k].coin else b[k]
  {
  }

  lemma OverlayEmpty(b: CoinsMap)
    ensures Overlay(b, map[]) == b
  {
  }

  lemma OverlayUpdate(b: CoinsMap, cache: CacheMap, k: OutPoint, e: Entry)
    ensures Overlay(b, cache[k := e]) == Put(Overlay(b, cache), k, e.coin)
  {
  }

  lemma OverlayRemove(b: CoinsMap, cache: CacheMap, k: OutPoint)
    requires k !in b
    ensures Overlay(b, cache - {k}) == Overlay(b, cache) - {k}
  {
  }

  /** A coin fetched from the parent: its entry is clean, and fresh if the parent's is pruned. */
  function Fetched(coin: Coin): Entry {
    Entry(coin, false, IsSpent(coin))
  }

  lemma FetchKeepsView(b: CoinsMap, cache: CacheMap, k: OutPoint, coin: Coin)
    requires CacheOk(b, cache) && k !in cache
    requires if IsSpent(coin) then k !in b else k in b && b[k] == coin
    ensures CacheOk(b, cache[k := Fetched(coin)])
    ensures Overlay(b, cache[k := Fetched(coin)]) == Overlay(b, cache)
  {
    OverlayUpdate(b, cache, k, Fetched(coin));
  }

  lemma AddedEntryOk(b: CoinsMap, cache: CacheMap, k: OutPoint, e: Entry)
    requires CacheOk(b, cache) && e.isDirty && !IsSpent(e.coin)
    requires e.isFresh ==>
               if k in cache then cache[k].isFresh || (IsSpent(cache[k].coin) && !cache[k].isDirty) else k !in b
    ensures CacheOk(b, cache[k := e])
    ensures Overlay(b, cache[k := e]) == Overlay(b, cache)[k := e.coin]
  {
    OverlayUpdate(b, cache, k, e);
    assert k in cache ==> EntryOk(b, k, cache[k]);
  }

  lemma SpentEntryOk(b: CoinsMap, cache: CacheMap, k: OutPoint)
    requires CacheOk(b, cache) && k in cache
    ensures cache[k].isFresh ==> CacheOk(b, cache - {k}) && Overlay(b, cache - {k}) == Overlay(b, cache) - {k}
    ensures !cache[k].isFresh ==>
              var next := cache[k := Entry(EMPTY_COIN, true, false)];
              CacheOk(b, next) && Overlay(b, next) == Overlay(b, cache) - {k}
  {
    assert EntryOk(b, k, cache[k]);
    if cache[k].isFresh {
      OverlayRemove(b, cache, k);
    } else {
      OverlayUpdate(b, cache, k, Entry(EMPTY_COIN, true, false));
    }
  }

  lemma UncachedOk(b: CoinsMap, cache: CacheMap, k: OutPoint)
    requires CacheOk(b, cache) && k in cache && !cache[k].isDirty
    ensures CacheOk(b, cache - {k}) && Overlay(b, cache - {k}) == Overlay(b, cache)
  {
    assert EntryOk(b, k, cache[k]);
  }

  /** A parent cache after taking one modified child entry whose flags are not misapplied. */
  function Written(cache: CacheMap, k: OutPoint, e: Entry): CacheMap {
    if k !in cache then
      if e.isFresh && IsSpent(e.coin) then cache else cache[k := Entry(e.coin, true, e.isFresh)]
    else if cache[k].isFresh && IsSpent(e.coin) then cache - {k}
    else cache[k := Entry(e.coin, true, cache[k].isFresh)]
  }

  /**
    A merged entry is dirty; it is FRESH if ours was, or, where we had none, if the child's was.
    Only what is FRESH and spent disappears, and no other entry changes.
   */
  lemma WrittenEntry(cache: CacheMap, k: OutPoint, e: Entry)
    ensures Written(cache, k, e) - {k} == cache - {k}
    ensures var kept := if k in cache then cache[k].isFresh else e.isFresh;
            Lookup(Written(cache, k, e), k) == if kept && IsSpent(e.coin) then None else Some(Entry(e.coin, true, kept))
  {
    assert (cache - {k}) - {k} == cache - {k};
  }

  /** A coin flushed as FRESH into a cache without it, and later flushed as spent, leaves no trace there. */
  lemma FlushedThenSpent(cache: CacheMap, k: OutPoint, created: Entry, spent: Entry)
    requires k !in cache && created.isFresh && !IsSpent(created.coin) && IsSpent(spent.coin)
    ensures Written(Written(cache, k, created), k, spent) == cache
  {
    var mid := Written(cache, k, created);
    WrittenEntry(cache, k, created);
    WrittenEntry(mid, k, spent);
    assert cache - {k} == cache;
    assert Written(mid, k, spent) - {k} == Written(mid, k, spent);
  }

  function Lookup(cache: CacheMap, k: OutPoint): Option<Entry> {
    if k in cache then Some(cache[k]) else None
  }

  /** The parent once the child's entries for `done` have been taken: every other entry is as before. */
  ghost predicate Merged(was: CacheMap, now: CacheMap, child: CacheMap, done: set<OutPoint>) {
    forall k :: Lookup(now, k) ==
      if k in done && k in child && child[k].isDirty then Lookup(Written(was, k, child[k]), k) else Lookup(was, k)
  }

  lemma MergedNext(was: CacheMap, before: CacheMap, now: CacheMap, child: CacheMap, done: set<OutPoint>, k: OutPoint)
    requires Merged(was, before, child, done) && k in child && k !in done
    requires now == if child[k].isDirty then Written(before, k, child[k]) else before
    ensures Merged(was, now, child, done + {k})
  {
    assert Lookup(before, k) == Lookup(was, k);
    forall j
      ensures Lookup(now, j) ==
              if j in done + {k} && j in child && child[j].isDirty then Lookup(Written(was, j, child[j]), j)
                else Lookup(was, j)
    {
      assert j != k ==> Lookup(now, j) == Lookup(before, j);
    }
  }

  /** Taking one entry of a sound child keeps the parent sound and moves its view on by that entry. */
  lemma SoundStep(b: CoinsMap, m: CoinsMap, cache: CacheMap, child: CacheMap, rest: CacheMap, k: OutPoint)
    requires CacheOk(b, cache) && CacheOk(m, child) && Overlay(b, cache) == Pushed(m, child - rest.Keys)
    requires k in rest && k in child && rest[k] == child[k]
    ensures var next := if child[k].isDirty then Written(cache, k, child[k]) else cache;
            CacheOk(b, next) && Overlay(b, next) == Pushed(m, child - (rest - {k}).Keys)
  {
    hide Overlay, Pushed, CacheOk, Put, Written;
    PushedStep(m, child, rest, k);
    if child[k].isDirty {
      PushedAt(m, child - rest.Keys, k);
      SoundEntry(m, child, k);
      assert EntryOk(Overlay(b, cache), k, child[k]);
      WrittenOk(b, cache, k, child[k]);
    }
  }

  /** The state of a batch write with `rest` still to come: what is merged, and sound if all was at the start. */
  ghost predicate Writing(b: CoinsMap, cache: CacheMap, now: CacheMap, child: CacheMap, rest: CacheMap) {
    && rest.Keys <= child.Keys && (forall k :: k in rest ==> rest[k] == child[k])
    && Merged(cache, now, child, child.Keys - rest.Keys)
    && (forall k :: k in child && k !in rest ==> !MisappliedAt(cache, child, k))
    && (CacheOk(b, cache) && CacheOk(Overlay(b, cache), child) ==>
          CacheOk(b, now) && Overlay(b, now) == Pushed(Overlay(b, cache), child - rest.Keys))
  }

  lemma WritingStart(b: CoinsMap, cache: CacheMap, child: CacheMap)
    ensures Writing(b, cache, cache, child, child)
  {
    hide Pushed, Overlay, CacheOk, Merged;
    PushedAll(Overlay(b, cache), child);
    MergedNone(cache, child);
    assert child.Keys - child.Keys == {};
  }

  lemma WritingNext(b: CoinsMap, cache: CacheMap, now: CacheMap, child: CacheMap, rest: CacheMap, k: OutPoint)
    requires Writing(b, cache, now, child, rest) && k in rest
    ensures MisappliedAt(now, map[k := rest[k]], k) <==> MisappliedAt(cache, child, k)
    ensures var next := if rest[k].isDirty then Written(now, k, rest[k]) else now;
            !MisappliedAt(cache, child, k) ==> Writing(b, cache, next, child, rest - {k})
    ensures MisappliedAt(cache, child, k) ==> rest[k].isDirty
    ensures |rest - {k}| < |rest|
  {
    hide Pushed, Overlay, CacheOk, Merged, MisappliedAt, Written;
    var done := child.Keys - rest.Keys;
    MergedRest(cache, now, child, done, k);
    SameEntry(now, child, k);
    var next := if child[k].isDirty then Written(now, k, child[k]) else now;
    MergedNext(cache, now, next, child, done, k);
    assert child.Keys - (rest - {k}).Keys == done + {k};
    if CacheOk(b, cache) && CacheOk(Overlay(b, cache), child) {
      SoundStep(b, Overlay(b, cache), now, child, rest, k);
    }
    Smaller(rest, k);
  }

  lemma Smaller(rest: CacheMap, k: OutPoint)
    requires k in rest
    ensures |rest - {k}| < |rest|
  {
    assert (rest - {k}).Keys == rest.Keys - {k};
  }

  lemma WritingFails(b: CoinsMap, cache: CacheMap, now: CacheMap, child: CacheMap, rest: CacheMap, k: OutPoint)
    requires Writing(b, cache, now, child, rest) && MisappliedAt(cache, child, k)
    ensures Misapplied(cache, child) && !(CacheOk(b, cache) && CacheOk(Overlay(b, cache), child))
    ensures Merged(cache, now, child, child.Keys - rest.Keys)
  {
    hide Overlay, CacheOk, Merged, Pushed;
    if CacheOk(b, cache) && CacheOk(Overlay(b, cache), child) {
      SoundIsNotMisapplied(b, cache, child);
    }
  }

  lemma WritingEnd(b: CoinsMap, cache: CacheMap, now: CacheMap, child: CacheMap)
    requires Writing(b, cache, now, child, map[])
    ensures !Misapplied(cache, child) && Merged(cache, now, child, child.Keys)
    ensures CacheOk(b, cache) && CacheOk(Overlay(b, cache), child) ==>
              CacheOk(b, now) && Overlay(b, now) == Pushed(Overlay(b, cache), child)
  {
    hide Overlay, CacheOk, Merged, Pushed, MisappliedAt;
    var none: CacheMap := map[];
    assert child.Keys - none.Keys == child.Keys;
    assert child - none.Keys == child;
  }

  /** An entry that is still to come finds the parent's as it was. */
  lemma MergedRest(was: CacheMap, now: CacheMap, child: CacheMap, done: set<OutPoint>, k: OutPoint)
    requires Merged(was, now, child, done) && k !in done
    ensures MisappliedAt(now, child, k) <==> MisappliedAt(was, child, k)
  {
    assert Lookup(now, k) == Lookup(was, k);
  }

  lemma SameEntry(cache: CacheMap, child: CacheMap, k: OutPoint)
    requires k in child
    ensures MisappliedAt(cache, map[k := child[k]], k) <==> MisappliedAt(cache, child, k)
    ensures MisappliedAt(cache, child, k) ==> child[k].isDirty
  {
  }

  lemma MergedNone(was: CacheMap, child: CacheMap)
    ensures Merged(was, was, child, {})
  {
  }

  lemma WrittenOk(b: CoinsMap, cache: CacheMap, k: OutPoint, e: Entry)
    requires CacheOk(b, cache) && e.isDirty && EntryOk(Overlay(b, cache), k, e)
    ensures CacheOk(b, Written(cache, k, e))
    ensures Overlay(b, Written(cache, k, e)) == Put(Overlay(b, cache), k, e.coin)
  {
    OverlayAt(b, cache, k);
    if k in cache {
      assert EntryOk(b, k, cache[k]);
      if cache[k].isFresh && IsSpent(e.coin) {
        OverlayRemove(b, cache, k);
      } else {
        OverlayUpdate(b, cache, k, Entry(e.coin, true, cache[k].isFresh));
      }
    } else if !(e.isFresh && IsSpent(e.coin)) {
      OverlayUpdate(b, cache, k, Entry(e.coin, true, e.isFresh));
    }
  }

  lemma SoundEntry(m: CoinsMap, child: CacheMap, k: OutPoint)
    requires CacheOk(m, child) && k in child
    ensures EntryOk(m, k, child[k])
  {
  }

  lemma EmptyCacheOk(b: CoinsMap)
    ensures CacheOk(b, map[]) && Usage(map[]) == 0
  {
  }

  /** Taking one more child entry extends what was pushed so far. */
  lemma PushedStep(m: CoinsMap, child: CacheMap, rest: CacheMap, k: OutPoint)
    requires k in rest && k in child && rest[k] == child[k]
    ensures Pushed(m, child - (rest - {k}).Keys) ==
            if child[k].isDirty then Put(Pushed(m, child - rest.Keys), k, child[k].coin)
              else Pushed(m, child - rest.Keys)
  {
    assert child - (rest - {k}).Keys == (child - rest.Keys)[k := child[k]];
    PushedInsert(m, child - rest.Keys, k, child[k]);
  }

  lemma PushedInsert(m: CoinsMap, child: CacheMap, k: OutPoint, e: Entry)
    requires k !in child
    ensures Pushed(m, child[k := e]) == if e.isDirty then Put(Pushed(m, child), k, e.coin) else Pushed(m, child)
  {
    assert Pushed(m, child[k := e]).Keys ==
           if e.isDirty then Put(Pushed(m, child), k, e.coin).Keys else Pushed(m, child).Keys;
  }

  lemma PushedAt(m: CoinsMap, child: CacheMap, k: OutPoint)
    requires k !in child
    ensures k in Pushed(m, child) <==> k in m
    ensures k in m ==> Pushed(m, child)[k] == m[k]
  {
  }

  lemma PushedAll(m: CoinsMap, child: CacheMap)
    ensures child - {} == child
    ensures Pushed(m, child - child.Keys) == m
  {
  }

  lemma PutUnspent(store: CoinsMap, k: OutPoint, coin: Coin)
    ensures Unspent(Put(store, k, coin)) == Put(Unspent(store), k, coin)
  {
  }

  // ----- Memory accounting -----

  ghost function AnyKey(cache: CacheMap): OutPoint
    requires |cache| > 0
  {
    var k :| k in cache;
    k
  }

  ghost function Usage(cache: CacheMap): nat
    decreases |cache|
  {
    if |cache| == 0 then 0 else
      var k := AnyKey(cache);
      MemoryUsage(cache[k].coin) + Usage(cache - {k})
  }

  lemma {:induction false} UsageRemove(cache: CacheMap, k: OutPoint)
    requires k in cache
    ensures Usage(cache) == MemoryUsage(cache[k].coin) + Usage(cache - {k})
    decreases |cache|
  {
    hide MemoryUsage;
    var j := AnyKey(cache);
    if j != k {
      UsageRemove(cache - {j}, k);
      UsageRemove(cache - {k}, j);
      assert cache - {j} - {k} == cache - {k} - {j};
    }
  }

  lemma {:induction false} UsageUpdate(cache: CacheMap, k: OutPoint, e: Entry)
    ensures Usage(cache[k := e]) ==
            Usage(cache) + MemoryUsage(e.coin) - (if k in cache then MemoryUsage(cache[k].coin) else 0)
  {
    hide MemoryUsage, Usage;
    UsageRemove(cache[k := e], k);
    assert cache[k := e] - {k} == cache - {k};
    if k in cache {
      UsageRemove(cache, k);
    } else {
      assert cache - {k} == cache;
    }
  }

  // ----- Runs on a plain map -----

  datatype Upkeep = Fetch(k: OutPoint) | Drop(k: OutPoint) | Push

  datatype Op =
    | Add(k: OutPoint, coin: Coin, possibleOverwrite: bool)
    | Spend(k: OutPoint)
    | Read(k: OutPoint)
    | Housekeeping(level: nat, task: Upkeep)

  /** The caller's promise to `AddCoin`, in terms of the plain map alone. */
  predicate Legal(m: CoinsMap, op: Op) {
    op.Add? ==>
      && !IsSpent(op.coin)
      && (IsUnspendable(op.coin.out.scriptPubKey) || op.possibleOverwrite || op.k !in m)
  }

  function PlainApply(m: CoinsMap, op: Op): CoinsMap {
    match op
    case Add(k, coin, _) => if IsUnspendable(coin.out.scriptPubKey) then m else m[k := coin]
    case Spend(k) => m - {k}
    case Read(_) => m
    case Housekeeping(_, _) => m
  }

  function PlainOutput(m: CoinsMap, op: Op): Option<Coin> {
    if (op.Spend? || op.Read?) && op.k in m then Some(m[op.k]) else None
  }

  predicate LegalRun(m: CoinsMap, ops: seq<Op>)
    decreases |ops|
  {
    ops == [] || (Legal(m, ops[0]) && LegalRun(PlainApply(m, ops[0]), ops[1..]))
  }

  function PlainRun(m: CoinsMap, ops: seq<Op>): CoinsMap
    decreases |ops|
  {
    if ops == [] then m else PlainRun(PlainApply(m, ops[0]), ops[1..])
  }

  function PlainOutputs(m: CoinsMap, ops: seq<Op>): seq<Option<Coin>>
    decreases |ops|
  {
    if ops == [] then [] else [PlainOutput(m, ops[0])] + PlainOutputs(PlainApply(m, ops[0]), ops[1..])
  }

  /** A plain map after a transaction's first `count` outputs, leaving out unspendable ones. */
  function WithOutputs(m: CoinsMap, txid: nat, vout: seq<TxOut>, height: nat, coinBase: bool, count: nat): (r: CoinsMap)
    requires count <= |vout|
    ensures forall k :: k in r && k !in m ==> k.hash == txid && k.n < count
    ensures forall i :: count <= i ==> (OutPoint(txid, i) in r <==> OutPoint(txid, i) in m)
  {
    if count == 0 then m else
      var prev := WithOutputs(m, txid, vout, height, coinBase, count - 1);
      if IsUnspendable(vout[count - 1].scriptPubKey) then prev
      else prev[OutPoint(txid, count - 1) := Coin(vout[count - 1], coinBase, height)]
  }

  // ----- The views -----

  /**
    One level of the stack.  With no `base` it is the backing store, whose map may
    hold pruned entries; otherwise it is a cache over `base`.
   */
  class CoinsView {
    const base: CoinsView?
    var store: CoinsMap
    var cacheCoins: CacheMap
    var cachedCoinsUsage: int
    ghost const depth: nat
    ghost const Repr: set<CoinsView>
    ghost const bottom: CoinsView

    ghost predicate Valid()
      reads this, Repr
      decreases depth, 0
    {
      && this in Repr
      && (base == null ==> bottom == this)
      && (base != null ==>
        && base in Repr && base.Repr <= Repr && this !in base.Repr
        && base.depth < depth && bottom == base.bottom
        && base.Valid()
        && CacheOk(base.Coins(), cacheCoins))
    }

    /** The unspent coins a reader of this level sees. */
    ghost function Coins(): CoinsMap
      requires Valid()
      reads this, Repr
      decreases depth, 1
    {
      if base == null then Unspent(store) else Overlay(base.Coins(), cacheCoins)
    }

    ghost predicate Accounted()
      reads this
    {
      cachedCoinsUsage == Usage(cacheCoins)
    }

    constructor Store(coins: CoinsMap)
      ensures Valid() && fresh(Repr) && base == null
      ensures Coins() == Unspent(coins)
    {
      base, depth, Repr, bottom := null, 0, {this}, this;
      store, cacheCoins, cachedCoinsUsage := coins, map[], 0;
    }

    constructor Cache(view: CoinsView)
      requires view.Valid()
      ensures Valid() && base == view && Repr == view.Repr + {this} && fresh(this)
      ensures Coins() == view.Coins() && Accounted()
    {
      base, depth, Repr, bottom := view, view.depth + 1, view.Repr + {this}, view.bottom;
      store, cacheCoins, cachedCoinsUsage := map[], map[], 0;
      new;
      hide Overlay, Unspent;
      OverlayEmpty(view.Coins());
    }

    /** Reading fills every cache on the way down and changes no level's coins. */
    method GetCoin(k: OutPoint) returns (found: bool, coin: Coin)
      requires Valid()
      modifies Repr
      ensures Valid() && Coins() == old(Coins())
      ensures base != null ==> base.Coins() == old(base.Coins())
      ensures k in Coins() ==> found && coin == Coins()[k]
      ensures found ==> (IsSpent(coin) <==> k !in Coins())
      ensures base != null ==> (found <==> k in Coins())
      ensures old(Accounted()) ==> Accounted()
      decreases depth, 1
    {
      if base == null {
        coin := EMPTY_COIN;
        found := false;
        if k in store {
          coin := store[k];
          // A store may or may not report a pruned entry.
          if IsSpent(coin) { found := *; } else { found := true; }
        }
      } else {
        var hit := FetchCoin(k);
        if hit {
          coin := cacheCoins[k].coin;
          found := !IsSpent(coin);
        } else {
          coin, found := EMPTY_COIN, false;
        }
      }
    }

    method FetchCoin(k: OutPoint) returns (hit: bool)
      requires Valid() && base != null
      modifies Repr
      ensures Valid() && Coins() == old(Coins()) && base.Coins() == old(base.Coins())
      ensures hit <==> k in cacheCoins
      ensures k in old(cacheCoins) || k in old(base.Coins()) ==> hit
      ensures hit && base.base != null ==> k in old(cacheCoins) || k in old(base.Coins())
      ensures k in Coins() ==> hit
      ensures cacheCoins - {k} == old(cacheCoins) - {k}
      ensures k in old(cacheCoins) ==> cacheCoins == old(cacheCoins)
      ensures hit && k !in old(cacheCoins) ==>
                && !cacheCoins[k].isDirty && (cacheCoins[k].isFresh <==> k !in base.Coins())
                && (if k in base.Coins() then cacheCoins[k].coin == base.Coins()[k] else IsSpent(cacheCoins[k].coin))
      ensures old(Accounted()) ==> Accounted()
      decreases depth, 0
    {
      hide Overlay, CacheOk, Unspent, Usage;
      if k in cacheCoins {
        return true;
      }
      var found, tmp := base.GetCoin(k);
      if !found {
        OverlayAt(base.Coins(), cacheCoins, k);
        return false;
      }
      ghost var b := base.Coins();
      FetchKeepsView(b, cacheCoins, k, tmp);
      UsageUpdate(cacheCoins, k, Fetched(tmp));
      cacheCoins := cacheCoins[k := Fetched(tmp)];
      cachedCoinsUsage := cachedCoinsUsage + MemoryUsage(tmp);
      assert base.Valid() && base.Coins() == b;
      hit := true;
    }

    method HaveCoin(k: OutPoint) returns (have: bool)
      requires Valid() && base != null
      modifies Repr
      ensures Valid() && Coins() == old(Coins())
      ensures have <==> k in Coins()
      ensures old(Accounted()) ==> Accounted()
    {
      var hit := FetchCoin(k);
      OverlayAt(base.Coins(), cacheCoins, k);
      have := hit && !IsSpent(cacheCoins[k].coin);
    }

    /**
      Adds a coin; a false result is the source's logic error for replacing an unspent one.
      The promise made with `possibleOverwrite == false` only matters for an uncached coin.
     */
    method AddCoin(k: OutPoint, coin: Coin, possibleOverwrite: bool) returns (ok: bool)
      requires Valid() && base != null && !IsSpent(coin)
      requires IsUnspendable(coin.out.scriptPubKey) || possibleOverwrite || k in cacheCoins || k !in base.Coins()
      modifies this`cacheCoins, this`cachedCoinsUsage
      ensures Valid() && base.Coins() == old(base.Coins())
      ensures ok <==> IsUnspendable(coin.out.scriptPubKey) || possibleOverwrite || k !in old(Coins())
      ensures Coins() == if ok && !IsUnspendable(coin.out.scriptPubKey) then old(Coins())[k := coin] else old(Coins())
      ensures cacheCoins.Keys >= old(cacheCoins).Keys
      ensures IsUnspendable(coin.out.scriptPubKey) ==> cacheCoins == old(cacheCoins)
      ensures cacheCoins - {k} == old(cacheCoins) - {k}
      ensures ok && !IsUnspendable(coin.out.scriptPubKey) ==>
                && k in cacheCoins && cacheCoins[k].coin == coin && cacheCoins[k].isDirty
                && (cacheCoins[k].isFresh <==>
                    || (k in old(cacheCoins) && old(cacheCoins)[k].isFresh)
                    || (!possibleOverwrite && !(k in old(cacheCoins) && old(cacheCoins)[k].isDirty)))
      ensures old(Accounted()) && ok ==> Accounted()
      // The throwing path leaves the counter short by the entry it refused to replace.
      ensures !ok ==> cacheCoins == old(cacheCoins) && k in cacheCoins
                      && cachedCoinsUsage == old(cachedCoinsUsage) - MemoryUsage(cacheCoins[k].coin)
    {
      hide Overlay, CacheOk, Unspent, Usage, MemoryUsage, Put;
      if IsUnspendable(coin.out.scriptPubKey) {
        return true;
      }
      ghost var b, was, cache := base.Coins(), Coins(), cacheCoins;
      OverlayAt(b, cache, k);
      var inserted := k !in cacheCoins;
      var entry := if inserted then Entry(EMPTY_COIN, false, false) else cacheCoins[k];
      var isFresh := false;
      if !inserted {
        cachedCoinsUsage := cachedCoinsUsage - MemoryUsage(entry.coin);
      }
      if !possibleOverwrite {
        if !IsSpent(entry.coin) {
          assert base.Valid() && base.Coins() == b;
          return false;
        }
        isFresh := !entry.isDirty;
      }
      entry := Entry(coin, true, entry.isFresh || isFresh);
      AddedEntryOk(b, cache, k, entry);
      UsageUpdate(cache, k, entry);
      cacheCoins := cacheCoins[k := entry];
      cachedCoinsUsage := cachedCoinsUsage + MemoryUsage(coin);
      assert base.Valid() && base.Coins() == b;
      ok := true;
    }

    /** Spends a coin: the view loses it and the caller gets it. */
    method SpendCoin(k: OutPoint) returns (found: bool, moved: Coin)
      requires Valid() && base != null
      modifies Repr
      ensures Valid() && base.Coins() == old(base.Coins())
      ensures Coins() == old(Coins()) - {k}
      ensures k in old(Coins()) ==> found && moved == old(Coins())[k]
      ensures found ==> (IsSpent(moved) <==> k !in old(Coins()))
      ensures k in old(cacheCoins) || k in old(base.Coins()) ==> found
      ensures found && base.base != null ==> k in old(cacheCoins) || k in old(base.Coins())
      ensures cacheCoins - {k} == old(cacheCoins) - {k}
      ensures k in cacheCoins ==> found && cacheCoins[k] == Entry(EMPTY_COIN, true, false)
      // Only the spending of a FRESH entry leaves nothing to write down.
      ensures k in cacheCoins <==>
                if k in old(cacheCoins) then !old(cacheCoins)[k].isFresh else k in old(base.Coins())
      ensures old(Accounted()) ==> Accounted()
    {
      hide Overlay, CacheOk, Unspent, Usage, Put;
      ghost var was := Coins();
      var hit := FetchCoin(k);
      if !hit {
        return false, EMPTY_COIN;
      }
      ghost var b, cache := base.Coins(), cacheCoins;
      OverlayAt(b, cache, k);
      var entry := cacheCoins[k];
      cachedCoinsUsage := cachedCoinsUsage - MemoryUsage(entry.coin);
      moved := entry.coin;
      SpentEntryOk(b, cache, k);
      if entry.isFresh {
        cacheCoins := cacheCoins - {k};
        UsageRemove(cache, k);
      } else {
        cacheCoins := cacheCoins[k := Entry(EMPTY_COIN, true, false)];
        UsageUpdate(cache, k, Entry(EMPTY_COIN, true, false));
      }
      assert base.Valid() && base.Coins() == b;
      found := true;
    }

    /** A coin that is created and spent before any flush leaves no trace in the cache. */
    method AddThenSpend(k: OutPoint, coin: Coin) returns (found: bool, moved: Coin)
      requires Valid() && base != null && !IsSpent(coin) && !IsUnspendable(coin.out.scriptPubKey)
      requires k !in cacheCoins && k !in base.Coins()
      modifies Repr
      ensures Valid() && Coins() == old(Coins()) && base.Coins() == old(base.Coins())
      ensures found && moved == coin
      ensures cacheCoins == old(cacheCoins)
    {
      hide Overlay, CacheOk, Unspent, Usage, MemoryUsage, Put;
      ghost var was, cache := Coins(), cacheCoins;
      OverlayAt(base.Coins(), cacheCoins, k);
      var ok := AddCoin(k, coin, false);
      assert ok;
      found, moved := SpendCoin(k);
      assert was[k := coin] - {k} == was;
      assert cacheCoins == cacheCoins - {k} == cache - {k} == cache;
    }

    /** Drops an entry that carries no modification. */
    method Uncache(k: OutPoint)
      requires Valid() && base != null
      modifies this`cacheCoins, this`cachedCoinsUsage
      ensures Valid() && Coins() == old(Coins()) && base.Coins() == old(base.Coins())
      ensures k in cacheCoins ==> cacheCoins[k].isDirty || cacheCoins[k].isFresh
      ensures cacheCoins - {k} == old(cacheCoins) - {k}
      ensures k in old(cacheCoins) && (old(cacheCoins)[k].isDirty || old(cacheCoins)[k].isFresh) ==>
                cacheCoins == old(cacheCoins)
      ensures old(Accounted()) ==> Accounted()
    {
      hide Overlay, CacheOk, Unspent, Usage, MemoryUsage, Put;
      ghost var b, cache := base.Coins(), cacheCoins;
      if k in cacheCoins && !cacheCoins[k].isDirty && !cacheCoins[k].isFresh {
        UncachedOk(b, cache, k);
        UsageRemove(cache, k);
        cachedCoinsUsage := cachedCoinsUsage - MemoryUsage(cacheCoins[k].coin);
        cacheCoins := cacheCoins - {k};
        assert base.Valid() && base.Coins() == b;
      }
    }

    /**
      Takes a child cache's entries, in whatever order its map gives them.  A false result
      is the logic error for a misapplied FRESH flag; sound flags never reach it.
     */
    method BatchWrite(child: CacheMap) returns (ok: bool, ghost done: set<OutPoint>)
      requires Valid()
      modifies this
      ensures base == null ==> ok
      // It fails exactly if a modified FRESH entry of the child meets an unspent coin cached here.
      ensures base != null ==> (ok <==>
                forall k :: k in child && child[k].isDirty && child[k].isFresh && k in old(cacheCoins) ==>
                  IsSpent(old(cacheCoins)[k].coin))
      ensures base != null ==> base.Valid() && base.Coins() == old(base.Coins())
      ensures base == null || CacheOk(old(Coins()), child) ==>
                ok && Valid() && Coins() == Pushed(old(Coins()), child)
      ensures done <= child.Keys && (ok ==> done == child.Keys)
      ensures base != null ==> Merged(old(cacheCoins), cacheCoins, child, done)
      ensures old(Accounted()) ==> Accounted()
    {
      hide Pushed, Unspent, Overlay, CacheOk, Misapplied, Usage, Merged;
      if base == null {
        WriteStore(child);
        ok, done := true, child.Keys;
      } else {
        ghost var b := base.Coins();
        MisappliedIff(cacheCoins, child);
        ok, done := WriteCache(child, b);
        assert base.Valid() && base.Coins() == b;
      }
    }

    method WriteStore(child: CacheMap)
      requires Valid() && base == null
      modifies this`store
      ensures Valid() && Coins() == Pushed(old(Coins()), child)
    {
      hide Pushed, Put, Unspent;
      ghost var was := Coins();
      PushedAll(was, child);
      var rest := child;
      while rest != map[]
        invariant rest.Keys <= child.Keys && forall k :: k in rest ==> rest[k] == child[k]
        invariant Valid() && Unspent(store) == Pushed(was, child - rest.Keys)
        decreases |rest|
      {
        var k :| k in rest;
        PushedStep(was, child, rest, k);
        if rest[k].isDirty {
          PutUnspent(store, k, rest[k].coin);
          store := Put(store, k, rest[k].coin);
        }
        rest := rest - {k};
      }
    }

    /** Takes one modified child entry into this cache. */
    method WriteEntry(k: OutPoint, entry: Entry) returns (ok: bool)
      requires entry.isDirty
      modifies this`cacheCoins, this`cachedCoinsUsage
      ensures ok <==> !MisappliedAt(old(cacheCoins), map[k := entry], k)
      ensures cacheCoins == if ok then Written(old(cacheCoins), k, entry) else old(cacheCoins)
      ensures old(Accounted()) ==> Accounted()
    {
      hide Usage, MemoryUsage;
      if k !in cacheCoins {
        if !(entry.isFresh && IsSpent(entry.coin)) {
          UsageUpdate(cacheCoins, k, Entry(entry.coin, true, entry.isFresh));
          cacheCoins := cacheCoins[k := Entry(entry.coin, true, entry.isFresh)];
          cachedCoinsUsage := cachedCoinsUsage + MemoryUsage(entry.coin);
        }
      } else {
        var us := cacheCoins[k];
        if entry.isFresh && !IsSpent(us.coin) {
          return false;
        }
        if us.isFresh && IsSpent(entry.coin) {
          UsageRemove(cacheCoins, k);
          cachedCoinsUsage := cachedCoinsUsage - MemoryUsage(us.coin);
          cacheCoins := cacheCoins - {k};
        } else {
          UsageUpdate(cacheCoins, k, Entry(entry.coin, true, us.isFresh));
          cachedCoinsUsage := cachedCoinsUsage - MemoryUsage(us.coin);
          cacheCoins := cacheCoins[k := Entry(entry.coin, true, us.isFresh)];
          cachedCoinsUsage := cachedCoinsUsage + MemoryUsage(entry.coin);
        }
      }
      ok := true;
    }

    /** The loop of `BatchWrite` at a cache level whose parent reads as `b`. */
    method WriteCache(child: CacheMap, ghost b: CoinsMap) returns (ok: bool, ghost done: set<OutPoint>)
      modifies this`cacheCoins, this`cachedCoinsUsage
      ensures ok <==> !Misapplied(old(cacheCoins), child)
      ensures CacheOk(b, old(cacheCoins)) && CacheOk(Overlay(b, old(cacheCoins)), child) ==>
                && ok && CacheOk(b, cacheCoins)
                && Overlay(b, cacheCoins) == Pushed(Overlay(b, old(cacheCoins)), child)
      ensures done <= child.Keys && (ok ==> done == child.Keys) && Merged(old(cacheCoins), cacheCoins, child, done)
      ensures old(Accounted()) ==> Accounted()
    {
      hide Pushed, Overlay, Usage, CacheOk, Written, Merged, Misapplied, MisappliedAt, Writing;
      ghost var cache := cacheCoins;
      WritingStart(b, cache, child);
      var rest := child;
      while rest != map[]
        invariant Writing(b, cache, cacheCoins, child, rest)
        invariant old(Accounted()) ==> Accounted()
        decreases |rest|
      {
        var k :| k in rest;
        var entry := rest[k];
        WritingNext(b, cache, cacheCoins, child, rest, k);
        if entry.isDirty {
          var taken := WriteEntry(k, entry);
          if !taken {
            WritingFails(b, cache, cacheCoins, child, rest, k);
            return false, child.Keys - rest.Keys;
          }
        }
        rest := rest - {k};
      }
      WritingEnd(b, cache, cacheCoins, child);
      ok, done := true, child.Keys;
    }

    /** Pushes everything down: the view is unchanged and the level below now equals it. */
    method Flush() returns (ok: bool)
      requires Valid() && base != null
      modifies Repr
      ensures ok && Valid()
      ensures Coins() == old(Coins()) && base.Coins() == old(Coins())
      ensures cacheCoins == map[] && Accounted()
      ensures old(base.Accounted()) ==> base.Accounted()
    {
      hide Pushed, Put, Unspent, Overlay, Usage, MemoryUsage, CacheOk;
      PushedIsOverlay(base.Coins(), cacheCoins);
      ghost var done;
      ok, done := base.BatchWrite(cacheCoins);
      cacheCoins, cachedCoinsUsage := map[], 0;
      OverlayEmpty(base.Coins());
      EmptyCacheOk(base.Coins());
    }

    /** Housekeeping at any level, even below a cache holding modifications, is invisible. */
    method Maintain(level: nat, task: Upkeep)
      requires Valid() && base != null
      modifies Repr
      ensures Valid() && Coins() == old(Coins())
      decreases depth
    {
      if level == 0 {
        match task
        case Fetch(k) => var _ := FetchCoin(k);
        case Drop(k) => Uncache(k);
        case Push => var _ := Flush();
      } else if base.base != null {
        hide Overlay, CacheOk, Unspent;
        ghost var b := base.Coins();
        base.Maintain(level - 1, task);
        assert base.Coins() == b;
      }
    }

    /** Flushing every level from the top leaves the store holding exactly the view. */
    method FlushAll()
      requires Valid() && base != null
      modifies Repr
      ensures Valid() && Coins() == old(Coins())
      ensures bottom in Repr && bottom.Valid() && bottom.Coins() == old(Coins())
      decreases depth
    {
      hide Overlay, CacheOk, Unspent;
      var _ := Flush();
      if base.base != null {
        ghost var b := base.Coins();
        base.FlushAll();
        assert base.Coins() == b;
      }
    }

    method Apply(op: Op) returns (out: Option<Coin>)
      requires Valid() && base != null && Legal(Coins(), op)
      modifies Repr
      ensures Valid() && Coins() == PlainApply(old(Coins()), op)
      ensures out == PlainOutput(old(Coins()), op)
    {
      hide Overlay, CacheOk, Unspent, Usage, MemoryUsage;
      out := None;
      match op
      case Add(k, coin, possibleOverwrite) =>
        OverlayAt(base.Coins(), cacheCoins, k);
        var ok := AddCoin(k, coin, possibleOverwrite);
        assert ok;
      case Spend(k) =>
        ghost var was := Coins();
        var found, coin := SpendCoin(k);
        if found && !IsSpent(coin) { out := Some(coin); }
      case Read(k) =>
        var found, coin := GetCoin(k);
        if found { out := Some(coin); }
      case Housekeeping(level, task) =>
        Maintain(level, task);
    }

    /** Every legal run on a stack of any depth reads like the same run on one plain map. */
    method Run(ops: seq<Op>) returns (outs: seq<Option<Coin>>)
      requires Valid() && base != null && LegalRun(Coins(), ops)
      modifies Repr
      ensures Valid() && Coins() == PlainRun(old(Coins()), ops)
      ensures outs == PlainOutputs(old(Coins()), ops)
    {
      hide Overlay, CacheOk, Unspent, PlainApply, PlainOutput, Legal;
      outs := [];
      var rest := ops;
      ghost var was := Coins();
      while rest != []
        invariant Valid() && LegalRun(Coins(), rest)
        invariant PlainRun(Coins(), rest) == PlainRun(was, ops)
        invariant outs + PlainOutputs(Coins(), rest) == PlainOutputs(was, ops)
        decreases |rest|
      {
        var out := Apply(rest[0]);
        outs, rest := outs + [out], rest[1..];
      }
    }
  }

  /** An output that would replace an unspent coin. */
  ghost predicate Clashes(m: CoinsMap, txid: nat, vout: seq<TxOut>, i: nat)
    requires i < |vout|
  {
    !IsUnspendable(vout[i].scriptPubKey) && OutPoint(txid, i) in m
  }

  /**
    Adds all outputs of a transaction.  Looking first (`check`) or being a coinbase never
    fails; otherwise it stops exactly at the first output that would replace an unspent coin,
    with the `added` ones before it in the view.
   */
  method AddCoins(cache: CoinsView, txid: nat, vout: seq<TxOut>, height: nat, coinBase: bool, check: bool)
    returns (ok: bool, ghost added: nat)
    requires cache.Valid() && cache.base != null
    requires forall i :: 0 <= i < |vout| ==> vout[i].nValue != -1
    requires check || coinBase || forall i :: 0 <= i < |vout| ==>
               OutPoint(txid, i) in cache.cacheCoins || OutPoint(txid, i) !in cache.base.Coins()
    modifies cache.Repr
    ensures cache.Valid() && added <= |vout| && (ok <==> added == |vout|)
    ensures check || coinBase ==> ok
    ensures !ok ==> Clashes(old(cache.Coins()), txid, vout, added)
    ensures check || coinBase || forall i :: 0 <= i < added ==> !Clashes(old(cache.Coins()), txid, vout, i)
    ensures cache.Coins() == WithOutputs(old(cache.Coins()), txid, vout, height, coinBase, added)
  {
    hide Overlay, CacheOk, Unspent, MemoryUsage, Usage;
    ghost var was, b := cache.Coins(), cache.base.Coins();
    added := 0;
    for i := 0 to |vout|
      invariant added == i
      invariant cache.Valid() && cache.Coins() == WithOutputs(was, txid, vout, height, coinBase, i)
      invariant check || coinBase || (cache.base.Coins() == b && cache.cacheCoins.Keys >= old(cache.cacheCoins).Keys)
      invariant check || coinBase || forall j :: 0 <= j < i ==> !Clashes(was, txid, vout, j)
    {
      var k := OutPoint(txid, i);
      var overwrite := coinBase;
      if check {
        overwrite := cache.HaveCoin(k);
        OverlayAt(cache.base.Coins(), cache.cacheCoins, k);
      }
      var fine := cache.AddCoin(k, Coin(vout[i], coinBase, height), overwrite);
      if !fine {
        return false, added;
      }
      added := added + 1;
    }
    ok := true;
  }
}
