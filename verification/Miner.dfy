/**
 * Block template selection: `BlockAssembler::addPackageTxs` and its helpers.
 *
 * The mempool is a finite transaction graph with exact ancestor sums. Which package is better is
 * decided by floating-point fee rates in the source; here every such decision is arbitrary, so the
 * results hold for any comparison.
 */
module Miner {

  const WITNESS_SCALE_FACTOR: nat := 1
  const MAX_BLOCK_WEIGHT: nat := 1_000_000
  const MAX_BLOCK_SIGOPS_COST: nat := 40_000
  const MAX_CONSECUTIVE_FAILURES: nat := 1000
  const COINBASE_WEIGHT: nat := 4000
  const COINBASE_SIGOPS: nat := 400

  // ----- The mempool -----

  /** A mempool entry; `isFinal` stands for the locktime and witness tests of the block being built. */
  datatype Tx = Tx(
    size: nat, weight: nat, sigOps: nat, fee: int, isFinal: bool,
    countWithAncestors: nat, sizeWithAncestors: nat, sigOpsWithAncestors: nat)

  /** Transactions by id, which also stands for the hash order, with the in-pool children and ancestors of each. */
  datatype Mempool = Mempool(txs: map<nat, Tx>, children: map<nat, set<nat>>, ancestors: map<nat, set<nat>>)

  datatype Quantity = Size | Weight | SigOps | Fee

  function Of(tx: Tx, q: Quantity): int {
    match q
    case Size => tx.size
    case Weight => tx.weight
    case SigOps => tx.sigOps
    case Fee => tx.fee
  }

  ghost function Sum(m: Mempool, q: Quantity, s: set<nat>): int
    requires s <= m.txs.Keys
  {
    if s == {} then 0 else
      var x :| x in s;
      Of(m.txs[x], q) + Sum(m, q, s - {x})
  }

  /** Links stay inside the pool, and ancestor sets are transitive and acyclic. */
  ghost predicate Graph(m: Mempool) {
    && m.children.Keys == m.txs.Keys && m.ancestors.Keys == m.txs.Keys
    && (forall p :: p in m.txs ==> m.children[p] <= m.txs.Keys)
    && (forall t :: t in m.txs ==> m.ancestors[t] <= m.txs.Keys && t !in m.ancestors[t])
    && (forall t, a :: t in m.txs && a in m.ancestors[t] ==> m.ancestors[a] <= m.ancestors[t])
  }

  /** Some parent of `d` is `a` or has it as an ancestor. */
  ghost predicate ThroughParent(m: Mempool, a: nat, d: nat)
    requires Graph(m)
  {
    exists p :: p in m.txs && d in m.children[p] && (a == p || a in m.ancestors[p])
  }

  /** The ancestors are what the links to the children lead to. */
  ghost predicate Linked(m: Mempool)
    requires Graph(m)
  {
    forall d, a :: d in m.txs && a in m.txs ==> (a in m.ancestors[d] <==> ThroughParent(m, a, d))
  }

  /** What the mempool's own consistency check asserts, and that a size covers its weight. */
  ghost predicate PoolOk(m: Mempool) {
    && Graph(m) && Linked(m)
    && (forall t :: t in m.txs ==> Cached(m, t))
    && (forall t :: t in m.txs ==> m.txs[t].weight <= WITNESS_SCALE_FACTOR * m.txs[t].size)
  }

  ghost predicate Cached(m: Mempool, t: nat)
    requires Graph(m) && t in m.txs
  {
    && m.txs[t].countWithAncestors == |m.ancestors[t]| + 1
    && m.txs[t].sizeWithAncestors == Sum(m, Size, m.ancestors[t] + {t})
    && m.txs[t].sigOpsWithAncestors == Sum(m, SigOps, m.ancestors[t] + {t})
  }

  lemma SumPick(m: Mempool, q: Quantity, s: set<nat>) returns (y: nat)
    requires s <= m.txs.Keys && s != {}
    ensures y in s && Sum(m, q, s) == Of(m.txs[y], q) + Sum(m, q, s - {y})
  {
    hide Of;
    y :| y in s && Sum(m, q, s) == Of(m.txs[y], q) + Sum(m, q, s - {y});
  }

  lemma {:induction false} SumRemove(m: Mempool, q: Quantity, s: set<nat>, x: nat)
    requires s <= m.txs.Keys && x in s
    ensures Sum(m, q, s) == Of(m.txs[x], q) + Sum(m, q, s - {x})
    decreases |s|
  {
    hide Of, Sum;
    var y := SumPick(m, q, s);
    if y != x {
      SumRemove(m, q, s - {y}, x);
      SumRemove(m, q, s - {x}, y);
      assert s - {y} - {x} == s - {x} - {y};
    }
  }

  lemma {:induction false} SumUnion(m: Mempool, q: Quantity, s: set<nat>, t: set<nat>)
    requires s <= m.txs.Keys && t <= m.txs.Keys && s !! t
    ensures Sum(m, q, s + t) == Sum(m, q, s) + Sum(m, q, t)
    decreases |t|
  {
    hide Of, Sum;
    SumNone(m);
    if t == {} {
      assert s + t == s;
    } else {
      var x :| x in t;
      SumUnion(m, q, s, t - {x});
      SumRemove(m, q, t, x);
      SumRemove(m, q, s + t, x);
      assert s + t - {x} == s + (t - {x});
    }
  }

  lemma SumNone(m: Mempool)
    ensures forall q :: Sum(m, q, {}) == 0
  {
  }

  lemma SumAdd(m: Mempool, q: Quantity, s: set<nat>, x: nat)
    requires s <= m.txs.Keys && x in m.txs && x !in s
    ensures Sum(m, q, s + {x}) == Sum(m, q, s) + Of(m.txs[x], q)
  {
    SumRemove(m, q, s + {x}, x);
    assert s + {x} - {x} == s;
  }

  lemma {:induction false} SumNonNegative(m: Mempool, q: Quantity, s: set<nat>)
    requires s <= m.txs.Keys && q != Fee
    ensures 0 <= Sum(m, q, s)
    decreases |s|
  {
    if s != {} {
      var x :| x in s;
      SumRemove(m, q, s, x);
      SumNonNegative(m, q, s - {x});
    }
  }

  lemma {:induction false} WeightWithinSize(m: Mempool, s: set<nat>)
    requires s <= m.txs.Keys && PoolOk(m)
    ensures Sum(m, Weight, s) <= WITNESS_SCALE_FACTOR * Sum(m, Size, s)
    decreases |s|
  {
    if s != {} {
      var x :| x in s;
      SumRemove(m, Weight, s, x);
      SumRemove(m, Size, s, x);
      WeightWithinSize(m, s - {x});
    }
  }

  lemma SubsetCard(a: set<nat>, b: set<nat>)
    requires a <= b
    ensures |a| <= |b|
    ensures a != b ==> |a| < |b|
  {
    assert b == a + (b - a);
    if a != b {
      var x :| x in b && x !in a;
      assert x in b - a;
    }
  }

  /** An ancestor has fewer ancestors. */
  lemma AncestorCountFalls(m: Mempool, t: nat, a: nat)
    requires Graph(m) && t in m.txs && a in m.ancestors[t] && Cached(m, t) && Cached(m, a)
    ensures m.txs[a].countWithAncestors < m.txs[t].countWithAncestors
  {
    hide Sum;
    SubsetCard(m.ancestors[a], m.ancestors[t]);
  }

  // ----- Modified entries -----

  /** The size and sigops of a package without the ancestors already in the block. */
  datatype Modified = Modified(size: int, sigOps: int)

  function Entry(tx: Tx): Modified {
    Modified(tx.sizeWithAncestors, tx.sigOpsWithAncestors)
  }

  function ForParentInclusion(e: Modified, parent: Tx): Modified {
    Modified(e.size - parent.size, e.sigOps - parent.sigOps)
  }

  ghost function Lowered(m: Mempool, e: Modified, s: set<nat>): Modified
    requires s <= m.txs.Keys
  {
    Modified(e.size - Sum(m, Size, s), e.sigOps - Sum(m, SigOps, s))
  }

  lemma LoweredNone(m: Mempool, e: Modified)
    ensures Lowered(m, e, {}) == e
  {
    hide Sum;
    SumNone(m);
  }

  lemma LoweredTwice(m: Mempool, e: Modified, s: set<nat>, t: set<nat>)
    requires s <= m.txs.Keys && t <= m.txs.Keys && s !! t
    ensures Lowered(m, Lowered(m, e, s), t) == Lowered(m, e, s + t)
  {
    hide Sum;
    SumUnion(m, Size, s, t);
    SumUnion(m, SigOps, s, t);
  }

  function EntryOf(m: Mempool, mod: map<nat, Modified>, t: nat): Modified
    requires t in m.txs
  {
    if t in mod then mod[t] else Entry(m.txs[t])
  }

  predicate SameAt(mod: map<nat, Modified>, r: map<nat, Modified>, d: nat) {
    (d in r <==> d in mod) && (d in mod ==> r[d] == mod[d])
  }

  /** Entry `d` of `r` is that of `mod` after the inclusion of one ancestor. */
  ghost predicate IncludedAt(m: Mempool, mod: map<nat, Modified>, r: map<nat, Modified>, it: nat, d: nat)
    requires d in m.txs && it in m.txs
  {
    d in r && r[d] == ForParentInclusion(EntryOf(m, mod, d), m.txs[it])
  }

  /** Entry `d` of `r` is that of `mod` with the members of `s` taken off. */
  ghost predicate LoweredAt(m: Mempool, mod: map<nat, Modified>, r: map<nat, Modified>, d: nat, s: set<nat>)
    requires d in m.txs && s <= m.txs.Keys
  {
    if s == {} then SameAt(mod, r, d) else d in r && r[d] == Lowered(m, EntryOf(m, mod, d), s)
  }

  /** Whatever the children lead to from a member is a member. */
  ghost predicate ClosedDown(m: Mempool, s: set<nat>)
    requires Graph(m) && Linked(m)
  {
    s <= m.txs.Keys && forall d :: d in s ==> m.children[d] <= s
  }

  lemma {:induction false} DescendantsInside(m: Mempool, s: set<nat>, it: nat, d: nat)
    requires Graph(m) && Linked(m) && ClosedDown(m, s) && it in s && d in m.txs && it in m.ancestors[d]
    ensures d in s
    decreases |m.ancestors[d]|
  {
    assert ThroughParent(m, it, d);
    var p :| p in m.txs && d in m.children[p] && (it == p || it in m.ancestors[p]);
    if it != p {
      assert ThroughParent(m, p, d);
      SubsetCard(m.ancestors[p], m.ancestors[d]);
      DescendantsInside(m, s, it, p);
    }
  }

  lemma ChildIsBelow(m: Mempool, it: nat, p: nat, c: nat)
    requires Graph(m) && Linked(m) && it in m.txs && p in m.txs && c in m.children[p]
    requires p == it || it in m.ancestors[p]
    ensures it in m.ancestors[c]
  {
    assert ThroughParent(m, it, c);
  }

  /** The walk so far: `r` is done and closed but for `stage`, and both hold only what is below. */
  ghost predicate Staged(m: Mempool, entryit: nat, from: set<nat>, r: set<nat>, stage: set<nat>)
    requires Graph(m)
  {
    && stage !! r && stage + r <= m.txs.Keys && from <= r && entryit in stage + r
    && (forall d :: d in stage + r ==> d in from || d == entryit || entryit in m.ancestors[d])
    && (forall d :: d in r ==> m.children[d] <= r + stage)
  }

  lemma StagedNext(m: Mempool, entryit: nat, from: set<nat>, r: set<nat>, stage: set<nat>, it: nat)
    requires Graph(m) && Linked(m) && entryit in m.txs && Staged(m, entryit, from, r, stage) && it in stage
    ensures Staged(m, entryit, from, r + {it}, (stage - {it}) + (m.children[it] - (r + {it})))
  {
    hide Linked, Graph;
    ChildrenIn(m, it);
    forall c | c in m.children[it]
      ensures entryit in m.ancestors[c]
    {
      ChildIsBelow(m, entryit, it, c);
    }
    var more := (stage - {it}) + (m.children[it] - (r + {it}));
    assert more + (r + {it}) == stage + r + m.children[it];
  }

  lemma ChildrenIn(m: Mempool, it: nat)
    requires Graph(m) && it in m.txs
    ensures m.children.Keys == m.ancestors.Keys == m.txs.Keys && m.children[it] <= m.txs.Keys
  {
  }

  lemma StagedAll(m: Mempool, entryit: nat, from: set<nat>, r: set<nat>)
    requires Graph(m) && Linked(m) && entryit in m.txs && Staged(m, entryit, from, r, {})
    ensures forall d :: d in r <==> d in from || (d in m.txs && (d == entryit || entryit in m.ancestors[d]))
    ensures ClosedDown(m, r)
  {
    hide Linked;
    forall d | d in m.txs && entryit in m.ancestors[d]
      ensures d in r
    {
      DescendantsInside(m, r, entryit, d);
    }
  }

  /** The walk down the children adds a transaction and exactly those that have it as an ancestor. */
  method CalculateDescendants(m: Mempool, entryit: nat, setDescendants: set<nat>) returns (r: set<nat>)
    requires Graph(m) && Linked(m) && entryit in m.txs && ClosedDown(m, setDescendants)
    ensures forall d :: d in r <==> d in setDescendants || (d in m.txs && (d == entryit || entryit in m.ancestors[d]))
    ensures ClosedDown(m, r)
  {
    hide Linked;
    r := setDescendants;
    var stage: set<nat> := if entryit in r then {} else {entryit};
    while stage != {}
      invariant Staged(m, entryit, setDescendants, r, stage)
      decreases m.txs.Keys - r
    {
      var it :| it in stage;
      StagedNext(m, entryit, setDescendants, r, stage, it);
      r := r + {it};
      stage := stage - {it};
      stage := stage + (m.children[it] - r);
    }
    StagedAll(m, entryit, setDescendants, r);
  }

  lemma LoweredStep(m: Mempool, mod: map<nat, Modified>, r: map<nat, Modified>, q: map<nat, Modified>, d: nat,
                    s: set<nat>, it: nat)
    requires d in m.txs && s <= m.txs.Keys && it in m.txs && it !in s
    requires LoweredAt(m, mod, r, d, s)
    requires IncludedAt(m, r, q, it, d)
    ensures LoweredAt(m, mod, q, d, s + {it})
  {
    hide Sum;
    SumAdd(m, Size, s, it);
    SumAdd(m, SigOps, s, it);
    SumNone(m);
  }

  /** One descendant loses one ancestor. */
  method UpdateOne(m: Mempool, it: nat, desc: nat, ghost mod: map<nat, Modified>, was: map<nat, Modified>)
    returns (r: map<nat, Modified>)
    requires desc in m.txs && it in m.txs && SameAt(mod, was, desc)
    ensures r.Keys == was.Keys + {desc} && IncludedAt(m, mod, r, it, desc)
    ensures forall d :: d in m.txs && d != desc ==>
              && (SameAt(mod, was, d) ==> SameAt(mod, r, d))
              && (IncludedAt(m, mod, was, it, d) ==> IncludedAt(m, mod, r, it, d))
  {
    if desc !in was {
      r := was[desc := ForParentInclusion(Entry(m.txs[desc]), m.txs[it])];
    } else {
      r := was[desc := ForParentInclusion(was[desc], m.txs[it])];
    }
  }

  /** The inner loop: one added transaction, all its descendants outside the added set. */
  method UpdateDescendants(m: Mempool, alreadyAdded: set<nat>, it: nat, mod: map<nat, Modified>)
    returns (r: map<nat, Modified>)
    requires Graph(m) && Linked(m) && it in alreadyAdded && alreadyAdded <= m.txs.Keys && mod.Keys <= m.txs.Keys
    ensures r.Keys <= m.txs.Keys
    ensures forall d :: d in m.txs && d !in alreadyAdded && it in m.ancestors[d] ==> IncludedAt(m, mod, r, it, d)
    ensures forall d :: d in m.txs && (d in alreadyAdded || it !in m.ancestors[d]) ==> SameAt(mod, r, d)
  {
    hide Linked, IncludedAt, SameAt;
    r := mod;
    SameAsIs(mod);
    var descendants := CalculateDescendants(m, it, {});
    var todo := descendants;
    while todo != {}
      invariant todo <= descendants && r.Keys <= m.txs.Keys
      invariant forall d :: d in m.txs && d !in alreadyAdded && it in m.ancestors[d] && d !in todo ==>
                  IncludedAt(m, mod, r, it, d)
      invariant forall d :: d in m.txs && (d in alreadyAdded || it !in m.ancestors[d] || d in todo) ==>
                  SameAt(mod, r, d)
      decreases |todo|
    {
      var desc :| desc in todo;
      todo := todo - {desc};
      if desc !in alreadyAdded {
        r := UpdateOne(m, it, desc, mod, r);
      }
    }
  }

  lemma SameAsIs(mod: map<nat, Modified>)
    ensures forall d :: SameAt(mod, mod, d)
  {
  }

  lemma LoweredByNone(m: Mempool, mod: map<nat, Modified>, d: nat, s: set<nat>)
    requires d in m.txs && s == {}
    ensures LoweredAt(m, mod, mod, d, s)
  {
  }

  /** Every descendant outside the added set loses exactly its ancestors inside it. */
  method UpdatePackagesForAdded(m: Mempool, alreadyAdded: set<nat>, mod: map<nat, Modified>)
    returns (r: map<nat, Modified>)
    requires Graph(m) && Linked(m) && alreadyAdded <= m.txs.Keys && mod.Keys <= m.txs.Keys
    ensures r.Keys <= m.txs.Keys
    ensures forall d :: d in m.txs && d in alreadyAdded ==> SameAt(mod, r, d)
    ensures forall d :: d in m.txs && d !in alreadyAdded ==> LoweredAt(m, mod, r, d, m.ancestors[d] * alreadyAdded)
  {
    hide LoweredAt, Linked;
    r := mod;
    var todo := alreadyAdded;
    forall d | d in m.txs && d !in alreadyAdded
      ensures LoweredAt(m, mod, r, d, m.ancestors[d] * (alreadyAdded - todo))
    {
      LoweredByNone(m, mod, d, m.ancestors[d] * (alreadyAdded - todo));
    }
    while todo != {}
      invariant todo <= alreadyAdded && r.Keys <= m.txs.Keys
      invariant forall d :: d in m.txs && d in alreadyAdded ==> SameAt(mod, r, d)
      invariant forall d :: d in m.txs && d !in alreadyAdded ==>
                  LoweredAt(m, mod, r, d, m.ancestors[d] * (alreadyAdded - todo))
      decreases |todo|
    {
      var it :| it in todo;
      var q := UpdateDescendants(m, alreadyAdded, it, r);
      forall d | d in m.txs && d !in alreadyAdded
        ensures LoweredAt(m, mod, q, d, m.ancestors[d] * (alreadyAdded - (todo - {it})))
      {
        DescendantStep(m, alreadyAdded, todo, mod, r, q, it, d);
      }
      todo := todo - {it};
      r := q;
    }
    assert alreadyAdded - todo == alreadyAdded;
  }

  lemma DescendantStep(m: Mempool, added: set<nat>, todo: set<nat>, mod: map<nat, Modified>, r: map<nat, Modified>,
                       q: map<nat, Modified>, it: nat, d: nat)
    requires Graph(m) && added <= m.txs.Keys && it in todo && todo <= added && d in m.txs && d !in added
    requires LoweredAt(m, mod, r, d, m.ancestors[d] * (added - todo))
    requires it in m.ancestors[d] ==> IncludedAt(m, r, q, it, d)
    requires it !in m.ancestors[d] ==> SameAt(r, q, d)
    ensures LoweredAt(m, mod, q, d, m.ancestors[d] * (added - (todo - {it})))
  {
    var s := m.ancestors[d] * (added - todo);
    if it in m.ancestors[d] {
      LoweredStep(m, mod, r, q, d, s, it);
      assert m.ancestors[d] * (added - (todo - {it})) == s + {it};
    } else {
      assert m.ancestors[d] * (added - (todo - {it})) == s;
    }
  }

  // ----- What the recorded entries mean -----

  /**
   * `sub[d]` is what has been taken off entry `d`: all its ancestors in the block, unless it failed and was
   * re-created.
   */
  ghost predicate Tracked(m: Mempool, block: set<nat>, mod: map<nat, Modified>, failed: set<nat>,
                          sub: map<nat, set<nat>>, d: nat)
    requires Graph(m) && d in m.txs
  {
    if d in mod then
      && d in sub && sub[d] <= m.ancestors[d] * block
      && mod[d] == Lowered(m, Entry(m.txs[d]), sub[d])
      && (d !in failed ==> sub[d] == m.ancestors[d] * block)
    else
      d in failed || m.ancestors[d] * block == {}
  }

  ghost predicate Tracking(m: Mempool, block: set<nat>, mod: map<nat, Modified>, failed: set<nat>,
                           sub: map<nat, set<nat>>) {
    && Graph(m) && block <= m.txs.Keys && mod.Keys <= m.txs.Keys && mod.Keys !! block
    && forall d :: d in m.txs && d !in block ==> Tracked(m, block, mod, failed, sub, d)
  }

  ghost predicate Closed(m: Mempool, block: set<nat>)
    requires Graph(m)
  {
    block <= m.txs.Keys && forall t :: t in block ==> m.ancestors[t] <= block
  }

  /** A transaction with its ancestors outside the block. */
  ghost function Package(m: Mempool, block: set<nat>, t: nat): (r: set<nat>)
    requires Graph(m) && t in m.txs
    ensures r <= m.txs.Keys
  {
    m.ancestors[t] - block + {t}
  }

  lemma RecordedBounds(m: Mempool, block: set<nat>, mod: map<nat, Modified>, failed: set<nat>, sub: map<nat, set<nat>>,
                       t: nat)
    requires PoolOk(m) && Tracking(m, block, mod, failed, sub) && t in m.txs && t !in block
    requires t in mod || t !in failed
    ensures var e, p := EntryOf(m, mod, t), Package(m, block, t);
            && Sum(m, Size, p) <= e.size && Sum(m, SigOps, p) <= e.sigOps
            && (t !in failed ==> e == Modified(Sum(m, Size, p), Sum(m, SigOps, p)))
  {
    hide Tracked, Sum, Cached;
    assert Tracked(m, block, mod, failed, sub, t) && Cached(m, t);
    var taken := TakenOff(m, block, mod, failed, sub, t);
    RecordedSum(m, block, Size, t, taken);
    RecordedSum(m, block, SigOps, t, taken);
  }

  lemma TakenOff(m: Mempool, block: set<nat>, mod: map<nat, Modified>, failed: set<nat>, sub: map<nat, set<nat>>,
                 t: nat) returns (taken: set<nat>)
    requires Graph(m) && t in m.txs && Cached(m, t) && Tracked(m, block, mod, failed, sub, t)
    requires t in mod || t !in failed
    ensures taken <= m.ancestors[t] * block && (t !in failed ==> taken == m.ancestors[t] * block)
    ensures EntryOf(m, mod, t) == Modified(Sum(m, Size, m.ancestors[t] + {t}) - Sum(m, Size, taken),
                                           Sum(m, SigOps, m.ancestors[t] + {t}) - Sum(m, SigOps, taken))
  {
    hide Sum;
    AncestorsIn(m, t);
    hide Graph;
    taken := if t in mod then sub[t] else {};
    SumNone(m);
  }

  lemma AncestorsIn(m: Mempool, d: nat)
    requires Graph(m) && d in m.txs
    ensures d in m.ancestors && m.ancestors[d] <= m.txs.Keys
  {
  }

  lemma RecordedSum(m: Mempool, block: set<nat>, q: Quantity, t: nat, taken: set<nat>)
    requires Graph(m) && t in m.txs && t !in block && q != Fee && taken <= m.ancestors[t] * block
    ensures Sum(m, q, Package(m, block, t)) <= Sum(m, q, m.ancestors[t] + {t}) - Sum(m, q, taken)
    ensures taken == m.ancestors[t] * block ==>
              Sum(m, q, Package(m, block, t)) == Sum(m, q, m.ancestors[t] + {t}) - Sum(m, q, taken)
  {
    var rest := m.ancestors[t] * block - taken;
    SumUnion(m, q, Package(m, block, t) + rest, taken);
    SumUnion(m, q, Package(m, block, t), rest);
    SumNonNegative(m, q, rest);
    assert Package(m, block, t) + rest + taken == m.ancestors[t] + {t};
  }

  ghost function NextSub(m: Mempool, mod: map<nat, Modified>, sub: map<nat, set<nat>>,
                         package: set<nat>): map<nat, set<nat>>
    requires Graph(m)
  {
    map d | d in m.txs :: (if d in mod && d in sub then sub[d] else {}) + m.ancestors[d] * package
  }

  lemma TrackedNext(m: Mempool, block: set<nat>, package: set<nat>, mod: map<nat, Modified>, r: map<nat, Modified>,
                    failed: set<nat>, sub: map<nat, set<nat>>, d: nat)
    requires Graph(m) && package <= m.txs.Keys && package !! block && d in m.txs && d !in block + package
    requires block <= m.txs.Keys && Tracked(m, block, mod, failed, sub, d)
    requires LoweredAt(m, mod, r, d, m.ancestors[d] * package)
    ensures Tracked(m, block + package, r, failed, NextSub(m, mod, sub, package), d)
  {
    hide Sum, Lowered, NextSub, Graph;
    AncestorsIn(m, d);
    NextSubAt(m, mod, sub, package, d);
    var s := m.ancestors[d] * package;
    assert m.ancestors[d] * (block + package) == m.ancestors[d] * block + s;
    if d in mod {
      LoweredTwice(m, Entry(m.txs[d]), sub[d], s);
      assert s == {} ==> sub[d] + s == sub[d];
    } else {
      assert {} + s == s;
    }
  }

  lemma NextSubAt(m: Mempool, mod: map<nat, Modified>, sub: map<nat, set<nat>>, package: set<nat>, d: nat)
    requires Graph(m) && d in m.txs
    ensures d in m.ancestors && d in NextSub(m, mod, sub, package)
    ensures NextSub(m, mod, sub, package)[d] ==
              (if d in mod && d in sub then sub[d] else {}) + m.ancestors[d] * package
  {
  }

  /** Taking a package keeps every record right. */
  lemma TrackingNext(m: Mempool, block: set<nat>, package: set<nat>, mod: map<nat, Modified>, less: map<nat, Modified>,
                     r: map<nat, Modified>, failed: set<nat>, sub: map<nat, set<nat>>)
    requires Tracking(m, block, mod, failed, sub) && Closed(m, block)
    requires package <= m.txs.Keys && package !! block && less == mod - package
    requires r.Keys <= m.txs.Keys
    requires forall d :: d in m.txs && d in package ==> SameAt(less, r, d)
    requires forall d :: d in m.txs && d !in package ==> LoweredAt(m, less, r, d, m.ancestors[d] * package)
    ensures Tracking(m, block + package, r, failed, NextSub(m, mod, sub, package))
  {
    hide Tracked, NextSub;
    forall d | d in m.txs && d !in block + package
      ensures Tracked(m, block + package, r, failed, NextSub(m, mod, sub, package), d)
    {
      LoweredFrom(m, mod, less, r, d, m.ancestors[d] * package);
      TrackedNext(m, block, package, mod, r, failed, sub, d);
    }
    forall d | d in block
      ensures d !in r
    {
      assert m.ancestors[d] * package == {};
    }
  }

  /** No entry outside the package is lost. */
  lemma LoweredKeeps(m: Mempool, mod: map<nat, Modified>, less: map<nat, Modified>, r: map<nat, Modified>,
                     package: set<nat>)
    requires Graph(m) && mod.Keys <= m.txs.Keys && package <= m.txs.Keys && less == mod - package
    requires forall d :: d in m.txs && d !in package ==> LoweredAt(m, less, r, d, m.ancestors[d] * package)
    ensures mod.Keys <= r.Keys + package
  {
    forall d | d in mod && d !in package
      ensures d in r
    {
      assert LoweredAt(m, less, r, d, m.ancestors[d] * package);
    }
  }

  lemma LoweredFrom(m: Mempool, mod: map<nat, Modified>, less: map<nat, Modified>, r: map<nat, Modified>, d: nat,
                    s: set<nat>)
    requires d in m.txs && s <= m.txs.Keys && LoweredAt(m, less, r, d, s) && SameAt(mod, less, d)
    ensures LoweredAt(m, mod, r, d, s)
  {
  }

  /** Failing an entry keeps every record right. */
  lemma TrackingFailed(m: Mempool, block: set<nat>, mod: map<nat, Modified>, failed: set<nat>, sub: map<nat, set<nat>>,
                       t: nat)
    requires Tracking(m, block, mod, failed, sub)
    ensures Tracking(m, block, mod - {t}, failed + {t}, sub)
  {
  }

  // ----- Rejected packages -----

  ghost predicate Fits(m: Mempool, maxWeight: nat, block: set<nat>, t: nat)
    requires Graph(m) && block <= m.txs.Keys && t in m.txs
  {
    var p := Package(m, block, t);
    && COINBASE_WEIGHT + Sum(m, Weight, block) + WITNESS_SCALE_FACTOR * Sum(m, Size, p) < maxWeight
    && COINBASE_SIGOPS + Sum(m, SigOps, block) + Sum(m, SigOps, p) < MAX_BLOCK_SIGOPS_COST
  }

  predicate AllFinal(m: Mempool, s: set<nat>)
    requires s <= m.txs.Keys
  {
    forall t :: t in s ==> m.txs[t].isFinal
  }

  ghost predicate Rejected(m: Mempool, maxWeight: nat, block: set<nat>, t: nat)
    requires Graph(m) && block <= m.txs.Keys && t in m.txs
  {
    !Fits(m, maxWeight, block, t) || !AllFinal(m, Package(m, block, t))
  }

  predicate ExactSize(tx: Tx) {
    tx.weight == WITNESS_SCALE_FACTOR * tx.size
  }

  /** The sigop adjustment inflates no size that a descendant's package includes. */
  ghost predicate ExactSizes(m: Mempool)
    requires Graph(m)
  {
    forall t, a :: t in m.txs && a in m.ancestors[t] ==> ExactSize(m.txs[a])
  }

  lemma {:induction false} WeightIsSize(m: Mempool, s: set<nat>)
    requires s <= m.txs.Keys && forall a :: a in s ==> ExactSize(m.txs[a])
    ensures Sum(m, Weight, s) == WITNESS_SCALE_FACTOR * Sum(m, Size, s)
    decreases |s|
  {
    if s != {} {
      var x :| x in s;
      SumRemove(m, Weight, s, x);
      SumRemove(m, Size, s, x);
      WeightIsSize(m, s - {x});
    }
  }

  /** How the room a transaction needs changes as a package joins the block. */
  lemma RoomNeeded(m: Mempool, block: set<nat>, package: set<nat>, t: nat)
    requires Graph(m) && block <= m.txs.Keys && package <= m.txs.Keys && package !! block && t in m.txs
    requires t !in block + package
    ensures var shared := Package(m, block, t) * package;
            && shared <= m.ancestors[t]
            && Package(m, block + package, t) == Package(m, block, t) - shared
            && (forall q: Quantity :: q != Fee ==>
                  && Sum(m, q, Package(m, block, t)) == Sum(m, q, Package(m, block + package, t)) + Sum(m, q, shared)
                  && Sum(m, q, block) + Sum(m, q, shared) <= Sum(m, q, block + package))
  {
    hide Graph;
    var p, q := Package(m, block, t), Package(m, block + package, t);
    var shared, other := p * package, package - p;
    assert q == p - shared && p == q + shared && package == shared + other;
    forall x: Quantity | x != Fee
      ensures Sum(m, x, p) == Sum(m, x, q) + Sum(m, x, shared)
      ensures Sum(m, x, block) + Sum(m, x, shared) <= Sum(m, x, block + package)
    {
      SumUnion(m, x, q, shared);
      SumUnion(m, x, shared, other);
      SumNonNegative(m, x, other);
      SumUnion(m, x, block, package);
    }
  }

  /** With exact sizes a rejected transaction stays rejected however the block grows. */
  lemma RejectedStays(m: Mempool, maxWeight: nat, block: set<nat>, package: set<nat>, t: nat)
    requires Graph(m) && ExactSizes(m) && block <= m.txs.Keys && package <= m.txs.Keys && package !! block
    requires AllFinal(m, package) && t in m.txs && t !in block + package
    requires Rejected(m, maxWeight, block, t)
    ensures Rejected(m, maxWeight, block + package, t)
  {
    hide Sum;
    RoomNeeded(m, block, package, t);
    var p := Package(m, block, t);
    if AllFinal(m, p) {
      WeightIsSize(m, p * package);
    } else {
      var x :| x in p && !m.txs[x].isFinal;
      assert x in Package(m, block + package, t);
    }
  }

  /** What the tests of the loop do with `t` when its package is recorded as `e`: too large, or not final. */
  ghost predicate Refused(m: Mempool, maxWeight: nat, block: set<nat>, e: Modified, t: nat)
    requires Graph(m) && block <= m.txs.Keys && t in m.txs
  {
    || !Passes(COINBASE_WEIGHT + Sum(m, Weight, block), COINBASE_SIGOPS + Sum(m, SigOps, block), maxWeight, e)
    || !AllFinal(m, Package(m, block, t))
  }

  lemma NotFinalIsRefused(m: Mempool, maxWeight: nat, block: set<nat>, e: Modified, t: nat)
    requires Graph(m) && block <= m.txs.Keys && t in m.txs && !AllFinal(m, Package(m, block, t))
    ensures Refused(m, maxWeight, block, e, t) && Rejected(m, maxWeight, block, t)
  {
  }

  /** What is refused stays refused under the same record, as long as the block grows by final transactions. */
  lemma RefusedStays(m: Mempool, maxWeight: nat, block: set<nat>, package: set<nat>, e: Modified, t: nat)
    requires Graph(m) && block <= m.txs.Keys && package <= m.txs.Keys && package !! block && AllFinal(m, package)
    requires t in m.txs && t !in block + package && Refused(m, maxWeight, block, e, t)
    ensures Refused(m, maxWeight, block + package, e, t)
  {
    hide Sum, Graph;
    SumUnion(m, Weight, block, package);
    SumUnion(m, SigOps, block, package);
    SumNonNegative(m, Weight, package);
    SumNonNegative(m, SigOps, package);
    if !AllFinal(m, Package(m, block, t)) {
      var x :| x in Package(m, block, t) && !m.txs[x].isFinal;
      assert x in Package(m, block + package, t);
    }
  }

  /** The cached totals of an entry are no smaller than its modified ones. */
  lemma CachedIsLarger(m: Mempool, block: set<nat>, mod: map<nat, Modified>, failed: set<nat>, sub: map<nat, set<nat>>,
                       t: nat)
    requires Tracking(m, block, mod, failed, sub) && t in mod
    ensures t in m.txs && t !in block
    ensures mod[t].size <= Entry(m.txs[t]).size && mod[t].sigOps <= Entry(m.txs[t]).sigOps
  {
    hide Sum;
    assert Tracked(m, block, mod, failed, sub, t);
    SumNonNegative(m, Size, sub[t]);
    SumNonNegative(m, SigOps, sub[t]);
  }

  /**
   * A modified entry that is refused is guaranteed to fail again: met once more among the mempool's own
   * entries, on its cached totals, it is refused whatever the block has taken since.
   */
  lemma FailsAgain(m: Mempool, maxWeight: nat, block: set<nat>, mod: map<nat, Modified>, failed: set<nat>,
                   sub: map<nat, set<nat>>, package: set<nat>, t: nat)
    requires Tracking(m, block, mod, failed, sub) && t in mod && Refused(m, maxWeight, block, mod[t], t)
    requires package <= m.txs.Keys && package !! block && AllFinal(m, package) && t !in package
    ensures Refused(m, maxWeight, block + package, Entry(m.txs[t]), t)
  {
    hide Sum, Tracked, Package, AllFinal;
    CachedIsLarger(m, block, mod, failed, sub, t);
    assert Refused(m, maxWeight, block, Entry(m.txs[t]), t);
    RefusedStays(m, maxWeight, block, package, Entry(m.txs[t]), t);
  }

  /** Skipping the failed transactions of the mempool's order skips only what would be refused. */
  ghost predicate FailedForGood(m: Mempool, maxWeight: nat, block: set<nat>, failed: set<nat>)
    requires Graph(m) && block <= m.txs.Keys
  {
    forall t :: t in failed && t in m.txs && t !in block ==> Refused(m, maxWeight, block, Entry(m.txs[t]), t)
  }

  /** Everything outside the block and not in hand is still to be looked at, or cannot be taken. */
  ghost predicate Considered(m: Mempool, maxWeight: nat, block: set<nat>, mod: map<nat, Modified>, failed: set<nat>,
                             left: seq<nat>, hand: set<nat>)
    requires Graph(m) && block <= m.txs.Keys
  {
    forall t :: t in m.txs && t !in block && t !in hand ==>
      (t !in failed && (t in mod || t in left)) || Rejected(m, maxWeight, block, t)
  }

  lemma ConsideredNext(m: Mempool, maxWeight: nat, block: set<nat>, package: set<nat>, mod: map<nat, Modified>,
                       r: map<nat, Modified>, failed: set<nat>, left: seq<nat>, hand: set<nat>)
    requires Graph(m) && ExactSizes(m) && block <= m.txs.Keys && package <= m.txs.Keys && package !! block
    requires AllFinal(m, package)
    requires Considered(m, maxWeight, block, mod, failed, left, hand) && hand <= package
    requires forall d :: d in m.txs && d !in package ==> LoweredAt(m, mod - package, r, d, m.ancestors[d] * package)
    ensures Considered(m, maxWeight, block + package, r, failed, left, {})
  {
    hide Graph, Rejected, AllFinal, ExactSizes;
    forall t | t in m.txs && t !in block + package
      ensures (t !in failed && (t in r || t in left)) || Rejected(m, maxWeight, block + package, t)
    {
      if Rejected(m, maxWeight, block, t) {
        RejectedStays(m, maxWeight, block, package, t);
      }
    }
  }

  // ----- The order inside a block -----

  /** Ancestor count first, then the hash. */
  predicate ByAncestorCount(m: Mempool, a: nat, b: nat)
    requires a in m.txs && b in m.txs
  {
    if m.txs[a].countWithAncestors != m.txs[b].countWithAncestors
    then m.txs[a].countWithAncestors < m.txs[b].countWithAncestors
    else a < b
  }

  ghost predicate SortedBy(m: Mempool, s: seq<nat>) {
    && (forall i :: 0 <= i < |s| ==> s[i] in m.txs)
    && forall i, j :: 0 <= i < j < |s| ==> ByAncestorCount(m, s[i], s[j])
  }

  ghost predicate Lists(s: seq<nat>, elements: set<nat>) {
    && (forall x :: x in elements <==> x in s)
    && forall i, j :: 0 <= i < j < |s| ==> s[i] != s[j]
  }

  method First(m: Mempool, s: set<nat>) returns (x: nat)
    requires s <= m.txs.Keys && s != {}
    ensures x in s && forall y :: y in s && y != x ==> ByAncestorCount(m, x, y)
  {
    x :| x in s;
    var rest := s - {x};
    while rest != {}
      invariant rest <= s && x in s && x !in rest
      invariant forall y :: y in s && y !in rest && y != x ==> ByAncestorCount(m, x, y)
      decreases |rest|
    {
      var y :| y in rest;
      rest := rest - {y};
      if ByAncestorCount(m, y, x) {
        x := y;
      }
    }
  }

  /** The package in ancestor-count order: the only sorted list of its members. */
  method SortForBlock(m: Mempool, package: set<nat>) returns (sorted: seq<nat>)
    requires package <= m.txs.Keys
    ensures Lists(sorted, package) && SortedBy(m, sorted)
    ensures CountThenHash(m, sorted)
  {
    hide Lists, SortedBy, Precede, ByAncestorCount, CountThenHash;
    sorted := [];
    var rest := package;
    SortedNone(m, package);
    while rest != {}
      invariant rest <= package && Lists(sorted, package - rest) && SortedBy(m, sorted)
      invariant Precede(m, sorted, rest)
      decreases |rest|
    {
      var x := First(m, rest);
      ListsAppend(sorted, package - rest, x);
      SortedAppend(m, sorted, rest, x);
      assert package - (rest - {x}) == package - rest + {x};
      sorted := sorted + [x];
      rest := rest - {x};
    }
    assert package - rest == package;
    SortedMeans(m, sorted);
  }

  /** Ancestor counts rise, and where they are equal the hashes do. */
  ghost predicate CountThenHash(m: Mempool, s: seq<nat>) {
    && (forall i :: 0 <= i < |s| ==> s[i] in m.txs)
    && forall i, j :: 0 <= i < j < |s| ==>
         && m.txs[s[i]].countWithAncestors <= m.txs[s[j]].countWithAncestors
         && (m.txs[s[i]].countWithAncestors == m.txs[s[j]].countWithAncestors ==> s[i] < s[j])
  }

  lemma SortedMeans(m: Mempool, s: seq<nat>)
    requires SortedBy(m, s)
    ensures CountThenHash(m, s)
  {
    forall i, j | 0 <= i < j < |s|
      ensures m.txs[s[i]].countWithAncestors <= m.txs[s[j]].countWithAncestors
      ensures m.txs[s[i]].countWithAncestors == m.txs[s[j]].countWithAncestors ==> s[i] < s[j]
    {
      assert ByAncestorCount(m, s[i], s[j]);
    }
  }

  ghost predicate Precede(m: Mempool, s: seq<nat>, rest: set<nat>)
    requires rest <= m.txs.Keys
  {
    forall i, y :: 0 <= i < |s| && y in rest ==> s[i] in m.txs && ByAncestorCount(m, s[i], y)
  }

  lemma SortedNone(m: Mempool, package: set<nat>)
    requires package <= m.txs.Keys
    ensures Lists([], package - package) && SortedBy(m, []) && Precede(m, [], package)
  {
  }

  lemma SortedAppend(m: Mempool, s: seq<nat>, rest: set<nat>, x: nat)
    requires rest <= m.txs.Keys && SortedBy(m, s) && Precede(m, s, rest) && x in rest
    requires forall y :: y in rest && y != x ==> ByAncestorCount(m, x, y)
    ensures SortedBy(m, s + [x]) && Precede(m, s + [x], rest - {x})
  {
    hide ByAncestorCount;
  }

  lemma ListsAppend(s: seq<nat>, elements: set<nat>, x: nat)
    requires Lists(s, elements) && x !in elements
    ensures Lists(s + [x], elements + {x})
  {
  }

  /** Sorting puts the missing ancestors of each member before it. */
  lemma AncestorsReady(m: Mempool, block: set<nat>, t: nat, sorted: seq<nat>, i: nat)
    requires PoolOk(m) && t in m.txs && i < |sorted|
    requires Lists(sorted, Package(m, block, t)) && SortedBy(m, sorted)
    ensures sorted[i] in m.txs && forall a :: a in m.ancestors[sorted[i]] ==> a in block || a in sorted[..i]
  {
    hide Cached, SortedBy;
    InPackage(m, block, t, sorted[i]);
    forall a | a in m.ancestors[sorted[i]] && a !in block
      ensures a in sorted[..i]
    {
      AncestorCountFalls(m, sorted[i], a);
      Earlier(m, sorted, a, i);
    }
  }

  lemma InPackage(m: Mempool, block: set<nat>, t: nat, x: nat)
    requires Graph(m) && t in m.txs && x in Package(m, block, t)
    ensures x in m.txs && m.ancestors[x] - block <= Package(m, block, t)
  {
  }

  lemma Earlier(m: Mempool, sorted: seq<nat>, a: nat, i: nat)
    requires SortedBy(m, sorted) && a in sorted && i < |sorted|
    requires m.txs[a].countWithAncestors < m.txs[sorted[i]].countWithAncestors
    ensures a in sorted[..i]
  {
    var j :| 0 <= j < |sorted| && sorted[j] == a;
    assert sorted[..i][j] == a;
  }

  // ----- The template -----

  ghost function Total(s: seq<int>): int {
    if s == [] then 0 else Total(s[..|s| - 1]) + s[|s| - 1]
  }

  lemma {:induction false} TotalFirst(x: int, s: seq<int>)
    ensures Total([x] + s) == x + Total(s)
    decreases |s|
  {
    if s == [] {
      assert [x] + s == [x] && [x][..0] == [];
    } else {
      TotalFirst(x, s[..|s| - 1]);
      assert ([x] + s)[..|s|] == [x] + s[..|s| - 1];
    }
  }

  lemma TotalLast(s: seq<int>, x: int)
    ensures Total(s + [x]) == Total(s) + x
  {
    assert (s + [x])[..|s|] == s;
  }

  /** Each member once, after all its ancestors. */
  ghost predicate Ordered(m: Mempool, vtx: seq<nat>, inBlock: set<nat>)
    requires Graph(m)
  {
    && inBlock <= m.txs.Keys && Lists(vtx, inBlock)
    && forall i, a :: 0 <= i < |vtx| && vtx[i] in m.txs && a in m.ancestors[vtx[i]] ==> a in vtx[..i]
  }

  lemma OrderedIsClosed(m: Mempool, vtx: seq<nat>, inBlock: set<nat>)
    requires Graph(m) && Ordered(m, vtx, inBlock)
    ensures Closed(m, inBlock)
  {
    forall t | t in inBlock
      ensures m.ancestors[t] <= inBlock
    {
      var i :| 0 <= i < |vtx| && vtx[i] == t;
      forall a | a in m.ancestors[t]
        ensures a in inBlock
      {
        assert a in vtx[..i];
      }
    }
  }

  lemma OrderedAppend(m: Mempool, vtx: seq<nat>, inBlock: set<nat>, x: nat)
    requires Graph(m) && Ordered(m, vtx, inBlock) && x in m.txs && x !in inBlock && m.ancestors[x] <= inBlock
    ensures Ordered(m, vtx + [x], inBlock + {x})
  {
    ListsAppend(vtx, inBlock, x);
    forall i, a | 0 <= i < |vtx| + 1 && a in m.ancestors[(vtx + [x])[i]]
      ensures a in (vtx + [x])[..i]
    {
      assert (vtx + [x])[..i] == vtx[..i];
    }
  }

  /** Fees and sigop costs beside the transactions; slot 0 belongs to the coinbase. */
  ghost predicate Priced(m: Mempool, vtx: seq<nat>, vTxFees: seq<int>, vTxSigOpsCost: seq<int>, nFees: int) {
    && |vTxFees| == |vtx| + 1 && |vTxSigOpsCost| == |vtx| + 1
    && (forall i :: 0 <= i < |vtx| ==>
         vtx[i] in m.txs && vTxFees[i + 1] == m.txs[vtx[i]].fee && vTxSigOpsCost[i + 1] == m.txs[vtx[i]].sigOps)
    && nFees == Total(vTxFees[1..])
  }

  lemma PricedAppend(m: Mempool, vtx: seq<nat>, vTxFees: seq<int>, vTxSigOpsCost: seq<int>, nFees: int, x: nat)
    requires Priced(m, vtx, vTxFees, vTxSigOpsCost, nFees) && x in m.txs
    ensures Priced(m, vtx + [x], vTxFees + [m.txs[x].fee], vTxSigOpsCost + [m.txs[x].sigOps], nFees + m.txs[x].fee)
  {
    TotalLast(vTxFees[1..], m.txs[x].fee);
    assert (vTxFees + [m.txs[x].fee])[1..] == vTxFees[1..] + [m.txs[x].fee];
  }

  lemma PricedCoinbase(m: Mempool, vtx: seq<nat>, vTxFees: seq<int>, vTxSigOpsCost: seq<int>, nFees: int, sigOps: int)
    requires Priced(m, vtx, vTxFees, vTxSigOpsCost, nFees)
    ensures |vTxFees| > 0 && |vTxSigOpsCost| > 0
    ensures Priced(m, vtx, vTxFees[0 := -nFees], vTxSigOpsCost[0 := sigOps], nFees) && Total(vTxFees[0 := -nFees]) == 0
  {
    TotalFirst(-nFees, vTxFees[1..]);
    assert vTxFees[0 := -nFees] == [-nFees] + vTxFees[1..];
  }

  ghost predicate Weighed(m: Mempool, inBlock: set<nat>, nBlockWeight: nat, nBlockSigOpsCost: nat)
    requires inBlock <= m.txs.Keys
  {
    && nBlockWeight == COINBASE_WEIGHT + Sum(m, Weight, inBlock)
    && nBlockSigOpsCost == COINBASE_SIGOPS + Sum(m, SigOps, inBlock)
  }

  lemma WeighedAppend(m: Mempool, inBlock: set<nat>, nBlockWeight: nat, nBlockSigOpsCost: nat, x: nat)
    requires inBlock <= m.txs.Keys && Weighed(m, inBlock, nBlockWeight, nBlockSigOpsCost) && x in m.txs && x !in inBlock
    ensures Weighed(m, inBlock + {x}, nBlockWeight + m.txs[x].weight, nBlockSigOpsCost + m.txs[x].sigOps)
  {
    SumAdd(m, Weight, inBlock, x);
    SumAdd(m, SigOps, inBlock, x);
  }

  /** A package that passes the test on its recorded entry leaves the block within its limits. */
  lemma WithinLimits(m: Mempool, inBlock: set<nat>, package: set<nat>, e: Modified, nBlockWeight: nat,
                     nBlockSigOpsCost: nat, maxWeight: nat)
    requires PoolOk(m) && inBlock <= m.txs.Keys && package <= m.txs.Keys && package !! inBlock
    requires Weighed(m, inBlock, nBlockWeight, nBlockSigOpsCost)
    requires Sum(m, Size, package) <= e.size && Sum(m, SigOps, package) <= e.sigOps
    requires nBlockWeight + WITNESS_SCALE_FACTOR * e.size < maxWeight
    requires nBlockSigOpsCost + e.sigOps < MAX_BLOCK_SIGOPS_COST
    ensures COINBASE_WEIGHT + Sum(m, Weight, inBlock + package) < maxWeight
    ensures COINBASE_SIGOPS + Sum(m, SigOps, inBlock + package) < MAX_BLOCK_SIGOPS_COST
  {
    hide Sum, PoolOk;
    SumUnion(m, Weight, inBlock, package);
    SumUnion(m, SigOps, inBlock, package);
    WeightWithinSize(m, package);
  }

  // ----- The state of the selection loop -----

  ghost predicate Selecting(m: Mempool, maxWeight: nat, block: set<nat>, mod: map<nat, Modified>, failed: set<nat>,
                            sub: map<nat, set<nat>>, left: seq<nat>, hand: set<nat>)
  {
    && Graph(m)
    && Tracking(m, block, mod, failed, sub)
    && FailedForGood(m, maxWeight, block, failed)
    && (ExactSizes(m) ==> Considered(m, maxWeight, block, mod, failed, left, hand))
  }

  lemma SelectSkip(m: Mempool, maxWeight: nat, block: set<nat>, mod: map<nat, Modified>, failed: set<nat>,
                   sub: map<nat, set<nat>>, order: seq<nat>, mi: nat)
    requires mi < |order| && Selecting(m, maxWeight, block, mod, failed, sub, order[mi..], {})
    ensures Selecting(m, maxWeight, block, mod, failed, sub, order[mi + 1..], {order[mi]})
    ensures order[mi] in mod || order[mi] in block || order[mi] in failed ==>
              Selecting(m, maxWeight, block, mod, failed, sub, order[mi + 1..], {})
  {
    hide Rejected, Graph, ExactSizes, Tracked;
    assert order[mi..] == [order[mi]] + order[mi + 1..];
  }

  /** An entry of the mempool is in hand while it is tried; a modified one is still in its map. */
  function Hand(iter: nat, fUsingModified: bool): set<nat> { if fUsingModified then {} else {iter} }

  lemma EraseOne(mod: map<nat, Modified>, iter: nat)
    requires iter in mod
    ensures |mod - {iter}| < |mod|
  {
    SubsetCard((mod - {iter}).Keys, mod.Keys);
  }

  /** A rejected entry needs no further look. */
  lemma SelectFail(m: Mempool, maxWeight: nat, block: set<nat>, mod: map<nat, Modified>, failed: set<nat>,
                   sub: map<nat, set<nat>>, left: seq<nat>, hand: set<nat>, t: nat)
    requires Selecting(m, maxWeight, block, mod, failed, sub, left, hand) && t in m.txs && t !in block
    requires if hand == {} then t in failed || Rejected(m, maxWeight, block, t)
               else hand == {t} && Rejected(m, maxWeight, block, t)
    requires hand == {} ==> t in mod && Refused(m, maxWeight, block, mod[t], t)
    ensures hand == {} ==> Selecting(m, maxWeight, block, mod - {t}, failed + {t}, sub, left, {})
    ensures hand == {t} ==> Selecting(m, maxWeight, block, mod, failed, sub, left, {})
  {
    hide Rejected, Graph, ExactSizes, Tracked, Refused;
    TrackingFailed(m, block, mod, failed, sub, t);
    if hand == {} {
      FailsAgain(m, maxWeight, block, mod, failed, sub, {}, t);
      assert block + {} == block;
    }
  }

  lemma SelectTake(m: Mempool, maxWeight: nat, vtx: seq<nat>, block: set<nat>, package: set<nat>,
                   mod: map<nat, Modified>, less: map<nat, Modified>, r: map<nat, Modified>, failed: set<nat>,
                   sub: map<nat, set<nat>>, left: seq<nat>, hand: set<nat>)
    requires Graph(m) && Ordered(m, vtx, block)
    requires Selecting(m, maxWeight, block, mod, failed, sub, left, hand)
    requires package <= m.txs.Keys && package !! block && AllFinal(m, package) && hand <= package
    requires less == mod - package
    requires r.Keys <= m.txs.Keys
    requires forall d :: d in m.txs && d in package ==> SameAt(less, r, d)
    requires forall d :: d in m.txs && d !in package ==> LoweredAt(m, less, r, d, m.ancestors[d] * package)
    ensures Selecting(m, maxWeight, block + package, r, failed, NextSub(m, mod, sub, package), left, {})
  {
    hide Considered, Tracked, Ordered, LoweredAt, SameAt, AllFinal, NextSub, ExactSizes, Refused;
    OrderedIsClosed(m, vtx, block);
    forall t | t in failed && t in m.txs && t !in block + package
      ensures Refused(m, maxWeight, block + package, Entry(m.txs[t]), t)
    {
      RefusedStays(m, maxWeight, block, package, Entry(m.txs[t]), t);
    }
    TrackingNext(m, block, package, mod, less, r, failed, sub);
    if ExactSizes(m) {
      ConsideredNext(m, maxWeight, block, package, mod, r, failed, left, hand);
    }
  }

  lemma SelectStart(m: Mempool, maxWeight: nat, vtx: seq<nat>, block: set<nat>, mod: map<nat, Modified>,
                    order: seq<nat>)
    requires Graph(m) && Ordered(m, vtx, block) && mod.Keys <= m.txs.Keys && forall t :: t in order <==> t in m.txs
    requires forall d :: d in m.txs && d in block ==> SameAt(map[], mod, d)
    requires forall d :: d in m.txs && d !in block ==> LoweredAt(m, map[], mod, d, m.ancestors[d] * block)
    ensures Selecting(m, maxWeight, block, mod, {}, NextSub(m, map[], map[], block), order, {})
  {
    hide LoweredAt, Lists, NextSub, Rejected, ExactSizes;
    var none: map<nat, Modified> := map[];
    TrackingNext(m, {}, block, none, none, mod, {}, map[]);
    assert {} + block == block;
  }

  /** At the end nothing is left but what cannot be taken. */
  lemma SelectEnd(m: Mempool, maxWeight: nat, block: set<nat>, failed: set<nat>, sub: map<nat, set<nat>>)
    requires Graph(m) && ExactSizes(m) && Selecting(m, maxWeight, block, map[], failed, sub, [], {})
    ensures forall t :: t in m.txs && t !in block ==> Rejected(m, maxWeight, block, t)
  {
    hide Rejected, Graph, ExactSizes, Tracked;
  }

  lemma SelectedFailed(m: Mempool, maxWeight: nat, block: set<nat>, mod: map<nat, Modified>, failed: set<nat>,
                       sub: map<nat, set<nat>>, left: seq<nat>, hand: set<nat>)
    requires Selecting(m, maxWeight, block, mod, failed, sub, left, hand)
    ensures FailedForGood(m, maxWeight, block, failed)
  {
  }

  /** The modified entries are outside the block. */
  lemma SelectedIsNew(m: Mempool, maxWeight: nat, block: set<nat>, mod: map<nat, Modified>, failed: set<nat>,
                      sub: map<nat, set<nat>>, left: seq<nat>, hand: set<nat>)
    requires Selecting(m, maxWeight, block, mod, failed, sub, left, hand)
    ensures mod.Keys !! block && mod.Keys <= m.txs.Keys
  {
  }

  /**
   * A package that passes the test on its recorded entry leaves the block within its limits; an exact entry fails
   * it only when the package does not fit.
   */
  lemma TestedEntry(m: Mempool, maxWeight: nat, block: set<nat>, mod: map<nat, Modified>, failed: set<nat>,
                    sub: map<nat, set<nat>>, left: seq<nat>, hand: set<nat>, t: nat, nBlockWeight: nat,
                    nBlockSigOpsCost: nat)
    requires PoolOk(m) && Selecting(m, maxWeight, block, mod, failed, sub, left, hand)
    requires t in m.txs && t !in block && (t in mod || t !in failed)
    requires Weighed(m, block, nBlockWeight, nBlockSigOpsCost)
    ensures var e := EntryOf(m, mod, t);
            if Passes(nBlockWeight, nBlockSigOpsCost, maxWeight, e) then
              Within(m, maxWeight, block + Package(m, block, t))
            else
              Refused(m, maxWeight, block, e, t) && (t in failed || Rejected(m, maxWeight, block, t))
  {
    hide Considered, Tracked, Cached, Sum, Package;
    RecordedBounds(m, block, mod, failed, sub, t);
    var e := EntryOf(m, mod, t);
    if Passes(nBlockWeight, nBlockSigOpsCost, maxWeight, e) {
      PackageIsNew(m, block, t);
      WithinLimits(m, block, Package(m, block, t), e, nBlockWeight, nBlockSigOpsCost, maxWeight);
    }
  }

  lemma PackageIsNew(m: Mempool, block: set<nat>, t: nat)
    requires Graph(m) && t in m.txs && t !in block
    ensures Package(m, block, t) !! block
  {
  }

  predicate Passes(nBlockWeight: int, nBlockSigOpsCost: int, maxWeight: nat, e: Modified) {
    && nBlockWeight + WITNESS_SCALE_FACTOR * e.size < maxWeight
    && nBlockSigOpsCost + e.sigOps < MAX_BLOCK_SIGOPS_COST
  }

  ghost predicate Within(m: Mempool, maxWeight: nat, block: set<nat>)
    requires block <= m.txs.Keys
  {
    && COINBASE_WEIGHT + Sum(m, Weight, block) <= maxWeight
    && COINBASE_SIGOPS + Sum(m, SigOps, block) < MAX_BLOCK_SIGOPS_COST
  }

  // ----- The tries of a run -----

  /** What one pass through the loop does with the entry it looks at. */
  datatype Try = Took(t: nat) | TooLarge(t: nat) | NotFinal(t: nat)

  /** An entry of `t` as the pool caches it, less some ancestors already in the block. */
  ghost predicate Recorded(m: Mempool, block: set<nat>, e: Modified, t: nat)
    requires Graph(m) && t in m.txs
  {
    exists s :: s <= m.ancestors[t] * block && e == Lowered(m, Entry(m.txs[t]), s)
  }

  /** There is room for an entry: the block, the coinbase's share and the package stay below both limits. */
  ghost predicate Room(m: Mempool, maxWeight: nat, block: set<nat>, e: Modified)
    requires block <= m.txs.Keys
  {
    4000 + Sum(m, Weight, block) + e.size < maxWeight && 400 + Sum(m, SigOps, block) + e.sigOps < 40_000
  }

  /** Size and sigops are tested before finality; what passes both tests is taken. */
  ghost predicate Justified(m: Mempool, maxWeight: nat, block: set<nat>, x: Try, e: Modified)
    requires Graph(m) && block <= m.txs.Keys && x.t in m.txs
  {
    && x.t !in block && Recorded(m, block, e, x.t)
    && (Room(m, maxWeight, block, e) <==> !x.TooLarge?)
    && (!x.TooLarge? ==> (AllFinal(m, Package(m, block, x.t)) <==> x.Took?))
  }

  ghost predicate Sensible(m: Mempool, maxWeight: nat, block: set<nat>, x: Try) {
    Graph(m) && block <= m.txs.Keys && x.t in m.txs && exists e :: Justified(m, maxWeight, block, x, e)
  }

  /** The block after the packages taken. */
  ghost function BlockAfter(m: Mempool, block: set<nat>, run: seq<Try>): (r: set<nat>)
    requires Graph(m)
    ensures block <= r && (block <= m.txs.Keys ==> r <= m.txs.Keys)
  {
    if run == [] then block else
      var b, x := BlockAfter(m, block, run[..|run| - 1]), run[|run| - 1];
      if x.Took? && x.t in m.txs then b + Package(m, b, x.t) else b
  }

  /** Every try is decided by the block at that moment, on an entry recorded for that block. */
  ghost predicate Faithful(m: Mempool, maxWeight: nat, block: set<nat>, run: seq<Try>)
    requires Graph(m)
  {
    run == [] ||
    (Faithful(m, maxWeight, block, run[..|run| - 1])
     && Sensible(m, maxWeight, BlockAfter(m, block, run[..|run| - 1]), run[|run| - 1]))
  }

  /** What was tried since the last package was taken. */
  ghost function Since(run: seq<Try>): set<nat> {
    if run == [] || run[|run| - 1].Took? then {} else Since(run[..|run| - 1]) + {run[|run| - 1].t}
  }

  /** What was found too large since the last package was taken. */
  ghost function TooLargeSince(run: seq<Try>): set<nat> {
    if run == [] || run[|run| - 1].Took? then {}
    else TooLargeSince(run[..|run| - 1]) + (if run[|run| - 1].TooLarge? then {run[|run| - 1].t} else {})
  }

  /** Everything refused at some time. */
  ghost function Refusals(run: seq<Try>): set<nat> {
    if run == [] then {}
    else Refusals(run[..|run| - 1]) + (if run[|run| - 1].Took? then {} else {run[|run| - 1].t})
  }

  /** The failures in a row. */
  ghost function Fails(run: seq<Try>): nat {
    if run == [] || run[|run| - 1].Took? then 0
    else Fails(run[..|run| - 1]) + (if run[|run| - 1].TooLarge? then 1 else 0)
  }

  /** Between two packages nothing is tried twice. */
  ghost predicate NoRepeats(run: seq<Try>) {
    run == [] || (NoRepeats(run[..|run| - 1]) && run[|run| - 1].t !in Since(run[..|run| - 1]))
  }

  /** The loop's reason to give up: more than 1000 failures in a row with less than 4000 to go. */
  ghost predicate Exhausted(m: Mempool, maxWeight: nat, block: set<nat>, run: seq<Try>)
    requires Graph(m) && block <= m.txs.Keys
  {
    Fails(run) > 1000 && 4000 + Sum(m, Weight, BlockAfter(m, block, run)) > maxWeight - 4000
  }

  /** The loop never went on when it should have given up. */
  ghost predicate Untiring(m: Mempool, maxWeight: nat, block: set<nat>, run: seq<Try>)
    requires Graph(m) && block <= m.txs.Keys
  {
    run == [] || (Untiring(m, maxWeight, block, run[..|run| - 1]) && !Exhausted(m, maxWeight, block, run))
  }

  lemma OneMore(run: seq<Try>, x: Try)
    ensures (run + [x])[..|run + [x]| - 1] == run && (run + [x])[|run + [x]| - 1] == x
  {
  }

  /** The tries since the last package: the failures in a row are as many different transactions. */
  lemma {:induction false} FailsAreDistinct(run: seq<Try>)
    requires NoRepeats(run)
    ensures |TooLargeSince(run)| == Fails(run) && TooLargeSince(run) <= Since(run)
  {
    if run != [] && !run[|run| - 1].Took? {
      FailsAreDistinct(run[..|run| - 1]);
    }
  }

  /** Giving up happens at the first moment there is a reason to: at 1001 failures exactly. */
  lemma {:induction false} ExhaustedAt(m: Mempool, maxWeight: nat, block: set<nat>, run: seq<Try>)
    requires Graph(m) && block <= m.txs.Keys && run != []
    requires Untiring(m, maxWeight, block, run[..|run| - 1]) && Exhausted(m, maxWeight, block, run)
    ensures Fails(run) == 1001
  {
    hide Sum;
    var before := run[..|run| - 1];
    assert run[|run| - 1].Took? || BlockAfter(m, block, before) == BlockAfter(m, block, run);
    assert Fails(before) <= 1000;
  }

  lemma {:induction false} TooLargeStill(m: Mempool, maxWeight: nat, block: set<nat>, run: seq<Try>, t: nat)
    requires Graph(m) && block <= m.txs.Keys && Faithful(m, maxWeight, block, run) && t in TooLargeSince(run)
    ensures Sensible(m, maxWeight, BlockAfter(m, block, run), TooLarge(t))
  {
    hide Sensible;
    if t == run[|run| - 1].t && run[|run| - 1].TooLarge? {
    } else {
      TooLargeStill(m, maxWeight, block, run[..|run| - 1], t);
    }
  }

  /** The tests of the loop refuse `t` on an entry recorded for this block. */
  ghost predicate RefusedOnRecord(m: Mempool, maxWeight: nat, block: set<nat>, t: nat)
    requires Graph(m) && block <= m.txs.Keys && t in m.txs
  {
    exists e :: Recorded(m, block, e, t) && Refused(m, maxWeight, block, e, t)
  }

  lemma JustifiedRefusal(m: Mempool, maxWeight: nat, block: set<nat>, x: Try)
    requires Sensible(m, maxWeight, block, x) && !x.Took?
    ensures RefusedOnRecord(m, maxWeight, block, x.t)
  {
    hide Sum, Graph, Recorded, AllFinal;
    var e :| Justified(m, maxWeight, block, x, e);
    assert Refused(m, maxWeight, block, e, x.t);
  }

  lemma RefusedOnRecordStays(m: Mempool, maxWeight: nat, block: set<nat>, package: set<nat>, t: nat)
    requires Graph(m) && block <= m.txs.Keys && package <= m.txs.Keys && package !! block && AllFinal(m, package)
    requires t in m.txs && t !in block + package && RefusedOnRecord(m, maxWeight, block, t)
    ensures RefusedOnRecord(m, maxWeight, block + package, t)
  {
    hide Refused, Graph, Sum, AllFinal, Lowered;
    var e :| Recorded(m, block, e, t) && Refused(m, maxWeight, block, e, t);
    RefusedStays(m, maxWeight, block, package, e, t);
    AncestorsIn(m, t);
    var s :| s <= m.ancestors[t] * block && e == Lowered(m, Entry(m.txs[t]), s);
    assert s <= m.ancestors[t] * (block + package);
    assert Recorded(m, block + package, e, t);
  }

  /** Whatever was refused at some time and is not in the block is refused by the block as it is now. */
  lemma {:induction false} RefusalsStand(m: Mempool, maxWeight: nat, block: set<nat>, run: seq<Try>, t: nat)
    requires Graph(m) && block <= m.txs.Keys && Faithful(m, maxWeight, block, run)
    requires t in Refusals(run) && t !in BlockAfter(m, block, run)
    ensures t in m.txs && RefusedOnRecord(m, maxWeight, BlockAfter(m, block, run), t)
  {
    hide RefusedOnRecord, Justified, Graph;
    var before, x := run[..|run| - 1], run[|run| - 1];
    var b := BlockAfter(m, block, before);
    if !x.Took? && t == x.t {
      JustifiedRefusal(m, maxWeight, b, x);
    } else {
      RefusalsStand(m, maxWeight, block, before, t);
      if x.Took? {
        TookIsFinal(m, maxWeight, b, x);
        RefusedOnRecordStays(m, maxWeight, b, Package(m, b, x.t), t);
      }
    }
  }

  lemma TookIsFinal(m: Mempool, maxWeight: nat, block: set<nat>, x: Try)
    requires Sensible(m, maxWeight, block, x) && x.Took?
    ensures Package(m, block, x.t) !! block && AllFinal(m, Package(m, block, x.t))
  {
    var e :| Justified(m, maxWeight, block, x, e);
  }

  /** What the loop knows of its own tries: `left` is still to come. */
  ghost predicate Traced(m: Mempool, maxWeight: nat, from: set<nat>, block: set<nat>, run: seq<Try>,
                         mod: map<nat, Modified>, failed: set<nat>, left: seq<nat>)
  {
    && Graph(m) && from <= m.txs.Keys && block == BlockAfter(m, from, run)
    && Faithful(m, maxWeight, from, run) && NoRepeats(run)
    && Since(run) !! mod.Keys && (forall t :: t in Since(run) ==> t in failed || t !in left)
    && failed <= Refusals(run)
  }

  /** Nothing outside the block and not in hand has been forgotten. */
  ghost predicate Accounted(m: Mempool, block: set<nat>, run: seq<Try>, mod: map<nat, Modified>, left: seq<nat>,
                            hand: set<nat>)
  {
    forall t :: t in m.txs && t !in block && t !in hand ==> t in mod || t in left || t in Refusals(run)
  }

  lemma TracedStart(m: Mempool, maxWeight: nat, block: set<nat>, mod: map<nat, Modified>, order: seq<nat>)
    requires Graph(m) && block <= m.txs.Keys && Lists(order, m.txs.Keys)
    ensures Traced(m, maxWeight, block, block, [], mod, {}, order) && Accounted(m, block, [], mod, order, {})
    ensures Untiring(m, maxWeight, block, []) && Fails([]) == 0
  {
  }

  lemma TracedSkip(m: Mempool, maxWeight: nat, from: set<nat>, block: set<nat>, run: seq<Try>, mod: map<nat, Modified>,
                   failed: set<nat>, order: seq<nat>, mi: nat)
    requires mi < |order| && Traced(m, maxWeight, from, block, run, mod, failed, order[mi..])
    requires Accounted(m, block, run, mod, order[mi..], {})
    ensures Traced(m, maxWeight, from, block, run, mod, failed, order[mi + 1..])
    ensures Accounted(m, block, run, mod, order[mi + 1..], {order[mi]})
    ensures order[mi] in mod || order[mi] in block || order[mi] in failed ==>
              Accounted(m, block, run, mod, order[mi + 1..], {})
  {
    hide Graph, Faithful, NoRepeats, BlockAfter, Since, Refusals;
    assert order[mi..] == [order[mi]] + order[mi + 1..];
  }

  /** Where the next entry to be tried comes from. */
  ghost predicate Chosen(mod: map<nat, Modified>, failed: set<nat>, left: seq<nat>, iter: nat, fUsingModified: bool) {
    if fUsingModified then iter in mod else iter !in mod && iter !in failed && iter !in left
  }

  lemma NotTriedYet(m: Mempool, maxWeight: nat, from: set<nat>, block: set<nat>, run: seq<Try>,
                    mod: map<nat, Modified>, failed: set<nat>, order: seq<nat>, mi: nat, iter: nat)
    requires mi <= |order| && Traced(m, maxWeight, from, block, run, mod, failed, order[mi..])
    requires iter in mod || (iter in order[mi..] && iter !in failed)
    ensures iter !in Since(run)
  {
  }

  lemma TracedRefused(m: Mempool, maxWeight: nat, from: set<nat>, block: set<nat>, run: seq<Try>,
                      mod: map<nat, Modified>, failed: set<nat>, left: seq<nat>, x: Try, fUsingModified: bool)
    requires Traced(m, maxWeight, from, block, run, mod, failed, left) && x.t !in Since(run) && !x.Took?
    requires Accounted(m, block, run, mod, left, Hand(x.t, fUsingModified))
    requires Chosen(mod, failed, left, x.t, fUsingModified) && Sensible(m, maxWeight, block, x)
    ensures var r := if fUsingModified then mod - {x.t} else mod;
            var f := if fUsingModified then failed + {x.t} else failed;
            Traced(m, maxWeight, from, block, run + [x], r, f, left) && Accounted(m, block, run + [x], r, left, {})
  {
    hide Graph, Sensible;
    OneMore(run, x);
  }

  lemma TracedTaken(m: Mempool, maxWeight: nat, from: set<nat>, block: set<nat>, run: seq<Try>,
                    mod: map<nat, Modified>, r: map<nat, Modified>, failed: set<nat>, left: seq<nat>, x: Try,
                    fUsingModified: bool)
    requires Traced(m, maxWeight, from, block, run, mod, failed, left) && x.t !in Since(run) && x.Took?
    requires Accounted(m, block, run, mod, left, Hand(x.t, fUsingModified)) && Sensible(m, maxWeight, block, x)
    requires mod.Keys <= r.Keys + block + Package(m, block, x.t)
    ensures var b := block + Package(m, block, x.t);
            Traced(m, maxWeight, from, b, run + [x], r, failed, left) && Accounted(m, b, run + [x], r, left, {})
  {
    hide Graph, Sensible;
    OneMore(run, x);
    assert x.t in Package(m, block, x.t);
  }

  /** Counting the failures and looking at the weight decides exactly whether to give up. */
  lemma FailsNext(m: Mempool, maxWeight: nat, block: set<nat>, run: seq<Try>, x: Try)
    requires Graph(m) && block <= m.txs.Keys && Untiring(m, maxWeight, block, run)
    ensures Fails(run + [x]) == if x.Took? then 0 else if x.TooLarge? then Fails(run) + 1 else Fails(run)
    ensures Untiring(m, maxWeight, block, run + [x]) <==> !Exhausted(m, maxWeight, block, run + [x])
    ensures x.NotFinal? ==> Untiring(m, maxWeight, block, run + [x])
    ensures x.Took? ==> Untiring(m, maxWeight, block, run + [x])
  {
    hide Sum, Graph;
    OneMore(run, x);
    if x.NotFinal? {
      assert BlockAfter(m, block, run + [x]) == BlockAfter(m, block, run);
    }
  }

  /** The entry the loop looks at is a record, and its verdict is the one the tests give. */
  lemma TriedEntry(m: Mempool, maxWeight: nat, block: set<nat>, mod: map<nat, Modified>, failed: set<nat>,
                   sub: map<nat, set<nat>>, left: seq<nat>, nBlockWeight: nat, nBlockSigOpsCost: nat, x: Try)
    requires Selecting(m, maxWeight, block, mod, failed, sub, left, {}) && x.t in m.txs && x.t !in block
    requires Weighed(m, block, nBlockWeight, nBlockSigOpsCost)
    requires Passes(nBlockWeight, nBlockSigOpsCost, maxWeight, EntryOf(m, mod, x.t)) <==> !x.TooLarge?
    requires !x.TooLarge? ==> (AllFinal(m, Package(m, block, x.t)) <==> x.Took?)
    ensures Sensible(m, maxWeight, block, x)
  {
    hide Sum, AllFinal, Considered, FailedForGood;
    var e := EntryOf(m, mod, x.t);
    assert Tracked(m, block, mod, failed, sub, x.t);
    LoweredNone(m, Entry(m.txs[x.t]));
    var s := if x.t in mod then sub[x.t] else {};
    assert s <= m.ancestors[x.t] * block && e == Lowered(m, Entry(m.txs[x.t]), s);
    assert Justified(m, maxWeight, block, x, e);
  }

  lemma OrderIsPool(order: seq<nat>, elements: set<nat>)
    requires Lists(order, elements)
    ensures forall t :: t in order <==> t in elements
  {
  }

  lemma OnceOnly(order: seq<nat>, elements: set<nat>, mi: nat)
    requires Lists(order, elements) && mi < |order|
    ensures order[mi] !in order[mi + 1..]
  {
  }

  /** One pass of the loop, whatever it decides, adds one try to the run. */
  lemma TracedTry(m: Mempool, maxWeight: nat, from: set<nat>, block: set<nat>, newBlock: set<nat>, run: seq<Try>,
                  mod: map<nat, Modified>, r: map<nat, Modified>, failed: set<nat>, newFailed: set<nat>,
                  order: seq<nat>, mi: nat, next: nat, x: Try, fUsingModified: bool)
    requires mi <= next <= |order| && Lists(order, m.txs.Keys)
    requires Traced(m, maxWeight, from, block, run, mod, failed, order[mi..])
    requires Accounted(m, block, run, mod, order[mi..], {}) && Sensible(m, maxWeight, block, x)
    requires if fUsingModified then x.t in mod && next == mi
             else mi < |order| && x.t == order[mi] && next == mi + 1 && x.t !in mod && x.t !in failed
    requires x.Took? ==>
               newBlock == block + Package(m, block, x.t) && newFailed == failed && mod.Keys <= r.Keys + newBlock
    requires !x.Took? ==>
               && newBlock == block && r == (if fUsingModified then mod - {x.t} else mod)
               && newFailed == (if fUsingModified then failed + {x.t} else failed)
    ensures Traced(m, maxWeight, from, newBlock, run + [x], r, newFailed, order[next..])
    ensures Accounted(m, newBlock, run + [x], r, order[next..], {})
  {
    hide Traced, Accounted, Graph, Sensible, Package, Lists;
    NotTriedYet(m, maxWeight, from, block, run, mod, failed, order, mi, x.t);
    if !fUsingModified {
      TracedSkip(m, maxWeight, from, block, run, mod, failed, order, mi);
      OnceOnly(order, m.txs.Keys, mi);
    }
    if x.Took? {
      TracedTaken(m, maxWeight, from, block, run, mod, r, failed, order[next..], x, fUsingModified);
    } else {
      TracedRefused(m, maxWeight, from, block, run, mod, failed, order[next..], x, fUsingModified);
    }
  }

  lemma ExhaustedIff(m: Mempool, maxWeight: nat, from: set<nat>, block: set<nat>, run: seq<Try>, nBlockWeight: nat,
                     nBlockSigOpsCost: nat)
    requires Graph(m) && from <= m.txs.Keys && block == BlockAfter(m, from, run)
    requires Weighed(m, block, nBlockWeight, nBlockSigOpsCost)
    ensures Exhausted(m, maxWeight, from, run) <==> Fails(run) > 1000 && nBlockWeight > maxWeight - 4000
  {
  }

  lemma TracedRun(m: Mempool, maxWeight: nat, from: set<nat>, block: set<nat>, run: seq<Try>,
                  mod: map<nat, Modified>, failed: set<nat>, left: seq<nat>)
    requires Traced(m, maxWeight, from, block, run, mod, failed, left)
    ensures Graph(m) && from <= m.txs.Keys && Faithful(m, maxWeight, from, run) && NoRepeats(run)
    ensures block == BlockAfter(m, from, run)
  {
  }

  lemma NotExhausted(m: Mempool, maxWeight: nat, from: set<nat>, run: seq<Try>)
    requires Graph(m) && from <= m.txs.Keys && Untiring(m, maxWeight, from, run)
    ensures !Exhausted(m, maxWeight, from, run)
    ensures run == [] || Untiring(m, maxWeight, from, run[..|run| - 1])
  {
  }

  /** What a run that gave up leaves behind. */
  lemma GaveUp(m: Mempool, maxWeight: nat, from: set<nat>, run: seq<Try>)
    requires Graph(m) && from <= m.txs.Keys && NoRepeats(run) && run != []
    requires Untiring(m, maxWeight, from, run[..|run| - 1]) && Exhausted(m, maxWeight, from, run)
    ensures |TooLargeSince(run)| == 1001
  {
    FailsAreDistinct(run);
    ExhaustedAt(m, maxWeight, from, run);
  }

  lemma AllTooLarge(m: Mempool, maxWeight: nat, from: set<nat>, run: seq<Try>)
    requires Graph(m) && from <= m.txs.Keys && Faithful(m, maxWeight, from, run)
    ensures forall t :: t in TooLargeSince(run) ==> Sensible(m, maxWeight, BlockAfter(m, from, run), TooLarge(t))
  {
    forall t | t in TooLargeSince(run)
      ensures Sensible(m, maxWeight, BlockAfter(m, from, run), TooLarge(t))
    {
      TooLargeStill(m, maxWeight, from, run, t);
    }
  }

  /** What a run that came to its end leaves behind. */
  lemma RanOut(m: Mempool, maxWeight: nat, from: set<nat>, block: set<nat>, run: seq<Try>)
    requires Graph(m) && from <= m.txs.Keys && Faithful(m, maxWeight, from, run) && block == BlockAfter(m, from, run)
    requires Accounted(m, block, run, map[], [], {})
    ensures forall t :: t in m.txs && t !in block ==> t in Refusals(run) && RefusedOnRecord(m, maxWeight, block, t)
  {
    hide Graph, Faithful, RefusedOnRecord, BlockAfter, Refusals;
    forall t | t in m.txs && t !in block
      ensures t in Refusals(run) && RefusedOnRecord(m, maxWeight, block, t)
    {
      RefusalsStand(m, maxWeight, from, run, t);
    }
  }

  class BlockAssembler {
    const mempool: Mempool
    const nBlockMaxWeight: nat
    /** The transactions after the coinbase. */
    var vtx: seq<nat>
    var vTxFees: seq<int>
    var vTxSigOpsCost: seq<int>
    var nBlockWeight: nat
    var nBlockTx: nat
    var nBlockSigOpsCost: nat
    var nFees: int
    var inBlock: set<nat>

    constructor (mempool: Mempool, maxWeight: nat)
      requires PoolOk(mempool)
      ensures this.mempool == mempool && Valid() && vtx == []
      ensures 4000 <= nBlockMaxWeight <= 996_000 && (4000 <= maxWeight <= 996_000 ==> nBlockMaxWeight == maxWeight)
      ensures nBlockMaxWeight == if maxWeight < 4000 then 4000
                else if maxWeight > MAX_BLOCK_WEIGHT - 4000 then MAX_BLOCK_WEIGHT - 4000 else maxWeight
    {
      this.mempool := mempool;
      nBlockMaxWeight := if maxWeight < 4000 then 4000
        else if maxWeight > MAX_BLOCK_WEIGHT - 4000 then MAX_BLOCK_WEIGHT - 4000 else maxWeight;
      vtx, inBlock, nBlockTx, nFees := [], {}, 0, 0;
      vTxFees, vTxSigOpsCost := [-1], [-1];
      nBlockWeight, nBlockSigOpsCost := COINBASE_WEIGHT, COINBASE_SIGOPS;
      new;
      SumNone(mempool);
    }

    ghost predicate Built()
      reads this
    {
      && PoolOk(mempool) && COINBASE_WEIGHT <= nBlockMaxWeight <= MAX_BLOCK_WEIGHT - 4000
      && inBlock <= mempool.txs.Keys && Ordered(mempool, vtx, inBlock) && AllFinal(mempool, inBlock)
      && nBlockTx == |vtx|
      && Priced(mempool, vtx, vTxFees, vTxSigOpsCost, nFees)
      && Weighed(mempool, inBlock, nBlockWeight, nBlockSigOpsCost)
    }

    ghost predicate Valid()
      reads this
    {
      Built() && nBlockWeight <= nBlockMaxWeight && nBlockSigOpsCost < MAX_BLOCK_SIGOPS_COST
    }

    /** The whole template: the coinbase's fee slot is settled last, so all fees cancel. */
    method CreateNewBlock(order: seq<nat>, coinbaseSigOps: nat) returns (gaveUp: bool, ghost run: seq<Try>)
      requires Built() && Lists(order, mempool.txs.Keys)
      modifies this
      ensures Valid() && Total(vTxFees) == 0 && vTxFees[0] == -nFees
      ensures vTxSigOpsCost[0] == WITNESS_SCALE_FACTOR * coinbaseSigOps
      ensures nBlockWeight == 4000 + Sum(mempool, Weight, inBlock) <= nBlockMaxWeight <= 996_000
      ensures nBlockSigOpsCost == 400 + Sum(mempool, SigOps, inBlock) < 40_000
      ensures Faithful(mempool, nBlockMaxWeight, {}, run) && NoRepeats(run) && inBlock == BlockAfter(mempool, {}, run)
      ensures gaveUp <==> Exhausted(mempool, nBlockMaxWeight, {}, run)
      ensures run == [] || Untiring(mempool, nBlockMaxWeight, {}, run[..|run| - 1])
      ensures gaveUp ==> nBlockWeight > nBlockMaxWeight - 4000 && |TooLargeSince(run)| == 1001
      ensures forall t :: t in TooLargeSince(run) ==> Sensible(mempool, nBlockMaxWeight, inBlock, TooLarge(t))
      ensures !gaveUp ==> forall t :: t in mempool.txs && t !in inBlock ==>
                t in Refusals(run) && RefusedOnRecord(mempool, nBlockMaxWeight, inBlock, t)
      ensures !gaveUp && ExactSizes(mempool) ==>
                forall t :: t in mempool.txs && t !in inBlock ==> Rejected(mempool, nBlockMaxWeight, inBlock, t)
    {
      hide Cached, Ordered, Priced, Rejected, ExactSizes, AllFinal, Total, Faithful, NoRepeats, BlockAfter, Exhausted,
           Untiring, TooLargeSince, Sensible, Refusals, RefusedOnRecord, Lists, Sum;
      ResetBlock();
      var failed;
      gaveUp, failed, run := AddPackageTxs(order);
      PricedCoinbase(mempool, vtx, vTxFees, vTxSigOpsCost, nFees, WITNESS_SCALE_FACTOR * coinbaseSigOps);
      vTxFees := vTxFees[0 := -nFees];
      vTxSigOpsCost := vTxSigOpsCost[0 := WITNESS_SCALE_FACTOR * coinbaseSigOps];
    }

    /** Clears the block, leaving room for the coinbase. */
    method ResetBlock()
      requires Built()
      modifies this
      ensures Valid() && vtx == [] && inBlock == {}
    {
      vtx, inBlock, nBlockTx, nFees := [], {}, 0, 0;
      vTxFees, vTxSigOpsCost := [-1], [-1];
      nBlockWeight, nBlockSigOpsCost := COINBASE_WEIGHT, COINBASE_SIGOPS;
      SumNone(mempool);
    }

    predicate TestPackage(packageSize: int, packageSigOpsCost: int)
      reads this
    {
      Passes(nBlockWeight, nBlockSigOpsCost, nBlockMaxWeight, Modified(packageSize, packageSigOpsCost))
    }

    predicate SkipMapTxEntry(it: nat, mod: map<nat, Modified>, failed: set<nat>)
      reads this
    {
      it in mod || it in inBlock || it in failed
    }

    function OnlyUnconfirmed(testSet: set<nat>): (r: set<nat>)
      reads this
    {
      testSet - inBlock
    }

    method AddToBlock(iter: nat)
      requires Built() && iter in mempool.txs && iter !in inBlock && mempool.ancestors[iter] <= inBlock
      requires mempool.txs[iter].isFinal
      modifies this
      ensures Built() && inBlock == old(inBlock) + {iter} && vtx == old(vtx) + [iter]
    {
      hide Cached, Ordered, Priced, Weighed, Graph, PoolOk, AllFinal;
      Graphs();
      OneMoreFinal(mempool, inBlock, iter);
      OrderedAppend(mempool, vtx, inBlock, iter);
      PricedAppend(mempool, vtx, vTxFees, vTxSigOpsCost, nFees, iter);
      WeighedAppend(mempool, inBlock, nBlockWeight, nBlockSigOpsCost, iter);
      var tx := mempool.txs[iter];
      vtx := vtx + [iter];
      vTxFees := vTxFees + [tx.fee];
      vTxSigOpsCost := vTxSigOpsCost + [tx.sigOps];
      nBlockWeight := nBlockWeight + tx.weight;
      nBlockTx := nBlockTx + 1;
      nBlockSigOpsCost := nBlockSigOpsCost + tx.sigOps;
      nFees := nFees + tx.fee;
      inBlock := inBlock + {iter};
    }

    lemma Graphs()
      requires Built()
      ensures PoolOk(mempool) && Graph(mempool) && inBlock <= mempool.txs.Keys
    {
    }

    /** Adds a sorted package and erases its members from the modified entries. */
    method AddSorted(ghost t: nat, sorted: seq<nat>, mod: map<nat, Modified>) returns (r: map<nat, Modified>)
      requires Built() && t in mempool.txs && t !in inBlock
      requires Lists(sorted, Package(mempool, inBlock, t)) && SortedBy(mempool, sorted)
      requires AllFinal(mempool, Package(mempool, inBlock, t))
      modifies this
      ensures Built() && inBlock == old(inBlock) + Package(mempool, old(inBlock), t) && vtx == old(vtx) + sorted
      ensures r == mod - Package(mempool, old(inBlock), t)
    {
      hide Built, SortedBy, PoolOk, Graph, Package, Lists, AllFinal, Members;
      Graphs();
      MembersNone(sorted, mod, inBlock);
      r := mod;
      for i := 0 to |sorted|
        invariant Built() && vtx == old(vtx) + sorted[..i]
        invariant inBlock == old(inBlock) + Members(sorted[..i])
        invariant r == mod - Members(sorted[..i])
      {
        Graphs();
        NextIsReady(mempool, old(inBlock), t, sorted, i);
        MembersNext(sorted, i);
        AddToBlock(sorted[i]);
        r := r - {sorted[i]};
      }
      assert sorted[..|sorted|] == sorted;
      MembersAll(sorted, Package(mempool, old(inBlock), t));
    }

    /** Adds the package of `t` if every member is final. */
    method TakePackage(t: nat, mod: map<nat, Modified>, ghost failed: set<nat>, ghost sub: map<nat, set<nat>>,
                       ghost left: seq<nat>, ghost hand: set<nat>)
      returns (taken: bool, r: map<nat, Modified>, ghost newSub: map<nat, set<nat>>)
      requires Valid() && t in mempool.txs && t !in inBlock && hand <= {t}
      requires Selecting(mempool, nBlockMaxWeight, inBlock, mod, failed, sub, left, hand)
      requires Within(mempool, nBlockMaxWeight, inBlock + Package(mempool, inBlock, t))
      modifies this
      ensures Valid()
      ensures Selecting(mempool, nBlockMaxWeight, inBlock, r, failed, newSub, left, if taken then {} else hand)
      ensures taken <==> AllFinal(mempool, Package(mempool, old(inBlock), t))
      ensures taken ==> inBlock == old(inBlock) + Package(mempool, old(inBlock), t) && old(vtx) <= vtx
      ensures taken ==> mempool.txs.Keys - inBlock < mempool.txs.Keys - old(inBlock) && mod.Keys <= r.Keys + inBlock
      ensures !taken ==>
                unchanged(this) && r == mod && newSub == sub
    {
      hide Cached, Ordered, Priced, Selecting, SortedBy, Lists, LoweredAt, SameAt, Fits, NextSub, Sum;
      var ancestors := OnlyUnconfirmed(mempool.ancestors[t]) + {t};
      assert ancestors == Package(mempool, inBlock, t);
      if !AllFinal(mempool, ancestors) {
        return false, mod, sub;
      }
      SelectedIsNew(mempool, nBlockMaxWeight, inBlock, mod, failed, sub, left, hand);
      var sorted := SortForBlock(mempool, ancestors);
      var less := AddSorted(t, sorted, mod);
      r := UpdatePackagesForAdded(mempool, ancestors, less);
      newSub := NextSub(mempool, mod, sub, ancestors);
      LoweredKeeps(mempool, mod, less, r, ancestors);
      SelectTake(mempool, nBlockMaxWeight, old(vtx), old(inBlock), ancestors, mod, less, r, failed, sub, left, hand);
      taken := true;
    }

    lemma Weighs()
      requires Valid()
      ensures PoolOk(mempool) && Weighed(mempool, inBlock, nBlockWeight, nBlockSigOpsCost)
      ensures Graph(mempool) && inBlock <= mempool.txs.Keys
    {
    }

    /** The entries that packages already in the block leave modified. */
    method StartSelection(order: seq<nat>) returns (mod: map<nat, Modified>)
      requires Valid() && forall t :: t in order <==> t in mempool.txs
      ensures Selecting(mempool, nBlockMaxWeight, inBlock, mod, {}, NextSub(mempool, map[], map[], inBlock), order, {})
    {
      hide Cached, Priced, Weighed, Selecting, LoweredAt, SameAt, NextSub, AllFinal, Linked;
      mod := UpdatePackagesForAdded(mempool, inBlock, map[]);
      SelectStart(mempool, nBlockMaxWeight, vtx, inBlock, mod, order);
    }

    /** The next entry to try: the modified one or the next of the mempool, whichever ranks higher. */
    method Choose(order: seq<nat>, mi: nat, mod: map<nat, Modified>, failed: set<nat>, ghost sub: map<nat, set<nat>>)
      returns (iter: nat, fUsingModified: bool, next: nat)
      requires mi <= |order| && (mi == |order| ==> mod != map[]) && forall t :: t in order ==> t in mempool.txs
      requires mi < |order| ==> !SkipMapTxEntry(order[mi], mod, failed)
      requires Selecting(mempool, nBlockMaxWeight, inBlock, mod, failed, sub, order[mi..], {})
      ensures iter in mempool.txs && iter !in inBlock && mi <= next <= |order|
      ensures Selecting(mempool, nBlockMaxWeight, inBlock, mod, failed, sub, order[next..], Hand(iter, fUsingModified))
      ensures if fUsingModified then iter in mod && next == mi
              else mi < |order| && iter == order[mi] && next == mi + 1 && iter !in mod && iter !in failed
    {
      hide Selecting, NextSub;
      SelectedIsNew(mempool, nBlockMaxWeight, inBlock, mod, failed, sub, order[mi..], {});
      var better := *;
      if mi == |order| || (mod != map[] && better) {
        iter :| iter in mod;
        return iter, true, mi;
      }
      SelectSkip(mempool, nBlockMaxWeight, inBlock, mod, failed, sub, order, mi);
      return order[mi], false, mi + 1;
    }

    /** Tries one entry: takes its package, or notes a modified entry as failed. */
    method Attempt(iter: nat, fUsingModified: bool, mod: map<nat, Modified>, failed: set<nat>,
                   ghost sub: map<nat, set<nat>>, ghost left: seq<nat>)
      returns (fits: bool, taken: bool, r: map<nat, Modified>, newFailed: set<nat>, ghost newSub: map<nat, set<nat>>)
      requires Valid() && iter in mempool.txs && iter !in inBlock
      requires Selecting(mempool, nBlockMaxWeight, inBlock, mod, failed, sub, left, Hand(iter, fUsingModified))
      requires if fUsingModified then iter in mod else iter !in mod && iter !in failed
      modifies this
      ensures Valid() && old(vtx) <= vtx
      ensures Selecting(mempool, nBlockMaxWeight, inBlock, r, newFailed, newSub, left, {})
      ensures fits <==>
                Passes(old(nBlockWeight), old(nBlockSigOpsCost), nBlockMaxWeight, EntryOf(mempool, mod, iter))
      ensures taken <==> fits && AllFinal(mempool, Package(mempool, old(inBlock), iter))
      ensures taken ==>
                && inBlock == old(inBlock) + Package(mempool, old(inBlock), iter) && newFailed == failed
                && mempool.txs.Keys - inBlock < mempool.txs.Keys - old(inBlock) && mod.Keys <= r.Keys + inBlock
      ensures !taken ==>
                && unchanged(this) && r == (if fUsingModified then mod - {iter} else mod)
                && newFailed == (if fUsingModified then failed + {iter} else failed)
    {
      hide Built, Selecting, NextSub, Rejected, Refused, Within, AllFinal, Package, Graph;
      ghost var hand := Hand(iter, fUsingModified);
      var e := if fUsingModified then mod[iter] else Entry(mempool.txs[iter]);
      Weighs();
      TestedEntry(mempool, nBlockMaxWeight, inBlock, mod, failed, sub, left, hand, iter, nBlockWeight,
                  nBlockSigOpsCost);
      fits, taken := TestPackage(e.size, e.sigOps), false;
      if fits {
        taken, r, newSub := TakePackage(iter, mod, failed, sub, left, hand);
        if taken {
          return true, true, r, failed, newSub;
        }
        NotFinalIsRefused(mempool, nBlockMaxWeight, inBlock, e, iter);
      }
      SelectFail(mempool, nBlockMaxWeight, inBlock, mod, failed, sub, left, hand, iter);
      r, newFailed, newSub := mod, failed, sub;
      if fUsingModified {
        r, newFailed := mod - {iter}, failed + {iter};
      }
    }

    /** One pass through the loop: the entry chosen is taken or refused, and the run is longer by that try. */
    method TryNext(order: seq<nat>, mi: nat, mod: map<nat, Modified>, failed: set<nat>, ghost sub: map<nat, set<nat>>,
                   ghost from: set<nat>, ghost run: seq<Try>)
      returns (fits: bool, taken: bool, r: map<nat, Modified>, newFailed: set<nat>, next: nat,
               ghost newSub: map<nat, set<nat>>, ghost x: Try)
      requires Valid() && mi <= |order| && Lists(order, mempool.txs.Keys)
      requires mi == |order| ==> mod != map[]
      requires mi < |order| ==> !SkipMapTxEntry(order[mi], mod, failed)
      requires Selecting(mempool, nBlockMaxWeight, inBlock, mod, failed, sub, order[mi..], {})
      requires Traced(mempool, nBlockMaxWeight, from, inBlock, run, mod, failed, order[mi..])
      requires Accounted(mempool, inBlock, run, mod, order[mi..], {})
      modifies this
      ensures Valid() && old(vtx) <= vtx && mi <= next <= |order|
      ensures Selecting(mempool, nBlockMaxWeight, inBlock, r, newFailed, newSub, order[next..], {})
      ensures Traced(mempool, nBlockMaxWeight, from, inBlock, run + [x], r, newFailed, order[next..])
      ensures Accounted(mempool, inBlock, run + [x], r, order[next..], {})
      ensures (x.TooLarge? <==> !fits) && (x.Took? <==> taken)
      ensures taken ==> mempool.txs.Keys - inBlock < mempool.txs.Keys - old(inBlock)
      ensures !taken ==> unchanged(this) && (next == mi ==> |r| < |mod|)
    {
      hide Selecting, Built, Rejected, Graph, Lists, Traced, Accounted, Sensible, Passes, Package, AllFinal, NextSub;
      Weighs();
      OrderIsPool(order, mempool.txs.Keys);
      var iter, fUsingModified;
      iter, fUsingModified, next := Choose(order, mi, mod, failed, sub);
      fits, taken, r, newFailed, newSub := Attempt(iter, fUsingModified, mod, failed, sub, order[next..]);
      x := if !fits then TooLarge(iter) else if taken then Took(iter) else NotFinal(iter);
      TriedEntry(mempool, nBlockMaxWeight, old(inBlock), mod, failed, sub, order[mi..], old(nBlockWeight),
                 old(nBlockSigOpsCost), x);
      TracedTry(mempool, nBlockMaxWeight, from, old(inBlock), inBlock, run, mod, r, failed, newFailed, order, mi, next,
                x, fUsingModified);
      if fUsingModified && !taken {
        EraseOne(mod, iter);
      }
    }

    /**
     * Selects packages, best first by any ordering, until none is left or the block is nearly full.
     * `order` is the mempool sorted by ancestor score; `run` lists the tries.
     */
    method AddPackageTxs(order: seq<nat>) returns (gaveUp: bool, failed: set<nat>, ghost run: seq<Try>)
      requires Valid() && Lists(order, mempool.txs.Keys)
      modifies this
      ensures Valid() && old(vtx) <= vtx && FailedForGood(mempool, nBlockMaxWeight, inBlock, failed)
      ensures Faithful(mempool, nBlockMaxWeight, old(inBlock), run) && NoRepeats(run)
      ensures inBlock == BlockAfter(mempool, old(inBlock), run)
      // It gives up at the first reason to, and then 1001 transactions in a row were found too large.
      ensures gaveUp <==> Exhausted(mempool, nBlockMaxWeight, old(inBlock), run)
      ensures run == [] || Untiring(mempool, nBlockMaxWeight, old(inBlock), run[..|run| - 1])
      ensures gaveUp ==> nBlockWeight > nBlockMaxWeight - 4000 && |TooLargeSince(run)| == 1001
      ensures forall t :: t in TooLargeSince(run) ==> Sensible(mempool, nBlockMaxWeight, inBlock, TooLarge(t))
      // Otherwise everything outside the block was tried, and the final block refuses it.
      ensures !gaveUp ==> forall t :: t in mempool.txs && t !in inBlock ==>
                t in Refusals(run) && RefusedOnRecord(mempool, nBlockMaxWeight, inBlock, t)
      ensures !gaveUp && ExactSizes(mempool) ==>
                forall t :: t in mempool.txs && t !in inBlock ==> Rejected(mempool, nBlockMaxWeight, inBlock, t)
    {
      hide Selecting, Built, Rejected, NextSub, ExactSizes, FailedForGood, LoweredAt, SameAt, Graph, Lists, Traced,
           Accounted, Exhausted, Untiring, Faithful, NoRepeats, Sensible, RefusedOnRecord, Passes, Package, AllFinal,
           Chosen, BlockAfter, Fails, TooLargeSince, Refusals, Since;
      failed, run := {}, [];
      Weighs();
      ghost var from := inBlock;
      ghost var sub := NextSub(mempool, map[], map[], inBlock);
      OrderIsPool(order, mempool.txs.Keys);
      var mod := StartSelection(order);
      var mi, nConsecutiveFailed := 0, 0;
      assert order[mi..] == order;
      TracedStart(mempool, nBlockMaxWeight, from, mod, order);
      while mi < |order| || mod != map[]
        invariant Valid() && mi <= |order| && old(vtx) <= vtx
        invariant Selecting(mempool, nBlockMaxWeight, inBlock, mod, failed, sub, order[mi..], {})
        invariant Traced(mempool, nBlockMaxWeight, from, inBlock, run, mod, failed, order[mi..])
        invariant Accounted(mempool, inBlock, run, mod, order[mi..], {})
        invariant Untiring(mempool, nBlockMaxWeight, from, run) && nConsecutiveFailed == Fails(run)
        decreases mempool.txs.Keys - inBlock, |order| - mi, |mod|
      {
        if mi < |order| && SkipMapTxEntry(order[mi], mod, failed) {
          SelectSkip(mempool, nBlockMaxWeight, inBlock, mod, failed, sub, order, mi);
          TracedSkip(mempool, nBlockMaxWeight, from, inBlock, run, mod, failed, order, mi);
          mi := mi + 1;
          continue;
        }
        ghost var x;
        var fits, taken;
        fits, taken, mod, failed, mi, sub, x := TryNext(order, mi, mod, failed, sub, from, run);
        FailsNext(mempool, nBlockMaxWeight, from, run, x);
        run := run + [x];
        if taken {
          nConsecutiveFailed := 0;
        } else if !fits {
          nConsecutiveFailed := nConsecutiveFailed + 1;
          Weighs();
          TracedRun(mempool, nBlockMaxWeight, from, inBlock, run, mod, failed, order[mi..]);
          ExhaustedIff(mempool, nBlockMaxWeight, from, inBlock, run, nBlockWeight, nBlockSigOpsCost);
          if nConsecutiveFailed > MAX_CONSECUTIVE_FAILURES && nBlockWeight > nBlockMaxWeight - 4000 {
            SelectedFailed(mempool, nBlockMaxWeight, inBlock, mod, failed, sub, order[mi..], {});
            OneMore(run[..|run| - 1], x);
            GaveUp(mempool, nBlockMaxWeight, from, run);
            AllTooLarge(mempool, nBlockMaxWeight, from, run);
            return true, failed, run;
          }
        }
      }
      gaveUp := false;
      SelectedFailed(mempool, nBlockMaxWeight, inBlock, mod, failed, sub, order[mi..], {});
      assert order[mi..] == [];
      TracedRun(mempool, nBlockMaxWeight, from, inBlock, run, mod, failed, order[mi..]);
      AllTooLarge(mempool, nBlockMaxWeight, from, run);
      RanOut(mempool, nBlockMaxWeight, from, inBlock, run);
      NotExhausted(mempool, nBlockMaxWeight, from, run);
      if ExactSizes(mempool) {
        SelectEnd(mempool, nBlockMaxWeight, inBlock, failed, sub);
      }
    }
  }

  ghost function Members(s: seq<nat>): (r: set<nat>)
    ensures forall x :: x in r <==> x in s
  {
    set x | x in s
  }

  lemma MembersNone(s: seq<nat>, mod: map<nat, Modified>, block: set<nat>)
    ensures mod - Members(s[..0]) == mod && block + Members(s[..0]) == block
  {
  }

  lemma MembersAll(s: seq<nat>, elements: set<nat>)
    requires Lists(s, elements)
    ensures Members(s) == elements
  {
  }

  lemma MembersNext(s: seq<nat>, i: nat)
    requires i < |s|
    ensures Members(s[..i + 1]) == Members(s[..i]) + {s[i]} && s[..i + 1] == s[..i] + [s[i]]
  {
  }

  lemma OneMoreFinal(m: Mempool, block: set<nat>, x: nat)
    requires block <= m.txs.Keys && x in m.txs && m.txs[x].isFinal && AllFinal(m, block)
    ensures AllFinal(m, block + {x})
  {
  }

  /** The next member of a sorted package may be added. */
  lemma NextIsReady(m: Mempool, block: set<nat>, t: nat, sorted: seq<nat>, i: nat)
    requires PoolOk(m) && t in m.txs && t !in block && i < |sorted| && AllFinal(m, Package(m, block, t))
    requires Lists(sorted, Package(m, block, t)) && SortedBy(m, sorted)
    ensures var x, before := sorted[i], block + Members(sorted[..i]);
            x in m.txs && x in m.ancestors && x !in before && m.ancestors[x] <= before && m.txs[x].isFinal
  {
    hide Cached, SortedBy, Linked;
    AncestorsReady(m, block, t, sorted, i);
    assert sorted[i] in sorted && sorted[i] in Package(m, block, t);
    AncestorsIn(m, sorted[i]);
  }
}
