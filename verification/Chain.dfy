/** The block tree with its skip list (`CBlockIndex`) and the active chain (`CChain`). */
module Chain {
  import opened Numbers
  import opened SkipHeights

  // ----- Blocks -----

  class BlockIndex {
    const pprev: BlockIndex?
    const nHeight: nat
    const hash: nat
    var pskip: BlockIndex?

    constructor (pprev: BlockIndex?, hash: nat)
      ensures this.pprev == pprev && this.hash == hash && pskip == null
      ensures nHeight == if pprev == null then 0 else pprev.nHeight + 1
    {
      this.pprev, this.hash, pskip := pprev, hash, null;
      nHeight := if pprev == null then 0 else pprev.nHeight + 1;
    }

    /**
      The ancestor at a height by the skip list; null outside the chain's heights. Where every block has its skip
      pointer, no walk among the first 2^18 blocks follows more than 110 pointers.
     */
    method GetAncestor(height: int, ghost blocks: set<BlockIndex>) returns (r: BlockIndex?, ghost steps: nat)
      requires TreeOk(blocks) && this in blocks
      ensures if 0 <= height <= nHeight then r == Walk(this, height) && r in blocks else r == null
      ensures AllSkip(blocks) && 0 <= height <= nHeight ==> steps == Steps(nHeight, height)
      ensures AllSkip(blocks) && nHeight <= 0x4_0000 ==> steps <= 110
    {
      hide Walk, TreeOk, GetSkipHeight, Steps, AllSkip;
      steps := 0;
      if height > nHeight || height < 0 {
        return null, 0;
      }
      var pindexWalk: BlockIndex := this;
      var heightWalk := nHeight;
      while heightWalk > height
        invariant height <= heightWalk == pindexWalk.nHeight && pindexWalk in blocks
        invariant Walk(pindexWalk, height) == Walk(this, height)
        invariant AllSkip(blocks) ==> steps + Steps(heightWalk, height) == Steps(nHeight, height)
      {
        OneStep(heightWalk, height);
        SkipLands(blocks, pindexWalk);
        steps := steps + 1;
        var heightSkip := GetSkipHeight(heightWalk);
        var heightSkipPrev := GetSkipHeight(heightWalk - 1);
        if pindexWalk.pskip != null
          && (heightSkip == height
              || (heightSkip > height && !(heightSkipPrev < heightSkip - 2 && heightSkipPrev >= height))) {
          WalkTwice(blocks, pindexWalk, heightSkip, height);
          pindexWalk := pindexWalk.pskip;
          heightWalk := heightSkip;
        } else {
          ParentIs(blocks, pindexWalk);
          WalkTwice(blocks, pindexWalk, heightWalk - 1, height);
          pindexWalk := pindexWalk.pprev;
          heightWalk := heightWalk - 1;
        }
      }
      WalkNowhere(pindexWalk);
      StepsAtMost(height, height);
      r := pindexWalk;
      if nHeight <= 0x4_0000 {
        DocumentedBound(nHeight, height);
      }
    }

    method BuildSkip(ghost blocks: set<BlockIndex>)
      requires TreeOk(blocks) && this !in blocks && Linked(blocks, this) && pskip == null
      modifies this
      ensures TreeOk(blocks + {this}) && (pprev != null ==> pskip == Walk(this, GetSkipHeight(nHeight)))
    {
      if pprev != null {
        var skip, _ := pprev.GetAncestor(GetSkipHeight(nHeight), blocks);
        pskip := skip;
      }
    }
  }

  /** The plain parent walk down to a height. */
  function Walk(b: BlockIndex, height: int): BlockIndex
    decreases b.nHeight
  {
    if b.nHeight <= height || b.pprev == null || b.pprev.nHeight >= b.nHeight then b else Walk(b.pprev, height)
  }

  ghost predicate Linked(blocks: set<BlockIndex>, b: BlockIndex) {
    if b.pprev == null then b.nHeight == 0 else b.pprev in blocks && b.nHeight == b.pprev.nHeight + 1
  }

  /** Parents are present, heights count from genesis, and skip pointers point where they should. */
  ghost predicate TreeOk(blocks: set<BlockIndex>)
    reads blocks
  {
    forall b :: b in blocks ==>
      && Linked(blocks, b)
      && (b.pskip != null ==> b.pskip in blocks && b.pskip == Walk(b, GetSkipHeight(b.nHeight)))
  }

  /** Every block but genesis has its skip pointer. */
  ghost predicate AllSkip(blocks: set<BlockIndex>)
    reads blocks
  {
    forall b :: b in blocks && b.pprev != null ==> b.pskip != null
  }

  lemma {:induction false} WalkHeight(blocks: set<BlockIndex>, b: BlockIndex, height: nat)
    requires TreeOk(blocks) && b in blocks
    ensures Walk(b, height) in blocks && Walk(b, height).nHeight == if height <= b.nHeight then height else b.nHeight
    decreases b.nHeight
  {
    if b.nHeight > height {
      WalkHeight(blocks, b.pprev, height);
    }
  }

  /** Where the skip pointer of a block leads. */
  lemma SkipLands(blocks: set<BlockIndex>, b: BlockIndex)
    requires TreeOk(blocks) && b in blocks && b.nHeight > 0
    ensures AllSkip(blocks) ==> b.pskip != null
    ensures b.pskip != null ==>
              && b.pskip in blocks && b.pskip.nHeight == GetSkipHeight(b.nHeight)
              && b.pskip == Walk(b, GetSkipHeight(b.nHeight))
  {
    hide Walk, GetSkipHeight;
    WalkHeight(blocks, b, GetSkipHeight(b.nHeight));
  }

  /** Walking in two stretches is walking once. */
  lemma {:induction false} WalkTwice(blocks: set<BlockIndex>, b: BlockIndex, mid: int, height: int)
    requires TreeOk(blocks) && b in blocks && height <= mid
    ensures Walk(Walk(b, mid), height) == Walk(b, height)
    decreases b.nHeight
  {
    if b.nHeight > mid && b.pprev != null {
      WalkTwice(blocks, b.pprev, mid, height);
    }
  }

  lemma ParentIs(blocks: set<BlockIndex>, b: BlockIndex)
    requires TreeOk(blocks) && b in blocks
    ensures if b.nHeight == 0 then b.pprev == null
            else
              && b.pprev != null && b.pprev in blocks && b.pprev.nHeight == b.nHeight - 1
              && Walk(b, b.nHeight - 1) == b.pprev
  {
    assert Linked(blocks, b);
    if b.pprev != null {
      WalkNowhere(b.pprev);
    }
  }

  /** One more step of a walk is the parent. */
  lemma StepDown(blocks: set<BlockIndex>, b: BlockIndex, height: nat)
    requires TreeOk(blocks) && b in blocks && height <= b.nHeight
    ensures var p := Walk(b, height);
            && p in blocks && p.nHeight == height
            && if height == 0 then p.pprev == null
               else
                 && p.pprev != null && p.pprev == Walk(b, height - 1) && p.pprev in blocks
                 && p.pprev.nHeight == height - 1
  {
    hide Walk, TreeOk;
    WalkHeight(blocks, b, height);
    ParentIs(blocks, Walk(b, height));
    WalkTwice(blocks, b, height, height - 1);
  }

  lemma WalkNowhere(b: BlockIndex)
    ensures Walk(b, b.nHeight) == b
  {
  }

  /** A tree grown by appending blocks. */
  class BlockTree {
    ghost var blocks: set<BlockIndex>

    ghost predicate Valid()
      reads this, blocks
    {
      TreeOk(blocks) && AllSkip(blocks)
    }

    constructor ()
      ensures Valid() && blocks == {}
    {
      blocks := {};
    }

    method Append(pprev: BlockIndex?, hash: nat) returns (b: BlockIndex)
      requires Valid() && (pprev != null ==> pprev in blocks)
      modifies this
      ensures Valid() && fresh(b) && blocks == old(blocks) + {b} && b.pprev == pprev && b.hash == hash
      ensures pprev != null ==> b.pskip == Walk(b, GetSkipHeight(b.nHeight))
    {
      b := new BlockIndex(pprev, hash);
      b.BuildSkip(blocks);
      blocks := blocks + {b};
    }
  }

  // ----- The active chain -----

  /** A complete chain: at each height the ancestor of the last entry. */
  ghost predicate Complete(vChain: seq<BlockIndex?>, blocks: set<BlockIndex>) {
    && (forall i :: 0 <= i < |vChain| ==> vChain[i] != null && vChain[i] in blocks && vChain[i].nHeight == i)
    && (forall i :: 0 < i < |vChain| ==> vChain[i].pprev == vChain[i - 1])
  }

  /** Below an entry, a complete chain is its parent walk. */
  lemma {:induction false} CompleteWalk(vChain: seq<BlockIndex?>, blocks: set<BlockIndex>, i: nat, j: nat)
    requires TreeOk(blocks) && Complete(vChain, blocks) && j <= i < |vChain|
    ensures Walk(vChain[i], j) == vChain[j]
    decreases i
  {
    if j < i {
      CompleteWalk(vChain, blocks, i - 1, j);
    }
  }

  /** The parent walk of a block is a complete chain. */
  lemma WalkComplete(vChain: seq<BlockIndex?>, blocks: set<BlockIndex>, tip: BlockIndex)
    requires TreeOk(blocks) && tip in blocks && |vChain| == tip.nHeight + 1
    requires forall i :: 0 <= i < |vChain| ==> vChain[i] == Walk(tip, i)
    ensures Complete(vChain, blocks)
  {
    forall i | 0 <= i < |vChain|
      ensures vChain[i] in blocks && vChain[i].nHeight == i && (0 < i ==> vChain[i].pprev == vChain[i - 1])
    {
      WalkHeight(blocks, tip, i);
      if 0 < i {
        WalkTwice(blocks, tip, i, i - 1);
        assert Walk(vChain[i].pprev, i - 1) == vChain[i].pprev;
      }
    }
  }

  lemma NothingComplete(blocks: set<BlockIndex>)
    ensures Complete([], blocks)
  {
  }

  lemma TipInBlocks(vChain: seq<BlockIndex?>, blocks: set<BlockIndex>)
    requires Complete(vChain, blocks)
    ensures forall i :: 0 <= i < |vChain| ==> vChain[i] != null && vChain[i] in blocks
  {
  }

  class CChain {
    var vChain: seq<BlockIndex?>

    constructor ()
      ensures vChain == []
    {
      vChain := [];
    }

    function At(nHeight: int): BlockIndex?
      reads this
    {
      if nHeight < 0 || nHeight >= |vChain| then null else vChain[nHeight]
    }

    function Tip(): BlockIndex?
      reads this
    {
      if |vChain| > 0 then vChain[|vChain| - 1] else null
    }

    predicate Contains(pindex: BlockIndex)
      reads this
    {
      At(pindex.nHeight) == pindex
    }

    function Height(): int
      reads this
    {
      |vChain| - 1
    }

    /** Fills in the chain from the tip down and stops at the first entry that is already right. */
    method SetTip(tip: BlockIndex?, ghost blocks: set<BlockIndex>)
      requires TreeOk(blocks) && Complete(vChain, blocks) && (tip != null ==> tip in blocks)
      modifies this
      ensures Complete(vChain, blocks)
      ensures if tip == null then vChain == []
              else |vChain| == tip.nHeight + 1 && forall i :: 0 <= i < |vChain| ==> vChain[i] == Walk(tip, i)
    {
      hide Walk, TreeOk, Complete;
      if tip == null {
        NothingComplete(blocks);
        vChain := [];
        return;
      }
      ghost var was := vChain;
      WalkNowhere(tip);
      vChain := if |vChain| > tip.nHeight + 1 then vChain[..tip.nHeight + 1]
                else vChain + seq(tip.nHeight + 1 - |vChain|, _ => null);
      var pindex: BlockIndex? := tip;
      var next := tip.nHeight;
      while pindex != null && vChain[pindex.nHeight] != pindex
        invariant |vChain| == tip.nHeight + 1 && -1 <= next <= tip.nHeight
        invariant if next < 0 then pindex == null
                    else pindex == Walk(tip, next) && pindex in blocks && pindex.nHeight == next
        invariant forall i :: next < i < |vChain| ==> vChain[i] == Walk(tip, i)
        invariant forall i :: 0 <= i <= next ==> vChain[i] == if i < |was| then was[i] else null
        decreases next
      {
        vChain := vChain[pindex.nHeight := pindex];
        StepDown(blocks, tip, next);
        pindex := pindex.pprev;
        next := next - 1;
      }
      if pindex != null {
        forall i | 0 <= i <= next
          ensures vChain[i] == Walk(tip, i)
        {
          CompleteWalk(was, blocks, next, i);
          WalkTwice(blocks, tip, next, i);
        }
      }
      WalkComplete(vChain, blocks, tip);
    }

    /** The highest ancestor of a block that is in the chain. */
    method FindFork(block: BlockIndex?, ghost blocks: set<BlockIndex>) returns (r: BlockIndex?)
      requires TreeOk(blocks) && Complete(vChain, blocks) && (block != null ==> block in blocks)
      ensures r != null ==> block != null && r.nHeight <= block.nHeight && r == Walk(block, r.nHeight) && Contains(r)
      ensures block != null ==>
                forall h :: (if r == null then 0 else r.nHeight + 1) <= h <= block.nHeight ==> !Contains(Walk(block, h))
    {
      hide Walk, TreeOk, Complete;
      if block == null {
        return null;
      }
      WalkNowhere(block);
      var pindex: BlockIndex? := block;
      ghost var next: int := block.nHeight;
      forall h: nat | Height() < h <= block.nHeight
        ensures !Contains(Walk(block, h))
      {
        WalkHeight(blocks, block, h);
      }
      if block.nHeight > Height() {
        ghost var steps;
        pindex, steps := block.GetAncestor(Height(), blocks);
        next := Height();
        if next >= 0 {
          WalkHeight(blocks, block, next);
        }
      }
      while pindex != null && !Contains(pindex)
        invariant -1 <= next <= block.nHeight
        invariant if next < 0 then pindex == null
                    else pindex == Walk(block, next) && pindex in blocks && pindex.nHeight == next
        invariant forall h :: next < h <= block.nHeight ==> !Contains(Walk(block, h))
        decreases next
      {
        StepDown(blocks, block, next);
        pindex := pindex.pprev;
        next := next - 1;
      }
      r := pindex;
    }

    /** The ancestor at a height, from the chain where it has the block and by the skip list elsewhere. */
    method Below(pindex: BlockIndex, nHeight: nat, ghost blocks: set<BlockIndex>) returns (r: BlockIndex)
      requires TreeOk(blocks) && Complete(vChain, blocks) && pindex in blocks && nHeight <= pindex.nHeight
      ensures r == Walk(pindex, nHeight) && r in blocks && r.nHeight == nHeight
    {
      hide Walk, TreeOk, Complete;
      WalkHeight(blocks, pindex, nHeight);
      if Contains(pindex) {
        CompleteWalk(vChain, blocks, pindex.nHeight, nHeight);
        r := At(nHeight);
      } else {
        var ancestor, _ := pindex.GetAncestor(nHeight, blocks);
        r := ancestor;
      }
    }

    /** Hashes back to genesis: single steps first, then steps that double. */
    method GetLocator(start: BlockIndex?, ghost blocks: set<BlockIndex>) returns (vHave: seq<nat>)
      requires TreeOk(blocks) && Complete(vChain, blocks) && (start != null ==> start in blocks)
      ensures var from := if start != null then start else Tip();
              if from == null then vHave == []
              else vHave == HashesAt(from, LocatorHeights(from.nHeight, 0))
    {
      hide Walk, TreeOk, Complete, LocatorHeights, HashesAt;
      vHave := [];
      NoHashes();
      TipInBlocks(vChain, blocks);
      var pindex := if start != null then start else Tip();
      if pindex == null {
        return;
      }
      ghost var from := pindex;
      WalkNowhere(from);
      var nStep := 1;
      ghost var heights: seq<nat> := [];
      while true
        invariant pindex != null && pindex in blocks && pindex.nHeight <= from.nHeight
        invariant pindex == Walk(from, pindex.nHeight)
        invariant nStep == LocatorStep(|vHave|) && vHave == HashesAt(from, heights) && |heights| == |vHave|
        invariant heights + LocatorHeights(pindex.nHeight, |vHave|) == LocatorHeights(from.nHeight, 0)
        decreases pindex.nHeight
      {
        LocatorNext(from, heights, pindex.nHeight, |vHave|);
        vHave := vHave + [pindex.hash];
        heights := heights + [pindex.nHeight];
        if pindex.nHeight == 0 {
          break;
        }
        var nHeight := if pindex.nHeight - nStep > 0 then pindex.nHeight - nStep else 0;
        WalkTwice(blocks, from, pindex.nHeight, nHeight);
        pindex := Below(pindex, nHeight, blocks);
        if |vHave| > 10 {
          nStep := nStep * 2;
        }
      }
    }
  }

  /** The step taken after `k + 1` entries. */
  function LocatorStep(k: nat): (r: nat)
    ensures r >= 1
  {
    if k <= 10 then 1 else 2 * LocatorStep(k - 1)
  }

  function LocatorHeights(height: nat, k: nat): (r: seq<nat>)
    decreases height
  {
    if height == 0 then [0]
    else [height] + LocatorHeights(if height > LocatorStep(k) then height - LocatorStep(k) else 0, k + 1)
  }

  function HashesAt(from: BlockIndex, heights: seq<nat>): seq<nat> {
    seq(|heights|, i requires 0 <= i < |heights| => Walk(from, heights[i]).hash)
  }

  lemma NoHashes()
    ensures forall from: BlockIndex :: HashesAt(from, []) == []
  {
  }

  /** One more entry of a locator. */
  lemma LocatorNext(from: BlockIndex, heights: seq<nat>, height: nat, k: nat)
    ensures HashesAt(from, heights + [height]) == HashesAt(from, heights) + [Walk(from, height).hash]
    ensures height == 0 ==> LocatorHeights(0, k) == [0]
    ensures height > 0 ==>
              var below := if height - LocatorStep(k) > 0 then height - LocatorStep(k) else 0;
              heights + LocatorHeights(height, k) == (heights + [height]) + LocatorHeights(below, k + 1)
  {
    hide Walk, LocatorStep;
    MoreHashes(from, heights, height);
    if height > 0 {
      var below := if height - LocatorStep(k) > 0 then height - LocatorStep(k) else 0;
      Associates(heights, [height], LocatorHeights(below, k + 1));
    }
  }

  lemma MoreHashes(from: BlockIndex, heights: seq<nat>, height: nat)
    ensures HashesAt(from, heights + [height]) == HashesAt(from, heights) + [Walk(from, height).hash]
  {
    hide Walk;
    var more := heights + [height];
    forall i | 0 <= i < |more|
      ensures HashesAt(from, more)[i] == (HashesAt(from, heights) + [Walk(from, height).hash])[i]
    {
    }
  }

  lemma Associates(a: seq<nat>, b: seq<nat>, c: seq<nat>)
    ensures a + (b + c) == (a + b) + c
  {
  }

  /** Locator heights start at the top, fall strictly and end at genesis. */
  lemma {:induction false} LocatorFalls(height: nat, k: nat)
    ensures var r := LocatorHeights(height, k);
            && |r| >= 1 && r[0] == height && r[|r| - 1] == 0
            && forall i, j :: 0 <= i < j < |r| ==> r[i] > r[j]
    decreases height
  {
    if height > 0 {
      LocatorFalls(if height > LocatorStep(k) then height - LocatorStep(k) else 0, k + 1);
    }
  }

  /** The first eleven steps are single; after that each is twice the one before. */
  lemma {:induction false} StepDoubles(k: nat)
    ensures LocatorStep(k) == if k <= 10 then 1 else Pow2(k - 10)
  {
    if k == 11 {
      Pow2Values();
    } else if k > 11 {
      StepDoubles(k - 1);
    }
  }

  /** Each entry is a step below the one before it, the last one not below genesis. */
  lemma {:induction false} LocatorGaps(height: nat, k: nat, i: nat)
    requires i + 1 < |LocatorHeights(height, k)|
    ensures var r := LocatorHeights(height, k);
            var gap := if k + i <= 10 then 1 else Pow2(k + i - 10);
            r[i + 1] == if r[i] > gap then r[i] - gap else 0
    decreases height
  {
    var below := if height > LocatorStep(k) then height - LocatorStep(k) else 0;
    if i == 0 {
      StepDoubles(k);
      LocatorFalls(below, k + 1);
    } else {
      LocatorGaps(below, k + 1, i - 1);
    }
  }

  /** The height covered by the steps `k` to `k + m - 1`. */
  ghost function Span(k: nat, m: nat): nat
    decreases m
  {
    if m == 0 then 0 else LocatorStep(k) + Span(k + 1, m - 1)
  }

  lemma {:induction false} SpanLast(k: nat, m: nat)
    ensures Span(k, m + 1) == Span(k, m) + LocatorStep(k + m)
    decreases m
  {
    if m > 0 {
      SpanLast(k + 1, m - 1);
    }
  }

  lemma {:induction false} SpanIs(m: nat)
    ensures m <= 11 ==> Span(0, m) == m
    ensures m >= 11 ==> Span(0, m) == Pow2(m - 10) + 9
  {
    if m > 0 {
      SpanIs(m - 1);
      SpanLast(0, m - 1);
      StepDoubles(m - 1);
    }
    Pow2Values();
  }

  lemma {:induction false} LocatorWithin(height: nat, k: nat, m: nat)
    ensures |LocatorHeights(height, k)| <= m + 1 <==> height <= Span(k, m)
    decreases height
  {
    hide LocatorStep;
    if height > 0 {
      var below := if height > LocatorStep(k) then height - LocatorStep(k) else 0;
      LocatorFalls(below, k + 1);
      if m > 0 {
        LocatorWithin(below, k + 1, m - 1);
      }
    }
  }

  /** A locator grows with the logarithm of the height: up to height 2^e + 9, and no further, e + 11 entries do. */
  lemma LocatorIsShort(height: nat, e: nat)
    requires e >= 1
    ensures |LocatorHeights(height, 0)| <= e + 11 <==> height <= Pow2(e) + 9
  {
    LocatorWithin(height, 0, e + 10);
    SpanIs(e + 10);
  }

  /** The last common ancestor of two blocks of one tree. */
  method LastCommonAncestor(a: BlockIndex, b: BlockIndex, ghost blocks: set<BlockIndex>) returns (r: BlockIndex)
    requires TreeOk(blocks) && a in blocks && b in blocks && Walk(a, 0) == Walk(b, 0)
    ensures r.nHeight <= a.nHeight && r.nHeight <= b.nHeight && r == Walk(a, r.nHeight) == Walk(b, r.nHeight)
    ensures forall h :: r.nHeight < h <= a.nHeight && h <= b.nHeight ==> Walk(a, h) != Walk(b, h)
  {
    hide Walk, TreeOk;
    WalkNowhere(a);
    WalkNowhere(b);
    var pa: BlockIndex? := a;
    var pb: BlockIndex? := b;
    ghost var steps;
    if a.nHeight > b.nHeight {
      WalkHeight(blocks, a, b.nHeight);
      pa, steps := a.GetAncestor(b.nHeight, blocks);
    } else if b.nHeight > a.nHeight {
      WalkHeight(blocks, b, a.nHeight);
      pb, steps := b.GetAncestor(a.nHeight, blocks);
    }
    while pa != pb && pa != null && pb != null
      invariant pa != null && pb != null && pa in blocks && pb in blocks && pa.nHeight == pb.nHeight
      invariant pa.nHeight <= a.nHeight && pa.nHeight <= b.nHeight && pa == Walk(a, pa.nHeight)
      invariant pb == Walk(b, pb.nHeight)
      invariant forall h :: pa.nHeight < h <= a.nHeight && h <= b.nHeight ==> Walk(a, h) != Walk(b, h)
      decreases pa.nHeight
    {
      var h := pa.nHeight;
      StepDown(blocks, a, h);
      StepDown(blocks, b, h);
      assert h > 0;
      pa := pa.pprev;
      pb := pb.pprev;
    }
    r := pa;
  }
}
