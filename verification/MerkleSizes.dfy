/** How large a partial merkle tree is: hashes, flag bits and bytes on the wire, against the documented bounds. */
module MerkleSizes {
  import opened Golomb
  import opened MerkleBlock
  import opened MerkleTree
  import opened Numbers

  // ----- Nodes with one child -----

  lemma WidthHalves(n: nat, h: nat)
    ensures Width(n, h + 1) == (Width(n, h) + 1) / 2
  {
    var a := Pow2(h);
    assert Pow2(h + 1) == a * 2;
    DivDiv(n + 2 * a - 1, a, 2);
    var w, r := (n + a - 1) / a, (n + a - 1) % a;
    assert n + 2 * a - 1 == (w + 1) * a + r;
    DivUnique(n + 2 * a - 1, a, w + 1, r);
  }

  lemma InTree(n: nat, h: nat)
    requires n > 0
    ensures Width(n, h) > 0
  {
    WidthMeans(n, h, 0);
  }

  /** The last node at height `h` has a single child and a match at or behind its first leaf. */
  predicate Lone(match_: seq<bool>, h: nat) {
    var n := |match_|;
    h > 0 && Width(n, h) > 0 && Width(n, h - 1) % 2 == 1 && AnyMatch(match_, First(h, Width(n, h) - 1), n)
  }

  /** How many heights up to `h` have such a node. */
  function Lones(match_: seq<bool>, h: nat): (r: nat)
    ensures r <= h
  {
    if h == 0 then 0 else Lones(match_, h - 1) + if Lone(match_, h) then 1 else 0
  }

  /** If the nodes below height `h` are odd in number, no match lies under its last node. */
  ghost predicate Paired(match_: seq<bool>, h: nat)
    requires 1 <= h
  {
    var n := |match_|;
    Width(n, h - 1) % 2 == 1 ==> forall p :: 0 <= p < n && (Width(n, h) - 1) * Pow2(h) <= p ==> !match_[p]
  }

  ghost predicate NoLoneChild(match_: seq<bool>) {
    forall h :: 1 <= h <= Height(|match_|) ==> Paired(match_, h)
  }

  /** The last node at a height lies at or before the last node below it. */
  lemma LastBelow(n: nat, h: nat)
    requires n > 0 && h > 0
    ensures Width(n, h) > 0 && Width(n, h - 1) > 0
    ensures First(h, Width(n, h) - 1) <= First(h - 1, Width(n, h - 1) - 1)
  {
    hide Width;
    InTree(n, h);
    InTree(n, h - 1);
    WidthHalves(n, h - 1);
    var w, v := Width(n, h), Width(n, h - 1);
    Children(h, w - 1);
    MulMonotone(2 * (w - 1), v - 1, Pow2(h - 1));
  }

  lemma {:induction false} NoneLone(match_: seq<bool>, h: nat)
    requires match_ != [] && Width(|match_|, h) > 0
    requires !AnyMatch(match_, First(h, Width(|match_|, h) - 1), |match_|)
    ensures Lones(match_, h) == 0
    decreases h
  {
    hide Width, First;
    if h > 0 {
      LastBelow(|match_|, h);
      NoneLone(match_, h - 1);
    }
  }

  lemma LastCovers(n: nat, h: nat)
    requires n > 0 && Width(n, h) > 0
    ensures Last(n, h, Width(n, h) - 1) == n
  {
    WidthMeans(n, h, Width(n, h));
  }

  /** Only the last node of a height can have a single child. */
  lemma {:induction false} SinglesAreLones(match_: seq<bool>, h: nat, pos: nat)
    requires pos < Width(|match_|, h)
    ensures SingleChildren(|match_|, match_, h, pos) == if pos == Width(|match_|, h) - 1 then Lones(match_, h) else 0
    decreases h
  {
    hide Width, First, Last, AnyMatch, Height;
    var n := |match_|;
    var w := Width(n, h);
    HasLeaf(n, h, pos);
    LastCovers(n, h);
    if h == 0 {
    } else if !ParentOfMatch(match_, h, pos) {
      if pos == w - 1 {
        NoneLone(match_, h);
      }
    } else {
      WidthHalves(n, h - 1);
      LeftChild(n, h, pos);
      SinglesAreLones(match_, h - 1, 2 * pos);
      if 2 * pos + 1 < Width(n, h - 1) {
        SinglesAreLones(match_, h - 1, 2 * pos + 1);
      }
    }
  }

  lemma {:induction false} LonesZero(match_: seq<bool>, h: nat)
    ensures Lones(match_, h) == 0 <==> forall k :: 1 <= k <= h ==> !Lone(match_, k)
    decreases h
  {
    hide Lone;
    if h > 0 {
      LonesZero(match_, h - 1);
    }
  }

  lemma NoLoneChildIs(match_: seq<bool>)
    requires match_ != []
    ensures NoLoneChild(match_) <==> forall k :: 1 <= k <= Height(|match_|) ==> !Lone(match_, k)
  {
    hide Height, Width, Lone, Paired;
    forall k | 1 <= k <= Height(|match_|)
      ensures Lone(match_, k) <==> !Paired(match_, k)
    {
      LoneIsNotPaired(match_, k);
    }
  }

  lemma LoneIsNotPaired(match_: seq<bool>, h: nat)
    requires match_ != [] && h > 0
    ensures Lone(match_, h) <==> !Paired(match_, h)
  {
    hide Width;
    InTree(|match_|, h);
  }

  /** Exactly how many flag bits go with the hashes. */
  lemma BitCount(f: Combine, txids: seq<Hash>, match_: seq<bool>)
    requires txids != [] && |match_| == |txids|
    ensures |BuiltBits(match_)| + 1 == 2 * |BuiltHashes(f, txids, match_)| + Lones(match_, Height(|txids|))
  {
    hide Bits, Hashes, Matched, Width, Height;
    var n, h := |txids|, Height(|txids|);
    RootInTree(n);
    assert Width(n, h) == 1;
    BuiltSizes(f, txids, match_, h, 0);
    SinglesAreLones(match_, h, 0);
  }

  /**
   * The documented bounds on the hashes hold; the one on the bits holds exactly when no single child is descended
   * into.
   */
  lemma SizeBounds(f: Combine, txids: seq<Hash>, match_: seq<bool>)
    requires txids != [] && |match_| == |txids|
    ensures var n := |BuiltHashes(f, txids, match_)|;
            && n <= |txids| && n <= 1 + |AllMatched(match_)| * Height(|txids|)
            && (|BuiltBits(match_)| <= 2 * n - 1 <==> NoLoneChild(match_))
  {
    hide Bits, Hashes, Matched, Width, Height, Lone, NoLoneChild, Paired;
    RootInTree(|txids|);
    RootCovers(|txids|);
    BuiltSizes(f, txids, match_, Height(|txids|), 0);
    BitCount(f, txids, match_);
    LonesZero(match_, Height(|txids|));
    NoLoneChildIs(match_);
  }

  /** Three transactions with only the last matched break the documented bound on the bits. */
  lemma BitBoundFails(f: Combine, a: Hash, b: Hash, c: Hash)
    ensures |BuiltBits([false, false, true])| > 2 * |BuiltHashes(f, [a, b, c], [false, false, true])| - 1
  {
    hide BuiltBits, BuiltHashes, Height, Width, Pow2;
    var match_ := [false, false, true];
    SizeBounds(f, [a, b, c], match_);
    ThreeLeaves();
    assert !Paired(match_, 1) by { assert match_[2] && (Width(3, 1) - 1) * Pow2(1) <= 2; }
  }

  lemma ThreeLeaves()
    ensures Height(3) == 2 && Width(3, 0) == 3 && Width(3, 1) == 2 && Pow2(1) == 2
  {
    hide Pow2;
    Pow2Values();
    assert Width(3, 2) == 1;
  }

  // ----- The number of hashes -----

  /** A node that is descended into and has two children. */
  predicate Forked(match_: seq<bool>, h: nat, pos: nat) {
    h > 0 && ParentOfMatch(match_, h, pos) && 2 * pos + 1 < Width(|match_|, h - 1)
  }

  /** How many of the first `p` nodes at a height are such. */
  function Forks(match_: seq<bool>, h: nat, p: nat): nat {
    if p == 0 then 0 else Forks(match_, h, p - 1) + if Forked(match_, h, p - 1) then 1 else 0
  }

  /** How many nodes up to a height are. */
  function AllForks(match_: seq<bool>, h: nat): nat {
    if h == 0 then 0 else AllForks(match_, h - 1) + Forks(match_, h, Width(|match_|, h))
  }

  function HashCount(match_: seq<bool>): nat {
    1 + AllForks(match_, Height(|match_|))
  }

  /** The hashes stored for the first `p` nodes of a height, less one for each. */
  function Excess(f: Combine, txids: seq<Hash>, match_: seq<bool>, h: nat, p: nat): int
    requires p <= Width(|txids|, h)
    decreases p
  {
    if p == 0 then 0 else Excess(f, txids, match_, h, p - 1) + |Hashes(f, txids, match_, h, p - 1)| - 1
  }

  /** Below a node without a match there is none. */
  lemma ChildStops(f: Combine, txids: seq<Hash>, match_: seq<bool>, h: nat, pos: nat)
    requires h > 0 && |match_| == |txids| && pos < Width(|txids|, h) && !ParentOfMatch(match_, h, pos)
    ensures 2 * pos < Width(|txids|, h - 1) && |Hashes(f, txids, match_, h - 1, 2 * pos)| == 1
    ensures 2 * pos + 1 < Width(|txids|, h - 1) ==> |Hashes(f, txids, match_, h - 1, 2 * pos + 1)| == 1
  {
    hide Width, First, Last, Hashes, Bits, SingleChildren;
    LeftChild(|txids|, h, pos);
    LeavesSplit(|txids|, h, pos);
    BuiltStop(f, txids, match_, h - 1, 2 * pos);
    if 2 * pos + 1 < Width(|txids|, h - 1) {
      BuiltStop(f, txids, match_, h - 1, 2 * pos + 1);
    }
  }

  /** The hashes of a node against those of its children. */
  lemma NodeExcess(f: Combine, txids: seq<Hash>, match_: seq<bool>, h: nat, pos: nat)
    requires h > 0 && |match_| == |txids| && pos < Width(|txids|, h)
    ensures 2 * pos < Width(|txids|, h - 1)
    ensures var right := 2 * pos + 1 < Width(|txids|, h - 1);
            |Hashes(f, txids, match_, h, pos)| - 1 ==
              |Hashes(f, txids, match_, h - 1, 2 * pos)| - 1
              + (if right then |Hashes(f, txids, match_, h - 1, 2 * pos + 1)| - 1 else 0)
              + (if Forked(match_, h, pos) then 1 else 0)
  {
    hide Width, ParentOfMatch, Hashes, Bits, SingleChildren, CalcHash;
    if ParentOfMatch(match_, h, pos) {
      BuiltNode(f, txids, match_, h, pos);
    } else {
      BuiltStop(f, txids, match_, h, pos);
      ChildStops(f, txids, match_, h, pos);
    }
  }

  lemma {:induction false} ExcessBelow(f: Combine, txids: seq<Hash>, match_: seq<bool>, h: nat, p: nat)
    requires h > 0 && |match_| == |txids| && p <= Width(|txids|, h)
    ensures Excess(f, txids, match_, h, p)
              == Excess(f, txids, match_, h - 1, Min(2 * p, Width(|txids|, h - 1))) + Forks(match_, h, p)
    decreases p
  {
    hide Width, Forked, Hashes;
    if p > 0 {
      var q := p - 1;
      ExcessBelow(f, txids, match_, h, q);
      NodeExcess(f, txids, match_, h, q);
    }
  }

  lemma {:induction false} LeafExcess(f: Combine, txids: seq<Hash>, match_: seq<bool>, p: nat)
    requires p <= Width(|txids|, 0)
    ensures Excess(f, txids, match_, 0, p) == 0
    decreases p
  {
    hide Width;
    if p > 0 {
      LeafExcess(f, txids, match_, p - 1);
    }
  }

  lemma {:induction false} ExcessIsForks(f: Combine, txids: seq<Hash>, match_: seq<bool>, h: nat)
    requires |match_| == |txids|
    ensures Excess(f, txids, match_, h, Width(|txids|, h)) == AllForks(match_, h)
    decreases h
  {
    hide Width, Excess, Forks;
    if h == 0 {
      LeafExcess(f, txids, match_, Width(|txids|, 0));
    } else {
      ExcessIsForks(f, txids, match_, h - 1);
      ExcessBelow(f, txids, match_, h, Width(|txids|, h));
      WidthHalves(|txids|, h - 1);
    }
  }

  /** The mask alone tells how many hashes and flag bits are stored. */
  lemma Counts(f: Combine, txids: seq<Hash>, match_: seq<bool>)
    requires txids != [] && |match_| == |txids|
    ensures |BuiltHashes(f, txids, match_)| == HashCount(match_)
    ensures |BuiltBits(match_)| == 2 * HashCount(match_) - 1 + Lones(match_, Height(|match_|))
  {
    hide Width, Hashes, AllForks, Height, Lones, BuiltBits;
    var h := Height(|txids|);
    RootInTree(|txids|);
    ExcessIsForks(f, txids, match_, h);
    assert Excess(f, txids, match_, h, 1) == |Hashes(f, txids, match_, h, 0)| - 1;
    BitCount(f, txids, match_);
  }

  // ----- Bytes on the wire -----

  /** Four bytes for the count, and two vectors with their sizes in front. */
  function SerializedSize(hashes: nat, bytes: nat): nat {
    4 + |WriteCompactSize(hashes)| + 32 * hashes + |WriteCompactSize(bytes)| + bytes
  }

  /** 10 + ceil(32.25 * n). */
  function DocumentedSize(n: nat): nat { 10 + (129 * n + 3) / 4 }

  lemma HeightBound(n: nat, h: nat)
    requires n <= Pow2(h)
    ensures Height(n) <= h
  {
    assert First(h, 1) == Pow2(h);
    WidthMeans(n, h, 1);
    assert Width(n, h) <= 1;
  }

  /**
   * The documented bound on the serialized size, told from the mask: what it comes down to, and that within the limit
   * on transactions it fails exactly when there are more than 252 flag bytes and more flag bits than eight for every
   * four hashes.
   */
  lemma SerializedBound(f: Combine, txids: seq<Hash>, match_: seq<bool>)
    requires txids != [] && |match_| == |txids|
    ensures var n := HashCount(match_);
            var b := 2 * n - 1 + Lones(match_, Height(|match_|));
            var bytes := Packed(b);
            var holds := SerializedSize(|BuiltHashes(f, txids, match_)|, Packed(|BuiltBits(match_)|))
                           <= DocumentedSize(|BuiltHashes(f, txids, match_)|);
            && (holds <==> |WriteCompactSize(n)| + |WriteCompactSize(bytes)| + bytes <= 6 + (n + 3) / 4)
            && (|txids| <= MAX_TRANSACTIONS ==> (holds <==> bytes <= 252 || b <= 8 * ((n + 3) / 4)))
  {
    hide BuiltBits, BuiltHashes, Height, Pow2, AllMatched, HashCount;
    Counts(f, txids, match_);
    SizeBounds(f, txids, match_);
    if |txids| <= MAX_TRANSACTIONS {
      Pow2Values();
      Pow2Add(16, 0);
      HeightLimit(|txids|);
    }
  }

  lemma HeightLimit(n: nat)
    requires n <= MAX_TRANSACTIONS
    ensures Height(n) <= 15
  {
    hide Pow2, Height;
    Pow2Values();
    Pow2Add(15, 1);
    HeightBound(n, 15);
  }

  /** With every transaction matched each leaf has its hash. */
  lemma {:induction false} AllHashes(f: Combine, txids: seq<Hash>, match_: seq<bool>, h: nat, pos: nat)
    requires |match_| == |txids| && pos < Width(|txids|, h) && forall i :: 0 <= i < |match_| ==> match_[i]
    ensures |Hashes(f, txids, match_, h, pos)| == Last(|txids|, h, pos) - First(h, pos)
    decreases h
  {
    hide Width, First, Last, CalcHash, Bits, Hashes, SingleChildren;
    var n := |txids|;
    HasLeaf(n, h, pos);
    assert ParentOfMatch(match_, h, pos) by { assert match_[First(h, pos)]; }
    if h > 0 {
      BuiltNode(f, txids, match_, h, pos);
      LeavesSplit(n, h, pos);
      AllHashes(f, txids, match_, h - 1, 2 * pos);
      if 2 * pos + 1 < Width(n, h - 1) {
        AllHashes(f, txids, match_, h - 1, 2 * pos + 1);
      }
    } else {
      BuiltStop(f, txids, match_, h, pos);
      OneLeaf(n, pos);
    }
  }

  lemma OneLeaf(n: nat, pos: nat)
    requires pos < Width(n, 0)
    ensures Last(n, 0, pos) == First(0, pos) + 1
  {
  }

  /** The widths of a tree over 1012 leaves. */
  lemma Widths()
    ensures Width(1012, 0) == 1012 && Width(1012, 1) == 506 && Width(1012, 2) == 253 && Width(1012, 3) == 127
    ensures Width(1012, 4) == 64 && Width(1012, 5) == 32 && Width(1012, 6) == 16 && Width(1012, 7) == 8
    ensures Width(1012, 8) == 4 && Width(1012, 9) == 2 && Width(1012, 10) == 1 && Height(1012) == 10
  {
    hide Width, Pow2;
    WholeWidth(1012);
    WidthHalves(1012, 0);
    WidthHalves(1012, 1);
    WidthHalves(1012, 2);
    WidthHalves(1012, 3);
    WidthHalves(1012, 4);
    WidthHalves(1012, 5);
    WidthHalves(1012, 6);
    WidthHalves(1012, 7);
    WidthHalves(1012, 8);
    WidthHalves(1012, 9);
  }

  lemma WholeWidth(n: nat)
    ensures Width(n, 0) == n
  {
  }

  lemma LoneIsOdd(match_: seq<bool>, h: nat)
    requires match_ != [] && h > 0 && forall i :: 0 <= i < |match_| ==> match_[i]
    ensures Lone(match_, h) <==> Width(|match_|, h - 1) % 2 == 1
  {
    var n := |match_|;
    InTree(n, h);
    HasLeaf(n, h, Width(n, h) - 1);
    assert match_[First(h, Width(n, h) - 1)];
  }

  lemma TwoLones(match_: seq<bool>)
    requires |match_| == 1012 && forall i :: 0 <= i < |match_| ==> match_[i]
    ensures Lones(match_, 10) == 2
  {
    hide Width, Lone, Height;
    Widths();
    forall h | 1 <= h <= 10
      ensures Lone(match_, h) <==> h == 3 || h == 4
    {
      LoneIsOdd(match_, h);
    }
    assert Lones(match_, 1) == 0;
    assert Lones(match_, 2) == 0;
    assert Lones(match_, 3) == 1;
    assert Lones(match_, 4) == 2;
    assert Lones(match_, 5) == 2;
    assert Lones(match_, 6) == 2;
    assert Lones(match_, 7) == 2;
    assert Lones(match_, 8) == 2;
    assert Lones(match_, 9) == 2;
  }

  /** With 1012 transactions, all matched, the wire form is one byte longer than documented. */
  lemma SizeBoundFails(f: Combine, txids: seq<Hash>, match_: seq<bool>)
    requires |txids| == |match_| == 1012 && forall i :: 0 <= i < |match_| ==> match_[i]
    ensures var n, bytes := |BuiltHashes(f, txids, match_)|, Packed(|BuiltBits(match_)|);
            n == 1012 && bytes == 254 && SerializedSize(n, bytes) == 32648 == DocumentedSize(n) + 1
  {
    hide Width, Height, Hashes, Bits, Lones;
    Widths();
    RootInTree(1012);
    RootCovers(1012);
    AllHashes(f, txids, match_, 10, 0);
    TwoLones(match_);
    BitCount(f, txids, match_);
  }
}
