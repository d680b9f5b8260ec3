/**
 * The merkle root of a block (`ComputeMerkleRoot`), level by level, with its test for a mutated list; and what a
 * root says about the list behind it and about proofs that claim another transaction count.
 */
module MerkleRoot {
  import opened MerkleBlock
  import opened MerkleTree
  import opened Numbers
  import opened Options

  // ----- Level by level -----

  /** One level up: neighbours are combined, and a last one left over is combined with itself. */
  function Pairs(f: Combine, hashes: seq<Hash>): (r: seq<Hash>)
    ensures |r| == (|hashes| + 1) / 2
  {
    seq((|hashes| + 1) / 2, i requires 0 <= i < (|hashes| + 1) / 2 =>
      f(hashes[2 * i], if 2 * i + 1 < |hashes| then hashes[2 * i + 1] else hashes[2 * i]))
  }

  ghost function NodesAt(f: Combine, txids: seq<Hash>, h: nat): (r: seq<Hash>)
    ensures |r| == Width(|txids|, h)
  {
    seq(Width(|txids|, h), pos requires 0 <= pos < Width(|txids|, h) => CalcHash(f, h, pos, txids))
  }

  lemma WidthHalves(n: nat, h: nat)
    ensures Width(n, h + 1) == (Width(n, h) + 1) / 2
  {
    hide Width, First;
    var w, half := Width(n, h), (Width(n, h) + 1) / 2;
    Halves(n, h, half);
    if half > 0 {
      Halves(n, h, half - 1);
    }
    if half < Width(n, h + 1) {
      assert false;
    }
  }

  lemma Halves(n: nat, h: nat, pos: nat)
    ensures pos < Width(n, h + 1) <==> 2 * pos < Width(n, h)
  {
    hide Width;
    WidthMeans(n, h + 1, pos);
    WidthMeans(n, h, 2 * pos);
    Children(h + 1, pos);
  }

  lemma LevelUp(f: Combine, txids: seq<Hash>, h: nat)
    ensures NodesAt(f, txids, h + 1) == Pairs(f, NodesAt(f, txids, h))
  {
    hide Width, CalcHash;
    WidthHalves(|txids|, h);
    var nodes := NodesAt(f, txids, h);
    forall pos | 0 <= pos < Width(|txids|, h + 1)
      ensures NodesAt(f, txids, h + 1)[pos] == Pairs(f, nodes)[pos]
    {
      NodeHash(f, h + 1, pos, txids);
    }
  }

  lemma Leaves(f: Combine, txids: seq<Hash>)
    ensures NodesAt(f, txids, 0) == txids
  {
  }

  /** Some node at or below height `h` has two children with the same hash. */
  ghost predicate MutatedBelow(f: Combine, txids: seq<Hash>, h: nat) {
    exists k: nat, pos: nat :: k < h && Twins(f, txids, k, pos)
  }

  ghost predicate Twins(f: Combine, txids: seq<Hash>, k: nat, pos: nat) {
    2 * pos + 1 < Width(|txids|, k) && CalcHash(f, k, 2 * pos, txids) == CalcHash(f, k, 2 * pos + 1, txids)
  }

  ghost predicate Mutated(f: Combine, txids: seq<Hash>) {
    MutatedBelow(f, txids, Height(|txids|))
  }

  lemma MutatedNext(f: Combine, txids: seq<Hash>, h: nat)
    ensures MutatedBelow(f, txids, h + 1) <==> MutatedBelow(f, txids, h) || exists pos: nat :: Twins(f, txids, h, pos)
  {
    hide Twins;
    if MutatedBelow(f, txids, h + 1) {
      var k: nat, pos: nat :| 0 <= k < h + 1 && Twins(f, txids, k, pos);
    }
    if pos: nat :| Twins(f, txids, h, pos) {
      assert 0 <= h < h + 1;
    }
  }

  /** Two neighbours of a level that are paired and equal, before position `limit`. */
  ghost predicate TwinPair(hashes: seq<Hash>, limit: nat) {
    exists i :: 0 <= i < limit && 2 * i + 1 < |hashes| && hashes[2 * i] == hashes[2 * i + 1]
  }

  lemma TwinsAreEqual(f: Combine, txids: seq<Hash>, h: nat)
    ensures (exists pos: nat :: Twins(f, txids, h, pos)) <==>
            TwinPair(NodesAt(f, txids, h), Width(|txids|, h) / 2)
  {
    hide Width, CalcHash;
    var nodes := NodesAt(f, txids, h);
    if pos: nat :| Twins(f, txids, h, pos) {
      assert nodes[2 * pos] == nodes[2 * pos + 1] && pos < Width(|txids|, h) / 2;
    }
    if i: nat :| i < Width(|txids|, h) / 2 && 2 * i + 1 < |nodes| && nodes[2 * i] == nodes[2 * i + 1] {
      assert nodes[2 * i] == CalcHash(f, h, 2 * i, txids) && nodes[2 * i + 1] == CalcHash(f, h, 2 * i + 1, txids);
      assert Twins(f, txids, h, i);
    }
  }

  method HasTwins(hashes: seq<Hash>) returns (r: bool)
    ensures r <==> TwinPair(hashes, |hashes| / 2)
  {
    r := false;
    var pos := 0;
    while pos + 1 < |hashes|
      invariant pos % 2 == 0 && pos <= |hashes| && (r <==> TwinPair(hashes, pos / 2))
    {
      if hashes[pos] == hashes[pos + 1] {
        assert hashes[2 * (pos / 2)] == hashes[2 * (pos / 2) + 1];
        r := true;
      }
      pos := pos + 2;
    }
  }

  method CombineLevel(f: Combine, hashes: seq<Hash>) returns (r: seq<Hash>)
    requires hashes != []
    ensures r == Pairs(f, hashes)
  {
    var even := hashes;
    if |even| % 2 == 1 {
      even := even + [even[|even| - 1]];
    }
    r := seq(|even| / 2, i requires 0 <= i < |even| / 2 => f(even[2 * i], even[2 * i + 1]));
  }

  /** The root of the tree the partial trees are cut from, and whether two sibling nodes anywhere in it are equal. */
  method ComputeMerkleRoot(f: Combine, txids: seq<Hash>) returns (root: Hash, mutated: bool)
    ensures root == if txids == [] then 0 else Root(f, txids)
    ensures mutated <==> Mutated(f, txids)
  {
    hide Width, CalcHash, Pairs, NodesAt, MutatedBelow, TwinPair, Twins;
    var hashes := txids;
    ghost var h := 0;
    mutated := false;
    Leaves(f, txids);
    NothingBelow(f, txids);
    while |hashes| > 1
      invariant hashes == NodesAt(f, txids, h) && h <= Height(|txids|)
      invariant mutated <==> MutatedBelow(f, txids, h)
      decreases Height(|txids|) - h
    {
      var twins := HasTwins(hashes);
      mutated := mutated || twins;
      TwinsAreEqual(f, txids, h);
      MutatedNext(f, txids, h);
      LevelUp(f, txids, h);
      hashes := CombineLevel(f, hashes);
      h := h + 1;
    }
    root := if hashes == [] then 0 else hashes[0];
    TopLevel(f, txids, h);
  }

  lemma NothingBelow(f: Combine, txids: seq<Hash>)
    ensures !MutatedBelow(f, txids, 0)
  {
  }

  lemma TopLevel(f: Combine, txids: seq<Hash>, h: nat)
    requires h <= Height(|txids|) && |NodesAt(f, txids, h)| <= 1
    ensures h == Height(|txids|) && (txids == [] <==> NodesAt(f, txids, h) == [])
    ensures txids != [] ==> NodesAt(f, txids, h)[0] == Root(f, txids)
  {
    hide Width, CalcHash;
    if txids != [] {
      RootInTree(|txids|);
    } else {
      WidthMeans(0, h, 0);
    }
  }

  // ----- What the root says about the list -----

  /** Distinct transactions are never mistaken for a mutated list. */
  lemma DistinctIsNotMutated(f: Combine, txids: seq<Hash>)
    requires Injective(f) && Distinct(txids)
    ensures !Mutated(f, txids)
  {
    hide Width, CalcHash;
    if k: nat, pos: nat :| 0 <= k < Height(|txids|) && Twins(f, txids, k, pos) {
      DistinctNodes(f, k, 2 * pos, 2 * pos + 1, txids);
    }
  }

  /** A node with two children in a list that is not mutated. */
  lemma NoTwins(f: Combine, txids: seq<Hash>, h: nat, pos: nat)
    requires !Mutated(f, txids) && h < Height(|txids|) && 2 * pos + 1 < Width(|txids|, h)
    ensures CalcHash(f, h, 2 * pos, txids) != CalcHash(f, h, 2 * pos + 1, txids)
  {
    assert !Twins(f, txids, h, pos);
  }

  /** Below a node, two lists have the same transactions at the same positions. */
  ghost predicate SameLeaves(a: seq<Hash>, b: seq<Hash>, lo: nat, hi: nat) {
    forall p: nat :: lo <= p < hi ==> Leaf(a, p) == Leaf(b, p)
  }

  function Leaf(txids: seq<Hash>, p: nat): Option<Hash> {
    if p < |txids| then Some(txids[p]) else None
  }

  lemma {:induction false} SameBelow(f: Combine, a: seq<Hash>, b: seq<Hash>, h: nat, pos: nat)
    requires Injective(f) && !Mutated(f, a) && !Mutated(f, b) && h <= Height(|a|) && h <= Height(|b|)
    requires pos < Width(|a|, h) && pos < Width(|b|, h) && CalcHash(f, h, pos, a) == CalcHash(f, h, pos, b)
    ensures SameLeaves(a, b, First(h, pos), First(h, pos + 1))
    decreases h
  {
    hide Width, First, CalcHash, Mutated, SameLeaves;
    if h == 0 {
      LeafIsSame(f, a, b, pos);
    } else {
      NodeHash(f, h, pos, a);
      NodeHash(f, h, pos, b);
      Children(h, pos);
      SameBelow(f, a, b, h - 1, 2 * pos);
      if 2 * pos + 1 < Width(|a|, h - 1) {
        NoTwins(f, a, h - 1, pos);
      }
      if 2 * pos + 1 < Width(|b|, h - 1) {
        NoTwins(f, b, h - 1, pos);
      }
      assert 2 * pos + 1 < Width(|a|, h - 1) <==> 2 * pos + 1 < Width(|b|, h - 1);
      if 2 * pos + 1 < Width(|a|, h - 1) {
        SameBelow(f, a, b, h - 1, 2 * pos + 1);
      } else {
        WidthMeans(|a|, h - 1, 2 * pos + 1);
        WidthMeans(|b|, h - 1, 2 * pos + 1);
        NoLeaves(a, b, First(h - 1, 2 * pos + 1), First(h, pos + 1));
      }
      assert First(h - 1, 2 * pos + 1 + 1) == First(h, pos + 1);
      SameJoined(a, b, First(h, pos), First(h - 1, 2 * pos + 1), First(h, pos + 1));
    }
  }

  lemma NoLeaves(a: seq<Hash>, b: seq<Hash>, lo: nat, hi: nat)
    requires |a| <= lo && |b| <= lo
    ensures SameLeaves(a, b, lo, hi)
  {
  }

  lemma SameJoined(a: seq<Hash>, b: seq<Hash>, lo: nat, mid: nat, hi: nat)
    requires SameLeaves(a, b, lo, mid) && SameLeaves(a, b, mid, hi)
    ensures SameLeaves(a, b, lo, hi)
  {
  }

  lemma LeafIsSame(f: Combine, a: seq<Hash>, b: seq<Hash>, pos: nat)
    requires pos < Width(|a|, 0) && pos < Width(|b|, 0) && CalcHash(f, 0, pos, a) == CalcHash(f, 0, pos, b)
    ensures SameLeaves(a, b, First(0, pos), First(0, pos + 1))
  {
  }

  /** Among the lists with trees of one height that are not reported as mutated, the root decides the list. */
  lemma RootDecidesList(f: Combine, a: seq<Hash>, b: seq<Hash>)
    requires Injective(f) && a != [] && b != [] && Height(|a|) == Height(|b|)
    requires !Mutated(f, a) && !Mutated(f, b) && Root(f, a) == Root(f, b)
    ensures a == b
  {
    hide Width, First, CalcHash, Mutated, SameLeaves;
    RootInTree(|a|);
    RootInTree(|b|);
    SameBelow(f, a, b, Height(|a|), 0);
    AllBelowRoot(|a|);
    AllBelowRoot(|b|);
    SameLists(a, b, First(Height(|a|), 1));
  }

  lemma SameLists(a: seq<Hash>, b: seq<Hash>, hi: nat)
    requires SameLeaves(a, b, 0, hi) && |a| <= hi && |b| <= hi
    ensures a == b
  {
    var shorter := Min(|a|, |b|);
    assert shorter < hi ==> Leaf(a, shorter) == Leaf(b, shorter);
    forall p: nat | p < shorter
      ensures a[p] == b[p]
    {
      assert Leaf(a, p) == Leaf(b, p);
    }
  }

  lemma AllBelowRoot(n: nat)
    requires n > 0
    ensures First(Height(n), 0) == 0 && n <= First(Height(n), 1)
  {
    WidthMeans(n, Height(n), 1);
  }

  /** Repeating the last transaction of an odd list is such a mutation: same root, and it is reported. */
  lemma RepeatIsReported(f: Combine, a: Hash, b: Hash, c: Hash)
    ensures Root(f, [a, b, c]) == Root(f, [a, b, c, c]) && Mutated(f, [a, b, c, c])
  {
    hide Width, CalcHash;
    WidthsOfFour();
    var three, four := [a, b, c], [a, b, c, c];
    assert Height(|three|) == 2 && Height(|four|) == 2;
    forall txids | txids in {three, four}
      ensures CalcHash(f, 2, 0, txids) == f(f(a, b), f(c, c))
    {
      LeafHash(f, txids);
      NodeHash(f, 2, 0, txids);
      NodeHash(f, 1, 0, txids);
      NodeHash(f, 1, 1, txids);
    }
    LeafHash(f, four);
    assert Twins(f, four, 0, 1);
  }

  lemma LeafHash(f: Combine, txids: seq<Hash>)
    ensures Width(|txids|, 0) == |txids| && forall p :: 0 <= p < |txids| ==> CalcHash(f, 0, p, txids) == txids[p]
  {
  }

  lemma WidthsOfFour()
    ensures Width(3, 0) == 3 && Width(3, 1) == 2 && Width(3, 2) == 1
    ensures Width(4, 0) == 4 && Width(4, 1) == 2 && Width(4, 2) == 1
  {
    Pow2Values();
  }

  // ----- Proofs that claim another transaction count -----

  /** Extraction at a node with any claimed count reports only true pairs, if its hash is the true one. */
  lemma {:induction false} ExtractSoundAny(f: Combine, n: nat, txids: seq<Hash>, vBits: seq<bool>, vHash: seq<Hash>,
                                           h: nat, pos: nat, c: Cursor)
    requires Injective(f) && !Mutated(f, txids) && h <= Height(|txids|) && pos < Width(|txids|, h)
    requires var x := Extract(f, n, vBits, vHash, h, pos, c); !x.c.fBad && x.hash == CalcHash(f, h, pos, txids)
    ensures Genuine(txids, c, Extract(f, n, vBits, vHash, h, pos, c).c, First(h, pos), First(h, pos + 1))
    decreases h
  {
    hide Genuine, Width, First, Extract, CalcHash, Mutated;
    var x := Extract(f, n, vBits, vHash, h, pos, c);
    if c.nBitsUsed < |vBits| && h > 0 && vBits[c.nBitsUsed] {
      ChildrenAny(f, n, txids, vBits, vHash, h, pos, c);
      Children(h, pos);
      var left := Extract(f, n, vBits, vHash, h - 1, 2 * pos, Read(c));
      var mid := First(h - 1, 2 * pos + 1);
      GenuineSame(txids, c, Read(c), First(h, pos), First(h, pos));
      ExtractSoundAny(f, n, txids, vBits, vHash, h - 1, 2 * pos, Read(c));
      if 2 * pos + 1 < Width(n, h - 1) {
        ExtractSoundAny(f, n, txids, vBits, vHash, h - 1, 2 * pos + 1, left.c);
      } else {
        GenuineSame(txids, left.c, left.c, mid, First(h, pos + 1));
      }
      GenuineChain(txids, Read(c), left.c, x.c, First(h, pos), mid, First(h, pos + 1));
      GenuineChain(txids, c, Read(c), x.c, First(h, pos), First(h, pos), First(h, pos + 1));
    } else {
      ExtractHere(f, n, vBits, vHash, h, pos, c);
      StopAny(f, txids, vBits, vHash, h, pos, c, x);
    }
  }

  /** The claimed children are the true ones: a right child made up is caught as equal to the left one. */
  lemma ChildrenAny(f: Combine, n: nat, txids: seq<Hash>, vBits: seq<bool>, vHash: seq<Hash>, h: nat, pos: nat,
                    c: Cursor)
    requires Injective(f) && !Mutated(f, txids) && 0 < h <= Height(|txids|) && pos < Width(|txids|, h)
    requires c.nBitsUsed < |vBits| && vBits[c.nBitsUsed]
    requires var x := Extract(f, n, vBits, vHash, h, pos, c); !x.c.fBad && x.hash == CalcHash(f, h, pos, txids)
    ensures var x := Extract(f, n, vBits, vHash, h, pos, c);
            var left := Extract(f, n, vBits, vHash, h - 1, 2 * pos, Read(c));
            var right := Extract(f, n, vBits, vHash, h - 1, 2 * pos + 1, left.c);
            && 2 * pos < Width(|txids|, h - 1) && !left.c.fBad && left.hash == CalcHash(f, h - 1, 2 * pos, txids)
            && (2 * pos + 1 < Width(n, h - 1) <==> 2 * pos + 1 < Width(|txids|, h - 1))
            && if 2 * pos + 1 < Width(n, h - 1) then
                 x.c == right.c && !right.c.fBad && right.hash == CalcHash(f, h - 1, 2 * pos + 1, txids)
               else x.c == left.c
  {
    hide Width, Extract, CalcHash, Mutated;
    NodeHash(f, h, pos, txids);
    ExtractDescends(f, n, vBits, vHash, h, pos, c);
    var left := Extract(f, n, vBits, vHash, h - 1, 2 * pos, Read(c));
    BadStays(f, n, vBits, vHash, h - 1, 2 * pos + 1, left.c);
    if 2 * pos + 1 < Width(|txids|, h - 1) {
      NoTwins(f, txids, h - 1, pos);
    }
  }

  lemma StopAny(f: Combine, txids: seq<Hash>, vBits: seq<bool>, vHash: seq<Hash>, h: nat, pos: nat, c: Cursor,
                x: Extracted)
    requires pos < Width(|txids|, h) && c.nBitsUsed < |vBits| && c.nHashUsed < |vHash|
    requires x.hash == CalcHash(f, h, pos, txids) == vHash[c.nHashUsed]
    requires x.c == var d := Read(c).(nHashUsed := c.nHashUsed + 1);
                    if h == 0 && vBits[c.nBitsUsed]
                    then d.(vMatch := d.vMatch + [vHash[c.nHashUsed]], vnIndex := d.vnIndex + [pos]) else d
    ensures Genuine(txids, c, x.c, First(h, pos), First(h, pos + 1))
  {
    hide Genuine, First;
    if h == 0 && vBits[c.nBitsUsed] {
      GenuineLeaf(txids, c, x.c, pos);
    } else {
      GenuineSame(txids, c, x.c, First(h, pos), First(h, pos + 1));
    }
  }

  /**
   * Whatever transaction count a proof claims, as long as the tree has the height of the true one, what it reports
   * under the true root is genuine.
   */
  lemma ClaimedCount(f: Combine, n: nat, txids: seq<Hash>, vBits: seq<bool>, vHash: seq<Hash>, fBad: bool,
                     vnIndex: seq<nat>)
    requires Injective(f) && txids != [] && !Mutated(f, txids) && Height(n) == Height(|txids|)
    requires Outcome(f, n, vBits, vHash, fBad, vnIndex).hash == Root(f, txids) != 0
    ensures Genuine(txids, Start(vnIndex, fBad), Outcome(f, n, vBits, vHash, fBad, vnIndex).c, 0, |txids|)
  {
    hide Genuine, Mutated, Extract, CalcHash, Width;
    RootInTree(|txids|);
    ExtractSoundAny(f, n, txids, vBits, vHash, Height(|txids|), 0, Start(vnIndex, fBad));
    var x := Outcome(f, n, vBits, vHash, fBad, vnIndex);
    GenuineInRange(txids, Start(vnIndex, fBad), x.c, First(Height(|txids|), 1));
  }

  // ----- Nothing is left over -----

  lemma {:induction false} CursorBounds(f: Combine, n: nat, vBits: seq<bool>, vHash: seq<Hash>, h: nat, pos: nat,
                                        c: Cursor)
    requires c.nBitsUsed <= |vBits| && c.nHashUsed <= |vHash|
    ensures var d := Extract(f, n, vBits, vHash, h, pos, c).c; d.nBitsUsed <= |vBits| && d.nHashUsed <= |vHash|
    decreases h
  {
    hide Width;
    if c.nBitsUsed < |vBits| && h > 0 && vBits[c.nBitsUsed] {
      CursorBounds(f, n, vBits, vHash, h - 1, 2 * pos, Read(c));
      CursorBounds(f, n, vBits, vHash, h - 1, 2 * pos + 1, Extract(f, n, vBits, vHash, h - 1, 2 * pos, Read(c)).c);
    }
  }

  /** An accepted proof is plausible, has no failure, and uses every hash and all flags but the padding of a byte. */
  lemma AcceptedUsesAll(f: Combine, n: nat, vBits: seq<bool>, vHash: seq<Hash>, fBad: bool, vnIndex: seq<nat>)
    requires Outcome(f, n, vBits, vHash, fBad, vnIndex).hash != 0
    ensures 1 <= n <= 16_666 && |vHash| <= n && |vHash| <= |vBits|
    ensures var c := Outcome(f, n, vBits, vHash, fBad, vnIndex).c;
            !fBad && !c.fBad && c.nHashUsed == |vHash| && c.nBitsUsed <= |vBits| < c.nBitsUsed + 8
  {
    hide Extract, Width, Height;
    CursorBounds(f, n, vBits, vHash, Height(n), 0, Start(vnIndex, fBad));
    BadStays(f, n, vBits, vHash, Height(n), 0, Start(vnIndex, fBad));
  }

  /** A traversal without failure does not look past what it uses. */
  lemma {:induction false} ExtractPrefix(f: Combine, n: nat, vBits: seq<bool>, vHash: seq<Hash>, moreBits: seq<bool>,
                                         moreHashes: seq<Hash>, h: nat, pos: nat, c: Cursor)
    requires !Extract(f, n, vBits, vHash, h, pos, c).c.fBad
    ensures Extract(f, n, vBits + moreBits, vHash + moreHashes, h, pos, c) == Extract(f, n, vBits, vHash, h, pos, c)
    decreases h
  {
    hide Width, Extract;
    if c.nBitsUsed < |vBits| && h > 0 && vBits[c.nBitsUsed] {
      ExtractDescends(f, n, vBits, vHash, h, pos, c);
      ExtractDescends(f, n, vBits + moreBits, vHash + moreHashes, h, pos, c);
      var left := Extract(f, n, vBits, vHash, h - 1, 2 * pos, Read(c));
      BadStays(f, n, vBits, vHash, h - 1, 2 * pos + 1, left.c);
      ExtractPrefix(f, n, vBits, vHash, moreBits, moreHashes, h - 1, 2 * pos, Read(c));
      if 2 * pos + 1 < Width(n, h - 1) {
        ExtractPrefix(f, n, vBits, vHash, moreBits, moreHashes, h - 1, 2 * pos + 1, left.c);
      }
    } else {
      ExtractHere(f, n, vBits, vHash, h, pos, c);
      ExtractHere(f, n, vBits + moreBits, vHash + moreHashes, h, pos, c);
    }
  }

  /** An accepted proof with anything added that is not padding of its last byte is refused. */
  lemma NothingToAdd(f: Combine, n: nat, vBits: seq<bool>, vHash: seq<Hash>, moreBits: seq<bool>,
                     moreHashes: seq<Hash>, fBad: bool, vnIndex: seq<nat>)
    requires Outcome(f, n, vBits, vHash, fBad, vnIndex).hash != 0
    requires moreHashes != [] || Packed(|vBits + moreBits|) != Packed(|vBits|)
    ensures Outcome(f, n, vBits + moreBits, vHash + moreHashes, fBad, vnIndex).hash == 0
  {
    hide Extract, Width, Height;
    ExtractPrefix(f, n, vBits, vHash, moreBits, moreHashes, Height(n), 0, Start(vnIndex, fBad));
  }
}
