/** `CPartialMerkleTree`: building, extracting and the byte packing of the flag bits. */
module MerkleBlock {
  import opened BitOps
  import opened MerkleTree
  import opened Numbers

  const MAX_BLOCK_WEIGHT: nat := 1_000_000
  const MIN_TRANSACTION_WEIGHT: nat := 60
  const MAX_TRANSACTIONS: nat := MAX_BLOCK_WEIGHT / MIN_TRANSACTION_WEIGHT

  // ----- Flag bits and bytes -----

  predicate BitOf(bytes: seq<nat>, p: nat)
    requires p / 8 < |bytes|
  {
    Bit(bytes[p / 8], p % 8)
  }

  function Packed(n: nat): nat { (n + 7) / 8 }

  /** Flag bits to bytes, eight to a byte, the last one filled up with zeros. */
  method PackBits(vBits: seq<bool>) returns (vBytes: seq<nat>)
    ensures |vBytes| == Packed(|vBits|) && forall i :: 0 <= i < |vBytes| ==> vBytes[i] < 256
    ensures forall p :: 0 <= p < 8 * |vBytes| ==> (BitOf(vBytes, p) <==> p < |vBits| && vBits[p])
  {
    vBytes := seq(Packed(|vBits|), _ => 0);
    forall p: nat | p < 8 * |vBytes|
      ensures !BitOf(vBytes, p)
    {
      ZeroBits(p % 8);
    }
    for p := 0 to |vBits|
      invariant |vBytes| == Packed(|vBits|) && forall i :: 0 <= i < |vBytes| ==> vBytes[i] < 256
      invariant forall q :: 0 <= q < 8 * |vBytes| ==> (BitOf(vBytes, q) <==> q < p && vBits[q])
    {
      if vBits[p] {
        SetBitRange(vBytes[p / 8], p % 8, 8);
        Pow2Values();
        ghost var was := vBytes;
        vBytes := vBytes[p / 8 := SetBit(vBytes[p / 8], p % 8)];
        forall q: nat | q < 8 * |vBytes|
          ensures BitOf(vBytes, q) <==> BitOf(was, q) || q == p
        {
          SetBitAt(was[p / 8], p % 8, q % 8);
          assert q == 8 * (q / 8) + q % 8 && p == 8 * (p / 8) + p % 8;
        }
      }
    }
  }

  method UnpackBits(vBytes: seq<nat>) returns (vBits: seq<bool>)
    ensures |vBits| == 8 * |vBytes| && forall p :: 0 <= p < |vBits| ==> (vBits[p] <==> BitOf(vBytes, p))
  {
    vBits := [];
    for p := 0 to 8 * |vBytes|
      invariant |vBits| == p && forall q :: 0 <= q < p ==> (vBits[q] <==> BitOf(vBytes, q))
    {
      vBits := vBits + [Bit(vBytes[p / 8], p % 8)];
    }
  }

  /** The bits as they come back from the wire. */
  function Padded(vBits: seq<bool>): seq<bool> {
    vBits + seq(8 * Packed(|vBits|) - |vBits|, _ => false)
  }

  // ----- Results of an extraction -----

  function Root(f: Combine, txids: seq<Hash>): Hash
    requires txids != []
  {
    RootInTree(|txids|);
    CalcHash(f, Height(|txids|), 0, txids)
  }

  lemma RootInTree(n: nat)
    requires n > 0
    ensures 0 < Width(n, Height(n))
  {
    WidthMeans(n, Height(n), 0);
  }

  predicate Plausible(n: nat, vBits: seq<bool>, vHash: seq<Hash>) {
    n != 0 && n <= MAX_TRANSACTIONS && |vHash| <= n && |vBits| >= |vHash|
  }

  function Start(vnIndex: seq<nat>, fBad: bool): Cursor {
    Cursor(0, 0, [], vnIndex, fBad)
  }

  /** What `ExtractMatches` leaves: the root, 0 for a failure, and the lists. */
  function Outcome(f: Combine, n: nat, vBits: seq<bool>, vHash: seq<Hash>, fBad: bool, vnIndex: seq<nat>): Extracted {
    if !Plausible(n, vBits, vHash) then Extracted(0, Start(vnIndex, fBad)) else
      var x := Extract(f, n, vBits, vHash, Height(n), 0, Start(vnIndex, fBad));
      if x.c.fBad || Packed(x.c.nBitsUsed) != Packed(|vBits|) || x.c.nHashUsed != |vHash| then x.(hash := 0) else x
  }

  /** Any data that yields the root of a txid list reports only its txids, at their positions, in rising order. */
  lemma MatchesAreGenuine(f: Combine, txids: seq<Hash>, vBits: seq<bool>, vHash: seq<Hash>, fBad: bool,
                          vnIndex: seq<nat>)
    requires Injective(f) && txids != []
    requires Outcome(f, |txids|, vBits, vHash, fBad, vnIndex).hash == Root(f, txids) != 0
    ensures Genuine(txids, Start(vnIndex, fBad), Outcome(f, |txids|, vBits, vHash, fBad, vnIndex).c, 0, |txids|)
  {
    hide Genuine;
    RootInTree(|txids|);
    ExtractSound(f, txids, vBits, vHash, Height(|txids|), 0, Start(vnIndex, fBad));
    var x := Outcome(f, |txids|, vBits, vHash, fBad, vnIndex);
    GenuineInRange(txids, Start(vnIndex, fBad), x.c, First(Height(|txids|), 1));
  }

  lemma GenuineInRange(txids: seq<Hash>, c: Cursor, d: Cursor, hi: nat)
    requires Genuine(txids, c, d, 0, hi)
    ensures Genuine(txids, c, d, 0, |txids|)
  {
  }

  function BuiltBits(match_: seq<bool>): seq<bool> {
    Bits(|match_|, match_, Height(|match_|), 0)
  }

  function BuiltHashes(f: Combine, txids: seq<Hash>, match_: seq<bool>): seq<Hash>
    requires txids != []
  {
    RootInTree(|txids|);
    Hashes(f, txids, match_, Height(|txids|), 0)
  }

  function AllMatched(match_: seq<bool>): seq<nat> {
    Matched(match_, 0, |match_|)
  }

  function MatchedTxids(txids: seq<Hash>, match_: seq<bool>): seq<Hash>
    requires |match_| == |txids|
  {
    MatchedBounds(match_, 0, |match_|);
    Pick(txids, AllMatched(match_))
  }

  /** A built tree gives back the root and exactly the matched txids, with or without the padding of the wire. */
  lemma BuiltComesBack(f: Combine, txids: seq<Hash>, match_: seq<bool>, vnIndex: seq<nat>, padded: bool)
    requires Injective(f) && Distinct(txids) && 1 <= |txids| <= 16_666 && |match_| == |txids|
    ensures var bits := BuiltBits(match_);
            var x := Outcome(f, |txids|, if padded then Padded(bits) else bits, BuiltHashes(f, txids, match_), false,
                             vnIndex);
            x.hash == Root(f, txids) && x.c.vMatch == MatchedTxids(txids, match_)
            && x.c.vnIndex == vnIndex + AllMatched(match_)
  {
    hide Extract, Bits, Hashes, CalcHash, Matched, Packed, Padded, Width, Height, First, Last, Injective, Distinct;
    var n, h := |txids|, Height(|txids|);
    RootInTree(n);
    var bits, hashes := BuiltBits(match_), BuiltHashes(f, txids, match_);
    var vBits := if padded then Padded(bits) else bits;
    PaddedKeeps(bits);
    assert vBits[0..|bits|] == bits && hashes[0..|hashes|] == hashes;
    BuiltSizes(f, txids, match_, h, 0);
    ExtractBuilt(f, txids, match_, vBits, hashes, h, 0, Start(vnIndex, false));
    RootCovers(n);
    assert [] + MatchedTxids(txids, match_) == MatchedTxids(txids, match_);
  }

  lemma PaddedKeeps(bits: seq<bool>)
    ensures |bits| <= |Padded(bits)| && Padded(bits)[0..|bits|] == bits && Packed(|Padded(bits)|) == Packed(|bits|)
  {
  }

  /** The first flag tells whether anything is matched; if not, the proof is that flag and the root. */
  lemma FirstFlag(f: Combine, txids: seq<Hash>, match_: seq<bool>)
    requires 1 <= |txids| == |match_|
    ensures |BuiltBits(match_)| >= 1 && (BuiltBits(match_)[0] <==> exists p :: 0 <= p < |match_| && match_[p])
    ensures !BuiltBits(match_)[0] ==> BuiltBits(match_) == [false] && BuiltHashes(f, txids, match_) == [Root(f, txids)]
  {
    RootInTree(|txids|);
    RootCovers(|txids|);
    var parent := ParentOfMatch(match_, Height(|match_|), 0);
    assert parent <==> exists p :: 0 <= p < |match_| && match_[p];
  }

  lemma RootCovers(n: nat)
    requires n > 0
    ensures First(Height(n), 0) == 0 && Last(n, Height(n), 0) == n
  {
    WidthMeans(n, Height(n), 1);
  }

  // ----- The class -----

  /** The serialized form. */
  datatype Wire = Wire(nTransactions: nat, vHash: seq<Hash>, vBytes: seq<nat>)

  class CPartialMerkleTree {
    const hash: Combine
    var nTransactions: nat
    var vBits: seq<bool>
    var vHash: seq<Hash>
    var fBad: bool

    constructor (hash: Combine)
      ensures this.hash == hash && nTransactions == 0 && fBad && vBits == [] && vHash == []
    {
      this.hash := hash;
      nTransactions, fBad, vBits, vHash := 0, true, [], [];
    }

    constructor Build(hash: Combine, vTxid: seq<Hash>, vMatch: seq<bool>)
      requires vTxid != [] && |vMatch| == |vTxid|
      ensures this.hash == hash && nTransactions == |vTxid| && !fBad
      ensures vBits == BuiltBits(vMatch) && vHash == BuiltHashes(hash, vTxid, vMatch)
    {
      hide Bits, Hashes, Width, Height, CalcHash;
      this.hash := hash;
      nTransactions, fBad, vBits, vHash := |vTxid|, false, [], [];
      new;
      var nHeight := CalcHeight();
      RootInTree(|vTxid|);
      TraverseAndBuild(nHeight, 0, vTxid, vMatch);
    }

    method CalcHeight() returns (nHeight: nat)
      ensures nHeight == Height(nTransactions)
    {
      hide Width, Height;
      nHeight := 0;
      while Width(nTransactions, nHeight) > 1
        invariant nHeight <= Height(nTransactions)
        decreases Height(nTransactions) - nHeight
      {
        nHeight := nHeight + 1;
      }
    }

    method TraverseAndBuild(height: nat, pos: nat, vTxid: seq<Hash>, vMatch: seq<bool>)
      requires |vTxid| == |vMatch| == nTransactions && pos < Width(nTransactions, height)
      modifies this`vBits, this`vHash
      ensures vBits == old(vBits) + Bits(nTransactions, vMatch, height, pos)
      ensures vHash == old(vHash) + Hashes(hash, vTxid, vMatch, height, pos)
      decreases height
    {
      hide Width, Bits, Hashes, CalcHash, ParentOfMatch;
      var fParentOfMatch := IsParentOfMatch(height, pos, vMatch);
      vBits := vBits + [fParentOfMatch];
      if height == 0 || !fParentOfMatch {
        BuiltStop(hash, vTxid, vMatch, height, pos);
        vHash := vHash + [CalcHash(hash, height, pos, vTxid)];
      } else {
        BuiltNode(hash, vTxid, vMatch, height, pos);
        TraverseAndBuild(height - 1, 2 * pos, vTxid, vMatch);
        if 2 * pos + 1 < Width(nTransactions, height - 1) {
          TraverseAndBuild(height - 1, 2 * pos + 1, vTxid, vMatch);
        }
      }
    }

    method IsParentOfMatch(height: nat, pos: nat, vMatch: seq<bool>) returns (r: bool)
      requires |vMatch| == nTransactions
      ensures r == ParentOfMatch(vMatch, height, pos)
    {
      r := false;
      var p := First(height, pos);
      while p < First(height, pos + 1) && p < nTransactions
        invariant First(height, pos) <= p && r == AnyMatch(vMatch, First(height, pos), p)
        invariant p <= Last(nTransactions, height, pos) || p == First(height, pos)
      {
        r := r || vMatch[p];
        p := p + 1;
      }
    }

    method TraverseAndExtract(height: nat, pos: nat, c: Cursor) returns (r: Hash, d: Cursor)
      requires c.fBad == fBad
      modifies this`fBad
      ensures Extracted(r, d) == Extract(hash, nTransactions, vBits, vHash, height, pos, c) && d.fBad == fBad
      decreases height
    {
      hide Width, Extract;
      if height > 0 && c.nBitsUsed < |vBits| && vBits[c.nBitsUsed] {
        ExtractDescends(hash, nTransactions, vBits, vHash, height, pos, c);
      } else {
        ExtractHere(hash, nTransactions, vBits, vHash, height, pos, c);
      }
      d := c;
      if d.nBitsUsed >= |vBits| {
        fBad := true;
        return 0, d.(fBad := true);
      }
      var fParentOfMatch := vBits[d.nBitsUsed];
      d := d.(nBitsUsed := d.nBitsUsed + 1);
      if height == 0 || !fParentOfMatch {
        if d.nHashUsed >= |vHash| {
          fBad := true;
          return 0, d.(fBad := true);
        }
        r := vHash[d.nHashUsed];
        d := d.(nHashUsed := d.nHashUsed + 1);
        if height == 0 && fParentOfMatch {
          d := d.(vMatch := d.vMatch + [r], vnIndex := d.vnIndex + [pos]);
        }
      } else {
        var left, right;
        left, d := TraverseAndExtract(height - 1, 2 * pos, d);
        if 2 * pos + 1 < Width(nTransactions, height - 1) {
          right, d := TraverseAndExtract(height - 1, 2 * pos + 1, d);
          if right == left {
            fBad := true;
            d := d.(fBad := true);
          }
        } else {
          right := left;
        }
        r := hash(left, right);
      }
    }

    /** `vnIndex` is appended to, as its caller passed it. */
    method ExtractMatches(vnIndex: seq<nat>) returns (root: Hash, matches: seq<Hash>, indexes: seq<nat>)
      modifies this`fBad
      ensures var x := Outcome(hash, nTransactions, vBits, vHash, old(fBad), vnIndex);
              root == x.hash && matches == x.c.vMatch && indexes == x.c.vnIndex && fBad == x.c.fBad
    {
      if nTransactions == 0 || nTransactions > MAX_TRANSACTIONS || |vHash| > nTransactions || |vBits| < |vHash| {
        return 0, [], vnIndex;
      }
      var nHeight := CalcHeight();
      var d;
      root, d := TraverseAndExtract(nHeight, 0, Start(vnIndex, fBad));
      matches, indexes := d.vMatch, d.vnIndex;
      if fBad || Packed(d.nBitsUsed) != Packed(|vBits|) || d.nHashUsed != |vHash| {
        root := 0;
      }
    }

    method Serialize() returns (w: Wire)
      ensures w.nTransactions == nTransactions && w.vHash == vHash && |w.vBytes| == Packed(|vBits|)
      ensures forall p :: 0 <= p < 8 * |w.vBytes| ==> (BitOf(w.vBytes, p) <==> p < |vBits| && vBits[p])
    {
      var vBytes := PackBits(vBits);
      w := Wire(nTransactions, vHash, vBytes);
    }

    method Unserialize(w: Wire)
      modifies this
      ensures nTransactions == w.nTransactions && vHash == w.vHash && !fBad && |vBits| == 8 * |w.vBytes|
      ensures forall p :: 0 <= p < |vBits| ==> (vBits[p] <==> BitOf(w.vBytes, p))
    {
      nTransactions, vHash := w.nTransactions, w.vHash;
      vBits := UnpackBits(w.vBytes);
      fBad := false;
    }
  }

  /** Built, sent, received and extracted: the root and exactly the matched txids and positions. */
  method RoundTrip(hash: Combine, vTxid: seq<Hash>, vMatch: seq<bool>, vnIndex: seq<nat>)
    returns (root: Hash, matches: seq<Hash>, indexes: seq<nat>)
    requires Injective(hash) && Distinct(vTxid) && 1 <= |vTxid| <= 16_666 && |vMatch| == |vTxid|
    ensures root == Root(hash, vTxid) && matches == MatchedTxids(vTxid, vMatch)
    ensures indexes == vnIndex + AllMatched(vMatch)
  {
    hide Injective, Distinct, Root, Outcome, MatchedTxids, AllMatched, BuiltBits, BuiltHashes;
    var sender := new CPartialMerkleTree.Build(hash, vTxid, vMatch);
    var wire := sender.Serialize();
    var receiver := new CPartialMerkleTree(hash);
    receiver.Unserialize(wire);
    assert receiver.vBits == Padded(sender.vBits);
    root, matches, indexes := receiver.ExtractMatches(vnIndex);
    BuiltComesBack(hash, vTxid, vMatch, vnIndex, true);
  }
}
