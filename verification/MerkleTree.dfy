/**
 * The values behind `CPartialMerkleTree`: the shape of the tree, its hashes, what building stores
 * and what extraction makes of any stored bits and hashes.
 *
 * Hashes are numbers, 0 the null hash; the two-input hash is a parameter that results about
 * authenticity require to be injective.
 */
module MerkleTree {
  import opened Numbers
  import opened Sequences

  type Hash = nat

  type Combine = (Hash, Hash) -> Hash

  ghost predicate Injective(f: Combine) {
    forall a, b, c, d :: f(a, b) == f(c, d) ==> a == c && b == d
  }

  ghost predicate Distinct(txids: seq<Hash>) {
    forall i, j :: 0 <= i < j < |txids| ==> txids[i] != txids[j]
  }

  // ----- Shape -----

  /** The number of nodes at a height over `n` leaves. */
  function Width(n: nat, h: nat): nat {
    (n + Pow2(h) - 1) / Pow2(h)
  }

  function First(h: nat, pos: nat): nat {
    pos * Pow2(h)
  }

  /** One past the last leaf of a node. */
  function Last(n: nat, h: nat, pos: nat): nat {
    Min(n, First(h, pos + 1))
  }

  lemma CeilingBounds(n: nat, a: nat)
    requires a >= 1
    ensures var w := (n + a - 1) / a; (w - 1) * a < n <= w * a
  {
    var w := (n + a - 1) / a;
    assert n + a - 1 == w * a + (n + a - 1) % a;
    assert (w - 1) * a == w * a - a;
  }

  /** A position is in the tree exactly when its first leaf is. */
  lemma WidthMeans(n: nat, h: nat, pos: nat)
    ensures pos < Width(n, h) <==> First(h, pos) < n
  {
    var a, w := Pow2(h), Width(n, h);
    CeilingBounds(n, a);
    if pos < w {
      MulMonotone(pos, w - 1, a);
    } else {
      MulMonotone(w, pos, a);
    }
  }

  lemma Children(h: nat, pos: nat)
    requires h > 0
    ensures First(h - 1, 2 * pos) == First(h, pos) && First(h - 1, 2 * pos + 2) == First(h, pos + 1)
    ensures First(h, pos) < First(h - 1, 2 * pos + 1) < First(h, pos + 1)
  {
    var a := Pow2(h - 1);
    assert pos * (2 * a) == (2 * pos) * a;
    assert (pos + 1) * (2 * a) == (2 * pos + 2) * a;
    assert (2 * pos + 1) * a == (2 * pos) * a + a;
    assert (2 * pos + 2) * a == (2 * pos + 1) * a + a;
  }

  /** The left child of a node is in the tree. */
  lemma LeftChild(n: nat, h: nat, pos: nat)
    requires h > 0 && pos < Width(n, h)
    ensures 2 * pos < Width(n, h - 1)
  {
    WidthMeans(n, h, pos);
    WidthMeans(n, h - 1, 2 * pos);
    Children(h, pos);
  }

  /** The height of the tree: the least with a single node. */
  function Height(n: nat): (h: nat)
    ensures Width(n, h) <= 1
    ensures forall k :: 0 <= k < h ==> Width(n, k) > 1
  {
    HeightFrom(n, 0)
  }

  function HeightFrom(n: nat, h: nat): (r: nat)
    requires forall k :: 0 <= k < h ==> Width(n, k) > 1
    ensures h <= r && Width(n, r) <= 1 && forall k :: 0 <= k < r ==> Width(n, k) > 1
    decreases Width(n, h)
  {
    if Width(n, h) <= 1 then h else
      WidthFalls(n, h);
      HeightFrom(n, h + 1)
  }

  lemma WidthFalls(n: nat, h: nat)
    requires Width(n, h) > 1
    ensures Width(n, h + 1) < Width(n, h)
  {
    var w := Width(n, h);
    CeilingBounds(n, Pow2(h));
    assert !(w - 1 < Width(n, h + 1)) by {
      WidthMeans(n, h + 1, w - 1);
      assert First(h + 1, w - 1) == (w - 1) * (2 * Pow2(h)) == (2 * w - 2) * Pow2(h);
      MulMonotone(w, 2 * w - 2, Pow2(h));
    }
  }

  // ----- Hashes -----

  function CalcHash(f: Combine, h: nat, pos: nat, txids: seq<Hash>): Hash
    requires pos < Width(|txids|, h)
    decreases h
  {
    if h == 0 then txids[pos] else
      LeftChild(|txids|, h, pos);
      var left := CalcHash(f, h - 1, 2 * pos, txids);
      var right := if 2 * pos + 1 < Width(|txids|, h - 1) then CalcHash(f, h - 1, 2 * pos + 1, txids) else left;
      f(left, right)
  }

  /** Over distinct txids, different nodes of one height have different hashes. */
  lemma {:induction false} DistinctNodes(f: Combine, h: nat, p: nat, q: nat, txids: seq<Hash>)
    requires Injective(f) && Distinct(txids) && p != q && p < Width(|txids|, h) && q < Width(|txids|, h)
    ensures CalcHash(f, h, p, txids) != CalcHash(f, h, q, txids)
    decreases h
  {
    if h > 0 {
      LeftChild(|txids|, h, p);
      LeftChild(|txids|, h, q);
      DistinctNodes(f, h - 1, 2 * p, 2 * q, txids);
    }
  }

  // ----- What building stores -----

  predicate AnyMatch(match_: seq<bool>, lo: nat, hi: nat) {
    exists p :: lo <= p < hi && p < |match_| && match_[p]
  }

  /** The matched positions of a stretch, in order. */
  function Matched(match_: seq<bool>, lo: nat, hi: nat): seq<nat>
    requires hi <= |match_|
    decreases hi
  {
    if hi <= lo then [] else Matched(match_, lo, hi - 1) + if match_[hi - 1] then [hi - 1] else []
  }

  predicate ParentOfMatch(match_: seq<bool>, h: nat, pos: nat) {
    AnyMatch(match_, First(h, pos), Last(|match_|, h, pos))
  }

  function Bits(n: nat, match_: seq<bool>, h: nat, pos: nat): seq<bool>
    decreases h
  {
    var parent := ParentOfMatch(match_, h, pos);
    if h == 0 || !parent then [parent]
    else [parent] + Bits(n, match_, h - 1, 2 * pos)
         + if 2 * pos + 1 < Width(n, h - 1) then Bits(n, match_, h - 1, 2 * pos + 1) else []
  }

  function Hashes(f: Combine, txids: seq<Hash>, match_: seq<bool>, h: nat, pos: nat): seq<Hash>
    requires pos < Width(|txids|, h)
    decreases h
  {
    if h == 0 || !ParentOfMatch(match_, h, pos) then [CalcHash(f, h, pos, txids)]
    else
      LeftChild(|txids|, h, pos);
      Hashes(f, txids, match_, h - 1, 2 * pos)
      + if 2 * pos + 1 < Width(|txids|, h - 1) then Hashes(f, txids, match_, h - 1, 2 * pos + 1) else []
  }

  // ----- What extraction makes of bits and hashes -----

  datatype Cursor = Cursor(nBitsUsed: nat, nHashUsed: nat, vMatch: seq<Hash>, vnIndex: seq<nat>, fBad: bool)

  datatype Extracted = Extracted(hash: Hash, c: Cursor)

  function Extract(f: Combine, n: nat, vBits: seq<bool>, vHash: seq<Hash>, h: nat, pos: nat, c: Cursor): Extracted
    decreases h
  {
    if c.nBitsUsed >= |vBits| then Extracted(0, c.(fBad := true)) else
      var parent := vBits[c.nBitsUsed];
      var d := Read(c);
      if h == 0 || !parent then
        if d.nHashUsed >= |vHash| then Extracted(0, d.(fBad := true)) else
          var hash := vHash[d.nHashUsed];
          var e := d.(nHashUsed := d.nHashUsed + 1);
          if h == 0 && parent then Extracted(hash, e.(vMatch := e.vMatch + [hash], vnIndex := e.vnIndex + [pos]))
            else Extracted(hash, e)
      else
        var left := Extract(f, n, vBits, vHash, h - 1, 2 * pos, d);
        if 2 * pos + 1 < Width(n, h - 1) then
          var right := Extract(f, n, vBits, vHash, h - 1, 2 * pos + 1, left.c);
          Extracted(f(left.hash, right.hash), right.c.(fBad := right.c.fBad || right.hash == left.hash))
        else
          Extracted(f(left.hash, left.hash), left.c)
  }

  /** A failure is never forgotten. */
  lemma {:induction false} BadStays(f: Combine, n: nat, vBits: seq<bool>, vHash: seq<Hash>, h: nat, pos: nat, c: Cursor)
    ensures c.fBad ==> Extract(f, n, vBits, vHash, h, pos, c).c.fBad
    decreases h
  {
    if c.nBitsUsed < |vBits| && h > 0 && vBits[c.nBitsUsed] {
      var d := c.(nBitsUsed := c.nBitsUsed + 1);
      BadStays(f, n, vBits, vHash, h - 1, 2 * pos, d);
      BadStays(f, n, vBits, vHash, h - 1, 2 * pos + 1, Extract(f, n, vBits, vHash, h - 1, 2 * pos, d).c);
    }
  }

  // ----- Soundness -----

  /** From `c` to `d` only true (txid, position) pairs were reported, at rising positions in [lo, hi). */
  ghost predicate Genuine(txids: seq<Hash>, c: Cursor, d: Cursor, lo: nat, hi: nat) {
    && |c.vMatch| <= |d.vMatch| && |c.vnIndex| <= |d.vnIndex| && |d.vMatch| - |c.vMatch| == |d.vnIndex| - |c.vnIndex|
    && d.vMatch[..|c.vMatch|] == c.vMatch && d.vnIndex[..|c.vnIndex|] == c.vnIndex
    && (forall k :: |c.vnIndex| <= k < |d.vnIndex| ==>
          lo <= d.vnIndex[k] < hi && d.vnIndex[k] < |txids|
          && d.vMatch[k - |c.vnIndex| + |c.vMatch|] == txids[d.vnIndex[k]])
    && (forall k, l :: |c.vnIndex| <= k < l < |d.vnIndex| ==> d.vnIndex[k] < d.vnIndex[l])
  }

  lemma GenuineChain(txids: seq<Hash>, c: Cursor, d: Cursor, e: Cursor, lo: nat, mid: nat, hi: nat)
    requires Genuine(txids, c, d, lo, mid) && Genuine(txids, d, e, mid, hi) && lo <= mid <= hi
    ensures Genuine(txids, c, e, lo, hi)
  {
    assert e.vMatch[..|c.vMatch|] == d.vMatch[..|c.vMatch|];
    assert e.vnIndex[..|c.vnIndex|] == d.vnIndex[..|c.vnIndex|];
    forall k | |c.vnIndex| <= k < |e.vnIndex|
      ensures lo <= e.vnIndex[k] < hi && e.vnIndex[k] < |txids|
      ensures e.vMatch[k - |c.vnIndex| + |c.vMatch|] == txids[e.vnIndex[k]]
    {
      if k < |d.vnIndex| {
        assert e.vnIndex[k] == e.vnIndex[..|d.vnIndex|][k] == d.vnIndex[k];
        var j := k - |c.vnIndex| + |c.vMatch|;
        assert e.vMatch[j] == e.vMatch[..|d.vMatch|][j] == d.vMatch[j];
      }
    }
    forall k, l | |c.vnIndex| <= k < l < |e.vnIndex|
      ensures e.vnIndex[k] < e.vnIndex[l]
    {
      if k < |d.vnIndex| {
        assert e.vnIndex[k] == e.vnIndex[..|d.vnIndex|][k] == d.vnIndex[k];
      }
      if l < |d.vnIndex| {
        assert e.vnIndex[l] == e.vnIndex[..|d.vnIndex|][l] == d.vnIndex[l];
      }
    }
  }

  function Read(c: Cursor): Cursor {
    c.(nBitsUsed := c.nBitsUsed + 1)
  }

  /** Where extraction descends to a node's true hash, it found the children's true hashes. */
  lemma ChildrenAreTrue(f: Combine, txids: seq<Hash>, vBits: seq<bool>, vHash: seq<Hash>, h: nat, pos: nat, c: Cursor)
    requires Injective(f) && 0 < h && pos < Width(|txids|, h) && c.nBitsUsed < |vBits| && vBits[c.nBitsUsed]
    requires var x := Extract(f, |txids|, vBits, vHash, h, pos, c); !x.c.fBad && x.hash == CalcHash(f, h, pos, txids)
    ensures var x := Extract(f, |txids|, vBits, vHash, h, pos, c);
            var left := Extract(f, |txids|, vBits, vHash, h - 1, 2 * pos, Read(c));
            var right := Extract(f, |txids|, vBits, vHash, h - 1, 2 * pos + 1, left.c);
            && 2 * pos < Width(|txids|, h - 1) && !left.c.fBad && left.hash == CalcHash(f, h - 1, 2 * pos, txids)
            && if 2 * pos + 1 < Width(|txids|, h - 1) then
                 x.c == right.c && !right.c.fBad && right.hash == CalcHash(f, h - 1, 2 * pos + 1, txids)
               else x.c == left.c
  {
    hide Width, Extract, CalcHash;
    NodeHash(f, h, pos, txids);
    ExtractDescends(f, |txids|, vBits, vHash, h, pos, c);
    var left := Extract(f, |txids|, vBits, vHash, h - 1, 2 * pos, Read(c));
    BadStays(f, |txids|, vBits, vHash, h - 1, 2 * pos + 1, left.c);
  }

  lemma NodeHash(f: Combine, h: nat, pos: nat, txids: seq<Hash>)
    requires 0 < h && pos < Width(|txids|, h)
    ensures 2 * pos < Width(|txids|, h - 1)
    ensures var left := CalcHash(f, h - 1, 2 * pos, txids);
            CalcHash(f, h, pos, txids) ==
              f(left, if 2 * pos + 1 < Width(|txids|, h - 1) then CalcHash(f, h - 1, 2 * pos + 1, txids) else left)
  {
    hide Width;
    LeftChild(|txids|, h, pos);
  }

  /** Extraction at any other node. */
  lemma ExtractHere(f: Combine, n: nat, vBits: seq<bool>, vHash: seq<Hash>, h: nat, pos: nat, c: Cursor)
    requires c.nBitsUsed >= |vBits| || h == 0 || !vBits[c.nBitsUsed]
    ensures var x := Extract(f, n, vBits, vHash, h, pos, c);
            if c.nBitsUsed >= |vBits| then x == Extracted(0, c.(fBad := true))
            else if c.nHashUsed >= |vHash| then x == Extracted(0, Read(c).(fBad := true))
            else
              var hash, d := vHash[c.nHashUsed], Read(c).(nHashUsed := c.nHashUsed + 1);
              x == Extracted(hash, if h == 0 && vBits[c.nBitsUsed]
                                   then d.(vMatch := d.vMatch + [hash], vnIndex := d.vnIndex + [pos]) else d)
  {
  }

  /** Extraction at a node that is descended into. */
  lemma ExtractDescends(f: Combine, n: nat, vBits: seq<bool>, vHash: seq<Hash>, h: nat, pos: nat, c: Cursor)
    requires 0 < h && c.nBitsUsed < |vBits| && vBits[c.nBitsUsed]
    ensures var left := Extract(f, n, vBits, vHash, h - 1, 2 * pos, Read(c));
            var right := Extract(f, n, vBits, vHash, h - 1, 2 * pos + 1, left.c);
            Extract(f, n, vBits, vHash, h, pos, c) ==
              if 2 * pos + 1 < Width(n, h - 1) then
                Extracted(f(left.hash, right.hash), right.c.(fBad := right.c.fBad || right.hash == left.hash))
              else Extracted(f(left.hash, left.hash), left.c)
  {
    hide Width;
  }

  /** Whatever the bits and hashes, extraction that yields a node's true hash reports only true pairs. */
  lemma {:induction false} ExtractSound(f: Combine, txids: seq<Hash>, vBits: seq<bool>, vHash: seq<Hash>, h: nat,
                                        pos: nat, c: Cursor)
    requires Injective(f) && pos < Width(|txids|, h)
    requires var x := Extract(f, |txids|, vBits, vHash, h, pos, c); !x.c.fBad && x.hash == CalcHash(f, h, pos, txids)
    ensures Genuine(txids, c, Extract(f, |txids|, vBits, vHash, h, pos, c).c, First(h, pos), First(h, pos + 1))
    decreases h
  {
    hide Genuine, Width, First, Extract, CalcHash;
    var n, x := |txids|, Extract(f, |txids|, vBits, vHash, h, pos, c);
    if c.nBitsUsed < |vBits| && h > 0 && vBits[c.nBitsUsed] {
      Children(h, pos);
      ChildrenAreTrue(f, txids, vBits, vHash, h, pos, c);
      var left := Extract(f, n, vBits, vHash, h - 1, 2 * pos, Read(c));
      var mid := First(h - 1, 2 * pos + 1);
      GenuineSame(txids, c, Read(c), First(h, pos), First(h, pos));
      ExtractSound(f, txids, vBits, vHash, h - 1, 2 * pos, Read(c));
      if 2 * pos + 1 < Width(n, h - 1) {
        ExtractSound(f, txids, vBits, vHash, h - 1, 2 * pos + 1, left.c);
      } else {
        GenuineSame(txids, left.c, left.c, mid, First(h, pos + 1));
      }
      GenuineChain(txids, Read(c), left.c, x.c, First(h, pos), mid, First(h, pos + 1));
      GenuineChain(txids, c, Read(c), x.c, First(h, pos), First(h, pos), First(h, pos + 1));
    } else {
      StopIsTrue(f, txids, vBits, vHash, h, pos, c);
    }
  }

  lemma StopIsTrue(f: Combine, txids: seq<Hash>, vBits: seq<bool>, vHash: seq<Hash>, h: nat, pos: nat, c: Cursor)
    requires pos < Width(|txids|, h) && !(c.nBitsUsed < |vBits| && h > 0 && vBits[c.nBitsUsed])
    requires var x := Extract(f, |txids|, vBits, vHash, h, pos, c); !x.c.fBad && x.hash == CalcHash(f, h, pos, txids)
    ensures Genuine(txids, c, Extract(f, |txids|, vBits, vHash, h, pos, c).c, First(h, pos), First(h, pos + 1))
  {
    hide Genuine, First;
    var x := Extract(f, |txids|, vBits, vHash, h, pos, c);
    if h == 0 && vBits[c.nBitsUsed] {
      GenuineLeaf(txids, c, x.c, pos);
    } else {
      GenuineSame(txids, c, x.c, First(h, pos), First(h, pos + 1));
    }
  }

  lemma GenuineSame(txids: seq<Hash>, c: Cursor, d: Cursor, lo: nat, hi: nat)
    requires c.vMatch == d.vMatch && c.vnIndex == d.vnIndex
    ensures Genuine(txids, c, d, lo, hi)
  {
  }

  lemma GenuineLeaf(txids: seq<Hash>, c: Cursor, d: Cursor, pos: nat)
    requires pos < Width(|txids|, 0) && d.vMatch == c.vMatch + [txids[pos]] && d.vnIndex == c.vnIndex + [pos]
    ensures Genuine(txids, c, d, First(0, pos), First(0, pos + 1))
  {
  }

  // ----- Extracting what was built -----

  function Pick(txids: seq<Hash>, indexes: seq<nat>): seq<Hash>
    requires forall i :: 0 <= i < |indexes| ==> indexes[i] < |txids|
  {
    seq(|indexes|, i requires 0 <= i < |indexes| => txids[indexes[i]])
  }

  lemma {:induction false} MatchedBounds(match_: seq<bool>, lo: nat, hi: nat)
    requires hi <= |match_|
    ensures var m := Matched(match_, lo, hi);
            && (forall k :: 0 <= k < |m| ==> lo <= m[k] < hi && match_[m[k]])
            && (forall k, l :: 0 <= k < l < |m| ==> m[k] < m[l])
            && (forall p :: lo <= p < hi && match_[p] ==> p in m)
            && |m| <= if lo <= hi then hi - lo else 0
    decreases hi
  {
    if lo < hi {
      MatchedBounds(match_, lo, hi - 1);
    }
  }

  lemma {:induction false} MatchedSplit(match_: seq<bool>, lo: nat, mid: nat, hi: nat)
    requires lo <= mid <= hi <= |match_|
    ensures Matched(match_, lo, hi) == Matched(match_, lo, mid) + Matched(match_, mid, hi)
    decreases hi
  {
    if mid < hi {
      MatchedSplit(match_, lo, mid, hi - 1);
    }
  }

  lemma MatchedEmpty(match_: seq<bool>, lo: nat, hi: nat)
    requires hi <= |match_|
    ensures !AnyMatch(match_, lo, hi) <==> Matched(match_, lo, hi) == []
  {
    MatchedBounds(match_, lo, hi);
    if Matched(match_, lo, hi) != [] {
      assert match_[Matched(match_, lo, hi)[0]];
    }
  }

  /** The leaves of a node are those of its children. */
  lemma LeavesSplit(n: nat, h: nat, pos: nat)
    requires h > 0 && pos < Width(n, h)
    ensures First(h, pos) < Last(n, h, pos) <= n
    ensures First(h - 1, 2 * pos) == First(h, pos) <= Last(n, h - 1, 2 * pos) <= Last(n, h, pos)
    ensures if 2 * pos + 1 < Width(n, h - 1)
            then First(h - 1, 2 * pos + 1) == Last(n, h - 1, 2 * pos) && Last(n, h - 1, 2 * pos + 1) == Last(n, h, pos)
            else Last(n, h - 1, 2 * pos) == Last(n, h, pos)
  {
    WidthMeans(n, h, pos);
    WidthMeans(n, h - 1, 2 * pos + 1);
    Children(h, pos);
  }

  /** The matches below a node, as extraction reports them. */
  ghost function Reported(txids: seq<Hash>, match_: seq<bool>, h: nat, pos: nat, c: Cursor, bits: nat,
                          hashes: nat): Cursor
    requires |match_| == |txids|
  {
    var m := Matched(match_, First(h, pos), Last(|txids|, h, pos));
    MatchedBounds(match_, First(h, pos), Last(|txids|, h, pos));
    Cursor(c.nBitsUsed + bits, c.nHashUsed + hashes, c.vMatch + Pick(txids, m), c.vnIndex + m, c.fBad)
  }

  lemma ReportedNone(txids: seq<Hash>, match_: seq<bool>, h: nat, pos: nat, c: Cursor)
    requires |match_| == |txids| && !ParentOfMatch(match_, h, pos)
    ensures Reported(txids, match_, h, pos, c, 1, 1) == c.(nBitsUsed := c.nBitsUsed + 1, nHashUsed := c.nHashUsed + 1)
  {
    MatchedEmpty(match_, First(h, pos), Last(|txids|, h, pos));
    assert c.vMatch + [] == c.vMatch && c.vnIndex + [] == c.vnIndex;
  }

  lemma ReportedLeaf(txids: seq<Hash>, match_: seq<bool>, pos: nat, c: Cursor)
    requires |match_| == |txids| && pos < |txids| && match_[pos]
    ensures Reported(txids, match_, 0, pos, c, 1, 1)
         == Cursor(c.nBitsUsed + 1, c.nHashUsed + 1, c.vMatch + [txids[pos]], c.vnIndex + [pos], c.fBad)
  {
    assert Matched(match_, pos, pos) == [];
    assert Matched(match_, pos, pos + 1) == [pos];
    assert Pick(txids, [pos]) == [txids[pos]];
  }

  lemma ReportedNode(txids: seq<Hash>, match_: seq<bool>, h: nat, pos: nat, c: Cursor, lb: nat, lh: nat, rb: nat,
                     rh: nat)
    requires |match_| == |txids| && h > 0 && pos < Width(|txids|, h)
    ensures var left := Reported(txids, match_, h - 1, 2 * pos, Read(c), lb, lh);
            if 2 * pos + 1 < Width(|txids|, h - 1)
            then Reported(txids, match_, h - 1, 2 * pos + 1, left, rb, rh)
              == Reported(txids, match_, h, pos, c, 1 + lb + rb, lh + rh)
            else left == Reported(txids, match_, h, pos, c, 1 + lb, lh)
  {
    hide First, Width, Last;
    LeavesSplit(|txids|, h, pos);
    var lo, mid, hi := First(h, pos), Last(|txids|, h - 1, 2 * pos), Last(|txids|, h, pos);
    MatchedSplit(match_, lo, mid, hi);
    MatchedBounds(match_, lo, mid);
    MatchedBounds(match_, mid, hi);
    MatchedBounds(match_, lo, hi);
    PickJoin(txids, c.vMatch, Matched(match_, lo, mid), Matched(match_, mid, hi));
    assert c.vnIndex + Matched(match_, lo, hi) == c.vnIndex + Matched(match_, lo, mid) + Matched(match_, mid, hi);
  }

  lemma PickJoin(txids: seq<Hash>, before: seq<Hash>, a: seq<nat>, b: seq<nat>)
    requires forall i :: 0 <= i < |a| ==> a[i] < |txids|
    requires forall i :: 0 <= i < |b| ==> b[i] < |txids|
    ensures before + Pick(txids, a) + Pick(txids, b) == before + Pick(txids, a + b)
  {
  }

  function RightBits(n: nat, match_: seq<bool>, h: nat, pos: nat): seq<bool>
    requires h > 0
  {
    if 2 * pos + 1 < Width(n, h - 1) then Bits(n, match_, h - 1, 2 * pos + 1) else []
  }

  function RightHashes(f: Combine, txids: seq<Hash>, match_: seq<bool>, h: nat, pos: nat): seq<Hash>
    requires h > 0
  {
    if 2 * pos + 1 < Width(|txids|, h - 1) then Hashes(f, txids, match_, h - 1, 2 * pos + 1) else []
  }

  lemma BuiltNode(f: Combine, txids: seq<Hash>, match_: seq<bool>, h: nat, pos: nat)
    requires h > 0 && pos < Width(|txids|, h) && ParentOfMatch(match_, h, pos)
    ensures 2 * pos < Width(|txids|, h - 1)
    ensures Bits(|txids|, match_, h, pos)
              == [true] + (Bits(|txids|, match_, h - 1, 2 * pos) + RightBits(|txids|, match_, h, pos))
    ensures Hashes(f, txids, match_, h, pos)
              == Hashes(f, txids, match_, h - 1, 2 * pos) + RightHashes(f, txids, match_, h, pos)
    ensures SingleChildren(|txids|, match_, h, pos) == SingleChildren(|txids|, match_, h - 1, 2 * pos)
              + if 2 * pos + 1 < Width(|txids|, h - 1) then SingleChildren(|txids|, match_, h - 1, 2 * pos + 1) else 1
  {
    hide ParentOfMatch, Width, CalcHash;
    LeftChild(|txids|, h, pos);
  }

  /** Descending, once both children are known. */
  lemma ExtractNode(f: Combine, txids: seq<Hash>, vBits: seq<bool>, vHash: seq<Hash>, h: nat, pos: nat, c: Cursor,
                    left: Cursor, right: Cursor)
    requires h > 0 && pos < Width(|txids|, h) && c.nBitsUsed < |vBits| && vBits[c.nBitsUsed]
    requires 2 * pos < Width(|txids|, h - 1)
    requires Extract(f, |txids|, vBits, vHash, h - 1, 2 * pos, Read(c))
               == Extracted(CalcHash(f, h - 1, 2 * pos, txids), left)
    requires if 2 * pos + 1 < Width(|txids|, h - 1)
             then Extract(f, |txids|, vBits, vHash, h - 1, 2 * pos + 1, left)
               == Extracted(CalcHash(f, h - 1, 2 * pos + 1, txids), right)
                  && CalcHash(f, h - 1, 2 * pos, txids) != CalcHash(f, h - 1, 2 * pos + 1, txids)
             else right == left
    ensures Extract(f, |txids|, vBits, vHash, h, pos, c) == Extracted(CalcHash(f, h, pos, txids), right)
  {
    hide Width;
  }

  /** Extraction retraces building: the true hash, every bit and hash used, every match reported in order. */
  lemma {:induction false} ExtractBuilt(f: Combine, txids: seq<Hash>, match_: seq<bool>, vBits: seq<bool>,
                                        vHash: seq<Hash>, h: nat, pos: nat, c: Cursor)
    requires Injective(f) && Distinct(txids) && |match_| == |txids| && pos < Width(|txids|, h)
    requires At(vBits, c.nBitsUsed, Bits(|txids|, match_, h, pos))
    requires At(vHash, c.nHashUsed, Hashes(f, txids, match_, h, pos))
    ensures Extract(f, |txids|, vBits, vHash, h, pos, c)
         == Extracted(CalcHash(f, h, pos, txids),
                      Reported(txids, match_, h, pos, c, |Bits(|txids|, match_, h, pos)|,
                               |Hashes(f, txids, match_, h, pos)|))
    decreases h
  {
    hide At, Reported, ParentOfMatch, Width, First, Injective, Distinct, Bits, Hashes, Extract, CalcHash;
    var n := |txids|;
    if h > 0 && ParentOfMatch(match_, h, pos) {
      BuiltNode(f, txids, match_, h, pos);
      var lb, lh := Bits(n, match_, h - 1, 2 * pos), Hashes(f, txids, match_, h - 1, 2 * pos);
      var rb, rh := RightBits(n, match_, h, pos), RightHashes(f, txids, match_, h, pos);
      AtFirst(vBits, c.nBitsUsed, true, lb + rb);
      AtSplit(vBits, c.nBitsUsed + 1, lb, rb);
      AtSplit(vHash, c.nHashUsed, lh, rh);
      ExtractBuilt(f, txids, match_, vBits, vHash, h - 1, 2 * pos, Read(c));
      var left := Reported(txids, match_, h - 1, 2 * pos, Read(c), |lb|, |lh|);
      ReportedUsed(txids, match_, h - 1, 2 * pos, Read(c), |lb|, |lh|);
      ReportedNode(txids, match_, h, pos, c, |lb|, |lh|, |rb|, |rh|);
      if 2 * pos + 1 < Width(n, h - 1) {
        ExtractBuilt(f, txids, match_, vBits, vHash, h - 1, 2 * pos + 1, left);
        DistinctNodes(f, h - 1, 2 * pos, 2 * pos + 1, txids);
      }
      ExtractNode(f, txids, vBits, vHash, h, pos, c, left,
                  Reported(txids, match_, h, pos, c, 1 + |lb| + |rb|, |lh| + |rh|));
    } else {
      ExtractStop(f, txids, match_, vBits, vHash, h, pos, c);
    }
  }

  lemma ReportedUsed(txids: seq<Hash>, match_: seq<bool>, h: nat, pos: nat, c: Cursor, bits: nat, hashes: nat)
    requires |match_| == |txids|
    ensures var r := Reported(txids, match_, h, pos, c, bits, hashes);
            r.nBitsUsed == c.nBitsUsed + bits && r.nHashUsed == c.nHashUsed + hashes && r.fBad == c.fBad
  {
  }

  lemma ExtractStop(f: Combine, txids: seq<Hash>, match_: seq<bool>, vBits: seq<bool>, vHash: seq<Hash>, h: nat,
                    pos: nat, c: Cursor)
    requires |match_| == |txids| && pos < Width(|txids|, h) && (h == 0 || !ParentOfMatch(match_, h, pos))
    requires At(vBits, c.nBitsUsed, Bits(|txids|, match_, h, pos))
    requires At(vHash, c.nHashUsed, Hashes(f, txids, match_, h, pos))
    ensures Extract(f, |txids|, vBits, vHash, h, pos, c)
              == Extracted(CalcHash(f, h, pos, txids), Reported(txids, match_, h, pos, c, 1, 1))
    ensures |Bits(|txids|, match_, h, pos)| == 1 && |Hashes(f, txids, match_, h, pos)| == 1
  {
    hide Reported, First, Width;
    AtFirst(vBits, c.nBitsUsed, ParentOfMatch(match_, h, pos), []);
    AtFirst(vHash, c.nHashUsed, CalcHash(f, h, pos, txids), []);
    if ParentOfMatch(match_, h, pos) {
      LeafParent(match_, pos);
      ReportedLeaf(txids, match_, pos, c);
    } else {
      ReportedNone(txids, match_, h, pos, c);
    }
  }

  lemma LeafParent(match_: seq<bool>, pos: nat)
    requires pos < Width(|match_|, 0)
    ensures pos < |match_| && (ParentOfMatch(match_, 0, pos) <==> match_[pos])
  {
  }

  // ----- Sizes -----

  /** The nodes descended into that have one child. */
  function SingleChildren(n: nat, match_: seq<bool>, h: nat, pos: nat): nat
    decreases h
  {
    if h == 0 || !ParentOfMatch(match_, h, pos) then 0
    else SingleChildren(n, match_, h - 1, 2 * pos)
         + if 2 * pos + 1 < Width(n, h - 1) then SingleChildren(n, match_, h - 1, 2 * pos + 1) else 1
  }

  /** At most one hash per leaf and at most 1 + matches * height; one bit per node. */
  lemma {:induction false} BuiltSizes(f: Combine, txids: seq<Hash>, match_: seq<bool>, h: nat, pos: nat)
    requires |match_| == |txids| && pos < Width(|txids|, h)
    ensures var n, m := |Hashes(f, txids, match_, h, pos)|, |Matched(match_, First(h, pos), Last(|txids|, h, pos))|;
            && 1 <= n <= Last(|txids|, h, pos) - First(h, pos)
            && n <= 1 + m * h
            && |Bits(|txids|, match_, h, pos)| + 1 == 2 * n + SingleChildren(|txids|, match_, h, pos)
    decreases h
  {
    hide ParentOfMatch, Width, First, Last, CalcHash, Bits, Hashes, SingleChildren, Matched;
    var n := |txids|;
    var lo, hi := First(h, pos), Last(n, h, pos);
    if h > 0 && ParentOfMatch(match_, h, pos) {
      BuiltNode(f, txids, match_, h, pos);
      LeavesSplit(n, h, pos);
      var mid := Last(n, h - 1, 2 * pos);
      MatchedSplit(match_, lo, mid, hi);
      HasMatch(match_, h, pos);
      BuiltSizes(f, txids, match_, h - 1, 2 * pos);
      if 2 * pos + 1 < Width(n, h - 1) {
        BuiltSizes(f, txids, match_, h - 1, 2 * pos + 1);
      }
      OneMoreLevel(|Matched(match_, lo, mid)|, |Matched(match_, mid, hi)|, h);
    } else {
      BuiltStop(f, txids, match_, h, pos);
      HasLeaf(n, h, pos);
    }
  }

  lemma BuiltStop(f: Combine, txids: seq<Hash>, match_: seq<bool>, h: nat, pos: nat)
    requires pos < Width(|txids|, h) && (h == 0 || !ParentOfMatch(match_, h, pos))
    ensures Bits(|txids|, match_, h, pos) == [ParentOfMatch(match_, h, pos)]
    ensures Hashes(f, txids, match_, h, pos) == [CalcHash(f, h, pos, txids)]
    ensures SingleChildren(|txids|, match_, h, pos) == 0
  {
  }

  lemma OneMoreLevel(l: nat, r: nat, h: nat)
    requires h > 0 && l + r >= 1
    ensures 2 + l * (h - 1) + r * (h - 1) <= 1 + (l + r) * h
    ensures 1 + l * (h - 1) <= 1 + (l + r) * h && 0 <= r * (h - 1)
  {
    assert (l + r) * h == l * (h - 1) + r * (h - 1) + (l + r);
  }

  lemma HasMatch(match_: seq<bool>, h: nat, pos: nat)
    requires ParentOfMatch(match_, h, pos)
    ensures |Matched(match_, First(h, pos), Last(|match_|, h, pos))| >= 1
  {
    MatchedEmpty(match_, First(h, pos), Last(|match_|, h, pos));
  }

  lemma HasLeaf(n: nat, h: nat, pos: nat)
    requires pos < Width(n, h)
    ensures First(h, pos) < Last(n, h, pos) <= n
  {
    WidthMeans(n, h, pos);
    assert (pos + 1) * Pow2(h) == pos * Pow2(h) + Pow2(h);
  }
}
