/**
 * `CRollingBloomFilter`: positions hold the generation that last set them, in two bits spread over
 * a pair of 64-bit words.
 */
module RollingBloom {
  import opened BitOps
  import opened Numbers

  type Key = nat

  /** The 32-bit hash of a key by number and tweak. */
  type HashFunction = (nat, nat, Key) -> nat

  const WORD: nat := 0x1_0000_0000

  // ----- Words and generations -----

  function And(x: nat, y: nat): nat { Bitwise((a, b) => a && b, x, y, 64) }
  function Xor(x: nat, y: nat): nat { Bitwise((a: bool, b: bool) => a != b, x, y, 64) }

  /** `0 - x` for a bit: no bits or all 64. */
  function AllIf(x: bool): nat { if x then Pow2(64) - 1 else 0 }

  /** The generation, 1 to 3, that a position was last set in; 0 if it is not set. */
  function Label(w1: nat, w2: nat, bit: nat): nat {
    (if Bit(w1, bit) then 1 else 0) + if Bit(w2, bit) then 2 else 0
  }

  function Mask(w1: nat, w2: nat, generation: nat): nat {
    Or(Xor(w1, AllIf(generation % 2 == 1)), Xor(w2, AllIf(generation / 2 == 1)))
  }

  /** Masking clears exactly the positions of one generation. */
  lemma WipeAt(w1: nat, w2: nat, generation: nat, bit: nat)
    requires 1 <= generation <= 3 && bit < 64
    ensures var m := Mask(w1, w2, generation);
            Label(And(w1, m), And(w2, m), bit) == if Label(w1, w2, bit) == generation then 0 else Label(w1, w2, bit)
  {
    hide Bitwise, Bit, AllIf, Or;
    var m1, m2 := AllIf(generation % 2 == 1), AllIf(generation / 2 == 1);
    var m := Mask(w1, w2, generation);
    AllIfAt(generation % 2 == 1, bit);
    AllIfAt(generation / 2 == 1, bit);
    BitwiseAt((a: bool, b: bool) => a != b, w1, m1, 64, bit);
    BitwiseAt((a: bool, b: bool) => a != b, w2, m2, 64, bit);
    OrBit(Xor(w1, m1), Xor(w2, m2), bit);
    BitwiseAt((a, b) => a && b, w1, m, 64, bit);
    BitwiseAt((a, b) => a && b, w2, m, 64, bit);
  }

  lemma AllIfAt(x: bool, bit: nat)
    requires bit < 64
    ensures Bit(AllIf(x), bit) == x
  {
    if x {
      AllOnes(64, bit);
    } else {
      ZeroBits(bit);
    }
  }

  function Put(w: nat, bit: nat, on: bool): nat {
    if on then SetBit(w, bit) else ClearBit(w, bit)
  }

  lemma PutAt(w1: nat, w2: nat, bit: nat, generation: nat, j: nat)
    requires 1 <= generation <= 3
    ensures Label(Put(w1, bit, generation % 2 == 1), Put(w2, bit, generation / 2 == 1), j)
         == if j == bit then generation else Label(w1, w2, j)
  {
    SetBitAt(w1, bit, j);
    SetBitAt(w2, bit, j);
    ClearBitAt(w1, bit, j);
    ClearBitAt(w2, bit, j);
  }

  function NextGeneration(g: nat): nat { if g + 1 == 4 then 1 else g + 1 }

  /** How many generations ago a label was current. */
  function Age(g: nat, born: nat): nat
    requires 1 <= g <= 3 && 1 <= born <= 3
  {
    (g + 3 - born) % 3
  }

  // ----- Positions -----

  function FastMod(x: nat, n: nat): nat { x * n / WORD }

  lemma FastModInRange(x: nat, n: nat)
    requires x < WORD && n > 0
    ensures 0 <= FastMod(x, n) < n
  {
    MulMonotone(x, WORD - 1, n);
    MulMonotone(0, x, n);
  }

  datatype Place = Place(pair: nat, bit: nat)

  function PlaceOf(hash: HashFunction, tweak: nat, size: nat, key: Key, n: nat): (p: Place)
    requires size >= 2 && size % 2 == 0
    ensures p.bit < 64 && 2 * p.pair + 1 < size
  {
    var h := hash(n, tweak, key) % WORD;
    FastModInRange(h, size);
    Place(FastMod(h, size) / 2, h % 64)
  }

  /** The pair of words whose share of the 32-bit range the hash falls into, and the low six bits of the hash. */
  lemma PlaceIs(hash: HashFunction, tweak: nat, size: nat, key: Key, n: nat)
    requires size >= 2 && size % 2 == 0
    ensures var p, h := PlaceOf(hash, tweak, size, key, n), hash(n, tweak, key) % 0x1_0000_0000;
            2 * p.pair * 0x1_0000_0000 <= h * size < (2 * p.pair + 2) * 0x1_0000_0000 && p.bit == h % 64
  {
    var h := hash(n, tweak, key) % WORD;
    FastModInRange(h, size);
    var pos := FastMod(h, size);
    assert pos * WORD <= h * size < (pos + 1) * WORD;
    assert pos == pos / 2 * 2 || pos == pos / 2 * 2 + 1;
  }

  function At(data: seq<nat>, p: Place): (r: nat)
    requires 2 * p.pair + 1 < |data|
    ensures r <= 3
  {
    Label(data[2 * p.pair], data[2 * p.pair + 1], p.bit)
  }

  /** Every place of a key was set at most `age` generations ago. */
  ghost predicate Marked(hash: HashFunction, tweak: nat, funcs: nat, g: nat, data: seq<nat>, key: Key, age: nat)
    requires |data| >= 2 && |data| % 2 == 0 && 1 <= g <= 3
  {
    forall n :: 0 <= n < funcs ==>
      && At(data, PlaceOf(hash, tweak, |data|, key, n)) != 0
      && Age(g, At(data, PlaceOf(hash, tweak, |data|, key, n))) <= age
  }

  ghost predicate AllMarked(hash: HashFunction, tweak: nat, funcs: nat, g: nat, data: seq<nat>, keys: seq<Key>,
                            age: nat)
    requires |data| >= 2 && |data| % 2 == 0 && 1 <= g <= 3
  {
    forall i :: 0 <= i < |keys| ==> Marked(hash, tweak, funcs, g, data, keys[i], age)
  }

  lemma MarkedIsSet(hash: HashFunction, tweak: nat, funcs: nat, g: nat, data: seq<nat>, keys: seq<Key>, key: Key,
                    age: nat)
    requires |data| >= 2 && |data| % 2 == 0 && 1 <= g <= 3 && AllMarked(hash, tweak, funcs, g, data, keys, age)
    requires key in keys
    ensures forall n :: 0 <= n < funcs ==> At(data, PlaceOf(hash, tweak, |data|, key, n)) != 0
  {
    hide At, PlaceOf, Age;
    var i :| 0 <= i < |keys| && keys[i] == key;
    assert Marked(hash, tweak, funcs, g, data, keys[i], age);
  }

  /** `after` differs from `data` only in that places may have been set in generation `g`. */
  ghost predicate Freshened(g: nat, data: seq<nat>, after: seq<nat>) {
    && |after| == |data|
    && forall p: Place :: p.bit < 64 && 2 * p.pair + 1 < |data| ==> At(after, p) == At(data, p) || At(after, p) == g
  }

  lemma FreshenedMarked(hash: HashFunction, tweak: nat, funcs: nat, g: nat, data: seq<nat>, after: seq<nat>,
                        keys: seq<Key>, age: nat)
    requires |data| >= 2 && |data| % 2 == 0 && 1 <= g <= 3 && Freshened(g, data, after)
    requires AllMarked(hash, tweak, funcs, g, data, keys, age)
    ensures AllMarked(hash, tweak, funcs, g, after, keys, age)
  {
    hide At, PlaceOf;
    forall i, n | 0 <= i < |keys| && 0 <= n < funcs
      ensures At(after, PlaceOf(hash, tweak, |data|, keys[i], n)) != 0
      ensures Age(g, At(after, PlaceOf(hash, tweak, |data|, keys[i], n))) <= age
    {
      assert Marked(hash, tweak, funcs, g, data, keys[i], age);
      var p := PlaceOf(hash, tweak, |data|, keys[i], n);
      assert At(data, p) != 0 && Age(g, At(data, p)) <= age;
    }
  }

  ghost predicate IsPlaceOf(hash: HashFunction, tweak: nat, funcs: nat, size: nat, key: Key, p: Place)
    requires size >= 2 && size % 2 == 0
  {
    exists n :: 0 <= n < funcs && p == PlaceOf(hash, tweak, size, key, n)
  }

  /** Only the places of a key differ. */
  ghost predicate OnlyFor(hash: HashFunction, tweak: nat, funcs: nat, key: Key, data: seq<nat>, after: seq<nat>)
    requires |data| >= 2 && |data| % 2 == 0
  {
    && |after| == |data|
    && forall p: Place :: p.bit < 64 && 2 * p.pair + 1 < |data| && !IsPlaceOf(hash, tweak, funcs, |data|, key, p) ==>
      At(after, p) == At(data, p)
  }

  lemma OnlyForNone(hash: HashFunction, tweak: nat, key: Key, data: seq<nat>)
    requires |data| >= 2 && |data| % 2 == 0
    ensures OnlyFor(hash, tweak, 0, key, data, data)
  {
  }

  lemma OnlyForNext(hash: HashFunction, tweak: nat, n: nat, key: Key, data: seq<nat>, before: seq<nat>, after: seq<nat>)
    requires |data| >= 2 && |data| % 2 == 0 && OnlyFor(hash, tweak, n, key, data, before) && |after| == |data|
    requires forall q: Place :: 2 * q.pair + 1 < |data| && q != PlaceOf(hash, tweak, |data|, key, n) ==>
               At(after, q) == At(before, q)
    ensures OnlyFor(hash, tweak, n + 1, key, data, after)
  {
    hide At, PlaceOf;
    forall p: Place | p.bit < 64 && 2 * p.pair + 1 < |data| && !IsPlaceOf(hash, tweak, n + 1, |data|, key, p)
      ensures At(after, p) == At(data, p)
    {
      assert p != PlaceOf(hash, tweak, |data|, key, n);
    }
  }

  /** `after` is `data` with generation `g` wiped. */
  ghost predicate Wiped(g: nat, data: seq<nat>, after: seq<nat>) {
    && |after| == |data|
    && forall p: Place :: p.bit < 64 && 2 * p.pair + 1 < |data| ==>
      At(after, p) == if At(data, p) == g then 0 else At(data, p)
  }

  /** Starting a generation wipes only what is two generations old, and ages the rest by one. */
  lemma WipedMarked(hash: HashFunction, tweak: nat, funcs: nat, g: nat, data: seq<nat>, after: seq<nat>, keys: seq<Key>,
                    age: nat)
    requires |data| >= 2 && |data| % 2 == 0 && 1 <= g <= 3 && age <= 1 && Wiped(NextGeneration(g), data, after)
    requires AllMarked(hash, tweak, funcs, g, data, keys, age)
    ensures AllMarked(hash, tweak, funcs, NextGeneration(g), after, keys, age + 1)
  {
    hide At, PlaceOf;
    var h := NextGeneration(g);
    forall i, n | 0 <= i < |keys| && 0 <= n < funcs
      ensures At(after, PlaceOf(hash, tweak, |data|, keys[i], n)) != 0
      ensures Age(h, At(after, PlaceOf(hash, tweak, |data|, keys[i], n))) <= age + 1
    {
      assert Marked(hash, tweak, funcs, g, data, keys[i], age);
      var p := PlaceOf(hash, tweak, |data|, keys[i], n);
      assert At(data, p) != 0 && Age(g, At(data, p)) <= age;
    }
  }

  // ----- Whose places are set -----

  ghost predicate Owned(hash: HashFunction, tweak: nat, funcs: nat, size: nat, keys: seq<Key>, p: Place)
    requires size >= 2 && size % 2 == 0
  {
    exists i :: 0 <= i < |keys| && IsPlaceOf(hash, tweak, funcs, size, keys[i], p)
  }

  lemma OwnedMore(hash: HashFunction, tweak: nat, funcs: nat, size: nat, keys: seq<Key>, more: seq<Key>, p: Place)
    requires size >= 2 && size % 2 == 0 && Owned(hash, tweak, funcs, size, keys, p)
    ensures Owned(hash, tweak, funcs, size, keys + more, p) && Owned(hash, tweak, funcs, size, more + keys, p)
  {
    hide IsPlaceOf;
    var i :| 0 <= i < |keys| && IsPlaceOf(hash, tweak, funcs, size, keys[i], p);
    assert (keys + more)[i] == keys[i] && (more + keys)[|more| + i] == keys[i];
  }

  /** A set place belongs to a key of the generation it was set in. */
  ghost predicate AllOwned(hash: HashFunction, tweak: nat, funcs: nat, g: nat, data: seq<nat>, current: seq<Key>,
                           last: seq<Key>, beforeLast: seq<Key>)
    requires |data| >= 2 && |data| % 2 == 0 && 1 <= g <= 3
  {
    forall p: Place :: p.bit < 64 && 2 * p.pair + 1 < |data| && At(data, p) != 0 ==>
      var age := Age(g, At(data, p));
      Owned(hash, tweak, funcs, |data|, if age == 0 then current else if age == 1 then last else beforeLast, p)
  }

  lemma NothingOwned(hash: HashFunction, tweak: nat, funcs: nat, g: nat, data: seq<nat>)
    requires |data| >= 2 && |data| % 2 == 0 && 1 <= g <= 3 && forall i :: 0 <= i < |data| ==> data[i] == 0
    ensures AllOwned(hash, tweak, funcs, g, data, [], [], [])
  {
    forall p: Place | p.bit < 64 && 2 * p.pair + 1 < |data|
      ensures At(data, p) == 0
    {
      ZeroBits(p.bit);
    }
  }

  lemma MarkedOwned(hash: HashFunction, tweak: nat, funcs: nat, g: nat, data: seq<nat>, after: seq<nat>, key: Key,
                    current: seq<Key>, last: seq<Key>, beforeLast: seq<Key>)
    requires |data| >= 2 && |data| % 2 == 0 && 1 <= g <= 3
    requires AllOwned(hash, tweak, funcs, g, data, current, last, beforeLast)
    requires OnlyFor(hash, tweak, funcs, key, data, after) && Marked(hash, tweak, funcs, g, after, key, 0)
    ensures AllOwned(hash, tweak, funcs, g, after, current + [key], last, beforeLast)
  {
    hide At, PlaceOf, Owned;
    forall p: Place | p.bit < 64 && 2 * p.pair + 1 < |data| && At(after, p) != 0
      ensures var age := Age(g, At(after, p));
              Owned(hash, tweak, funcs, |data|,
                    if age == 0 then current + [key] else if age == 1 then last else beforeLast, p)
    {
      if IsPlaceOf(hash, tweak, funcs, |data|, key, p) {
        OwnedLast(hash, tweak, funcs, |data|, current, key, p);
      } else if Age(g, At(after, p)) == 0 {
        OwnedMore(hash, tweak, funcs, |data|, current, [key], p);
      }
    }
  }

  lemma OwnedLast(hash: HashFunction, tweak: nat, funcs: nat, size: nat, keys: seq<Key>, key: Key, p: Place)
    requires size >= 2 && size % 2 == 0 && IsPlaceOf(hash, tweak, funcs, size, key, p)
    ensures Owned(hash, tweak, funcs, size, keys + [key], p)
  {
    hide IsPlaceOf;
    assert (keys + [key])[|keys|] == key;
  }

  /** A new generation: what was set in the oldest one is wiped, the rest passes to the generation before. */
  lemma WipedOwned(hash: HashFunction, tweak: nat, funcs: nat, g: nat, data: seq<nat>, after: seq<nat>,
                   current: seq<Key>, last: seq<Key>, beforeLast: seq<Key>)
    requires |data| >= 2 && |data| % 2 == 0 && 1 <= g <= 3
    requires AllOwned(hash, tweak, funcs, g, data, current, last, beforeLast) && Wiped(NextGeneration(g), data, after)
    ensures AllOwned(hash, tweak, funcs, NextGeneration(g), after, [], current, last)
  {
    hide At, PlaceOf, Owned;
    forall p: Place | p.bit < 64 && 2 * p.pair + 1 < |data| && At(after, p) != 0
      ensures var age := Age(NextGeneration(g), At(after, p));
              Owned(hash, tweak, funcs, |data|, if age == 0 then [] else if age == 1 then current else last, p)
    {
      assert At(after, p) == At(data, p) && 1 <= At(data, p) <= 3 by { AtIsLabel(data, p); }
    }
  }

  lemma AtIsLabel(data: seq<nat>, p: Place)
    requires 2 * p.pair + 1 < |data|
    ensures At(data, p) <= 3
  {
  }

  /** A place is set exactly if it is one of a kept key. */
  lemma SetIffOwned(hash: HashFunction, tweak: nat, funcs: nat, g: nat, data: seq<nat>, current: seq<Key>,
                    last: seq<Key>, beforeLast: seq<Key>, p: Place)
    requires |data| >= 2 && |data| % 2 == 0 && 1 <= g <= 3 && p.bit < 64 && 2 * p.pair + 1 < |data|
    requires AllOwned(hash, tweak, funcs, g, data, current, last, beforeLast)
    requires AllMarked(hash, tweak, funcs, g, data, current, 0) && AllMarked(hash, tweak, funcs, g, data, last, 1)
    requires AllMarked(hash, tweak, funcs, g, data, beforeLast, 2)
    ensures At(data, p) != 0 <==> Owned(hash, tweak, funcs, |data|, beforeLast + last + current, p)
  {
    hide At, PlaceOf, AllMarked, Owned;
    var kept := beforeLast + last + current;
    if At(data, p) != 0 {
      var age := Age(g, At(data, p));
      if age == 0 {
        OwnedMore(hash, tweak, funcs, |data|, current, beforeLast + last, p);
      } else {
        var keys := if age == 1 then last else beforeLast;
        OwnedMore(hash, tweak, funcs, |data|, keys, if age == 1 then beforeLast else last, p);
        OwnedMore(hash, tweak, funcs, |data|, beforeLast + last, current, p);
      }
    }
    if Owned(hash, tweak, funcs, |data|, kept, p) {
      OwnedIsSet(hash, tweak, funcs, g, data, current, last, beforeLast, p);
    }
  }

  lemma OwnedIsSet(hash: HashFunction, tweak: nat, funcs: nat, g: nat, data: seq<nat>, current: seq<Key>,
                   last: seq<Key>, beforeLast: seq<Key>, p: Place)
    requires |data| >= 2 && |data| % 2 == 0 && 1 <= g <= 3 && p.bit < 64 && 2 * p.pair + 1 < |data|
    requires AllMarked(hash, tweak, funcs, g, data, current, 0) && AllMarked(hash, tweak, funcs, g, data, last, 1)
    requires AllMarked(hash, tweak, funcs, g, data, beforeLast, 2)
    requires Owned(hash, tweak, funcs, |data|, beforeLast + last + current, p)
    ensures At(data, p) != 0
  {
    hide At, PlaceOf, AllMarked;
    var kept := beforeLast + last + current;
    var i :| 0 <= i < |kept| && IsPlaceOf(hash, tweak, funcs, |data|, kept[i], p);
    if i < |beforeLast| {
      MarkedIsSet(hash, tweak, funcs, g, data, beforeLast, kept[i], 2);
    } else if i < |beforeLast| + |last| {
      assert kept[i] == last[i - |beforeLast|];
      MarkedIsSet(hash, tweak, funcs, g, data, last, kept[i], 1);
    } else {
      assert kept[i] == current[i - |beforeLast| - |last|];
      MarkedIsSet(hash, tweak, funcs, g, data, current, kept[i], 0);
    }
  }

  class RollingBloomFilter {
    const hash: HashFunction
    const nHashFuncs: nat
    const nEntriesPerGeneration: nat
    const data: array<nat>
    var nEntriesThisGeneration: nat
    var nGeneration: nat
    var nTweak: nat
    /** The keys of the current generation, the last and the one before, and all older ones. */
    ghost var current: seq<Key>
    ghost var last: seq<Key>
    ghost var beforeLast: seq<Key>
    ghost var older: seq<Key>

    ghost predicate Shaped() {
      data.Length >= 2 && data.Length % 2 == 0 && nEntriesPerGeneration >= 1
    }

    ghost predicate Valid()
      reads this, data
    {
      && Shaped() && 1 <= nGeneration <= 3
      && nEntriesThisGeneration == |current| <= nEntriesPerGeneration
      && (last != [] ==> |last| == nEntriesPerGeneration)
      && (beforeLast != [] ==> |beforeLast| == |last| == nEntriesPerGeneration)
      && (older != [] ==> |beforeLast| == |last| == nEntriesPerGeneration)
      && (last != [] || older != [] ==> current != [])
      && AllMarked(hash, nTweak, nHashFuncs, nGeneration, data[..], current, 0)
      && AllMarked(hash, nTweak, nHashFuncs, nGeneration, data[..], last, 1)
      && AllMarked(hash, nTweak, nHashFuncs, nGeneration, data[..], beforeLast, 2)
      && AllOwned(hash, nTweak, nHashFuncs, nGeneration, data[..], current, last, beforeLast)
    }

    /** All keys inserted since the last reset, in order. */
    ghost function History(): seq<Key>
      reads this
    {
      older + beforeLast + last + current
    }

    /** The number of hash functions and positions are formulas in floating point; they come as parameters. */
    constructor (nElements: nat, nHashFuncs: nat, nFilterBits: nat, hash: HashFunction, tweak: nat)
      requires nElements >= 1 && nFilterBits >= 1
      ensures Valid() && History() == [] && fresh(data) && this.hash == hash
      ensures nEntriesPerGeneration == (nElements + 1) / 2 && this.nHashFuncs == nHashFuncs
      ensures data.Length == 2 * ((nFilterBits + 63) / 64) && nTweak == tweak
      ensures forall i :: 0 <= i < data.Length ==> data[i] == 0
    {
      this.hash, this.nHashFuncs := hash, nHashFuncs;
      nEntriesPerGeneration := (nElements + 1) / 2;
      data := new nat[2 * ((nFilterBits + 63) / 64)](_ => 0);
      nTweak, nEntriesThisGeneration, nGeneration := tweak, 0, 1;
      current, last, beforeLast, older := [], [], [], [];
      new;
      hide AllOwned;
      NothingOwned(hash, nTweak, nHashFuncs, nGeneration, data[..]);
    }

    method Reset(tweak: nat)
      requires Shaped()
      modifies this, data
      ensures Valid() && History() == [] && nTweak == tweak
      ensures forall i :: 0 <= i < data.Length ==> data[i] == 0
    {
      nTweak, nEntriesThisGeneration, nGeneration := tweak, 0, 1;
      for i := 0 to data.Length
        invariant nTweak == tweak && nEntriesThisGeneration == 0 && nGeneration == 1
        invariant forall j :: 0 <= j < i ==> data[j] == 0
      {
        data[i] := 0;
      }
      current, last, beforeLast, older := [], [], [], [];
      NothingOwned(hash, nTweak, nHashFuncs, nGeneration, data[..]);
    }

    /** Wipes the entries of generation `g`. */
    method Wipe(g: nat)
      requires Shaped() && 1 <= g <= 3
      modifies data
      ensures Wiped(g, old(data[..]), data[..])
    {
      hide Label, Mask, And;
      ghost var was := data[..];
      var p := 0;
      while p < data.Length
        invariant p <= data.Length && p % 2 == 0
        invariant forall q :: p <= q < data.Length ==> data[q] == was[q]
        invariant forall q: Place :: q.bit < 64 && 2 * q.pair + 1 < p ==>
                    At(data[..], q) == if At(was, q) == g then 0 else At(was, q)
      {
        var p1, p2 := data[p], data[p + 1];
        var mask := Mask(p1, p2, g);
        ghost var before := data[..];
        data[p] := And(p1, mask);
        data[p + 1] := And(p2, mask);
        forall q: Place | q.bit < 64 && 2 * q.pair + 1 < p + 2
          ensures At(data[..], q) == if At(was, q) == g then 0 else At(was, q)
        {
          if 2 * q.pair == p {
            WipeAt(p1, p2, g, q.bit);
          } else {
            assert At(data[..], q) == At(before, q);
          }
        }
        p := p + 2;
      }
    }

    /** Sets the places of a key in the current generation. */
    method Mark(key: Key)
      requires Shaped() && 1 <= nGeneration <= 3
      modifies data
      ensures Freshened(nGeneration, old(data[..]), data[..])
      ensures Marked(hash, nTweak, nHashFuncs, nGeneration, data[..], key, 0)
      ensures OnlyFor(hash, nTweak, nHashFuncs, key, old(data[..]), data[..])
    {
      hide Label, Put, OnlyFor;
      ghost var was := data[..];
      OnlyForNone(hash, nTweak, key, was);
      for n := 0 to nHashFuncs
        invariant Freshened(nGeneration, was, data[..]) && OnlyFor(hash, nTweak, n, key, was, data[..])
        invariant forall m :: 0 <= m < n ==> At(data[..], PlaceOf(hash, nTweak, data.Length, key, m)) == nGeneration
      {
        var h := hash(n, nTweak, key) % WORD;
        var bit := h % 64;
        var pos := FastMod(h, data.Length);
        FastModInRange(h, data.Length);
        var i := pos / 2 * 2;
        ghost var before := data[..];
        data[i] := Put(data[i], bit, nGeneration % 2 == 1);
        data[i + 1] := Put(data[i + 1], bit, nGeneration / 2 == 1);
        PutPlace(before, data[..], Place(pos / 2, bit), nGeneration);
        OnlyForNext(hash, nTweak, n, key, was, before, data[..]);
      }
    }

    /** Always true for the keys of the current and the two previous generations. */
    method Contains(key: Key) returns (r: bool)
      requires Valid()
      ensures r <==> forall n :: 0 <= n < nHashFuncs ==> At(data[..], PlaceOf(hash, nTweak, data.Length, key, n)) != 0
      ensures key in beforeLast + last + current ==> r
      // It is the Bloom filter of the kept keys: true exactly if each place of the key is one of a kept key.
      ensures r <==> forall n :: 0 <= n < nHashFuncs ==>
                Owned(hash, nTweak, nHashFuncs, data.Length, beforeLast + last + current,
                      PlaceOf(hash, nTweak, data.Length, key, n))
    {
      hide AllMarked, AllOwned, Owned, Bitwise, At, PlaceOf;
      KeptIsSet(key);
      forall n | 0 <= n < nHashFuncs
        ensures var p := PlaceOf(hash, nTweak, data.Length, key, n);
                At(data[..], p) != 0 <==> Owned(hash, nTweak, nHashFuncs, data.Length, beforeLast + last + current, p)
      {
        SetIffOwned(hash, nTweak, nHashFuncs, nGeneration, data[..], current, last, beforeLast,
                    PlaceOf(hash, nTweak, data.Length, key, n));
      }
      for n := 0 to nHashFuncs
        invariant forall m :: 0 <= m < n ==> At(data[..], PlaceOf(hash, nTweak, data.Length, key, m)) != 0
      {
        var h := hash(n, nTweak, key) % WORD;
        var bit := h % 64;
        var pos := FastMod(h, data.Length);
        FastModInRange(h, data.Length);
        var i := pos / 2 * 2;
        TestPlace(hash, nTweak, data[..], key, n);
        if !Bit(Or(data[i], data[i + 1]), bit) {
          return false;
        }
      }
      r := true;
    }

    method Insert(key: Key)
      requires Valid()
      modifies this, data
      ensures Valid() && History() == old(History()) + [key] && current != [] && current[|current| - 1] == key
      ensures if old(|current|) < nEntriesPerGeneration
              then
                && current == old(current) + [key] && last == old(last) && beforeLast == old(beforeLast)
                && OnlyFor(hash, nTweak, nHashFuncs, key, old(data[..]), data[..])
              else
                && current == [key] && last == old(current) && beforeLast == old(last)
                && exists wiped: seq<nat> ::
                     && Wiped(nGeneration, old(data[..]), wiped)
                     && OnlyFor(hash, nTweak, nHashFuncs, key, wiped, data[..])
    {
      hide Marked, Wiped, Freshened, OnlyFor, AllOwned;
      if nEntriesThisGeneration == nEntriesPerGeneration {
        nEntriesThisGeneration := 0;
        ghost var g, was := nGeneration, data[..];
        nGeneration := NextGeneration(nGeneration);
        Wipe(nGeneration);
        WipedMarked(hash, nTweak, nHashFuncs, g, was, data[..], current, 0);
        WipedMarked(hash, nTweak, nHashFuncs, g, was, data[..], last, 1);
        WipedOwned(hash, nTweak, nHashFuncs, g, was, data[..], current, last, beforeLast);
        older := older + beforeLast;
        current, last, beforeLast := [], current, last;
      }
      nEntriesThisGeneration := nEntriesThisGeneration + 1;
      ghost var was := data[..];
      Mark(key);
      FreshenedMarked(hash, nTweak, nHashFuncs, nGeneration, was, data[..], current, 0);
      FreshenedMarked(hash, nTweak, nHashFuncs, nGeneration, was, data[..], last, 1);
      FreshenedMarked(hash, nTweak, nHashFuncs, nGeneration, was, data[..], beforeLast, 2);
      MarkedOwned(hash, nTweak, nHashFuncs, nGeneration, was, data[..], key, current, last, beforeLast);
      current := current + [key];
    }

    lemma KeptIsSet(key: Key)
      requires Valid()
      ensures key in beforeLast + last + current ==>
                forall n :: 0 <= n < nHashFuncs ==> At(data[..], PlaceOf(hash, nTweak, data.Length, key, n)) != 0
    {
      hide At, PlaceOf, Age, Marked;
      if key in beforeLast + last + current {
        if key in current {
          MarkedIsSet(hash, nTweak, nHashFuncs, nGeneration, data[..], current, key, 0);
        } else if key in last {
          MarkedIsSet(hash, nTweak, nHashFuncs, nGeneration, data[..], last, key, 1);
        } else {
          MarkedIsSet(hash, nTweak, nHashFuncs, nGeneration, data[..], beforeLast, key, 2);
        }
      }
    }

    /** The last `nElements` keys are all in the three generations that `Contains` answers for. */
    lemma LastKeysKept(nElements: nat, i: nat)
      requires Valid() && nEntriesPerGeneration == (nElements + 1) / 2
      requires i < |History()| && |History()| - nElements <= i
      ensures History()[i] in beforeLast + last + current
    {
      var kept := beforeLast + last + current;
      assert History() == older + kept;
      assert History()[i] == kept[i - |older|];
    }
  }

  lemma TestPlace(hash: HashFunction, tweak: nat, data: seq<nat>, key: Key, n: nat)
    requires |data| >= 2 && |data| % 2 == 0
    ensures var h := hash(n, tweak, key) % WORD;
            var i := FastMod(h, |data|) / 2 * 2;
            && 0 <= i && i + 1 < |data|
            && (Bit(Or(data[i], data[i + 1]), h % 64) <==> At(data, PlaceOf(hash, tweak, |data|, key, n)) != 0)
  {
    hide Bit, Or;
    var h := hash(n, tweak, key) % WORD;
    FastModInRange(h, |data|);
    var i := FastMod(h, |data|) / 2 * 2;
    OrBit(data[i], data[i + 1], h % 64);
  }

  lemma PutPlace(before: seq<nat>, after: seq<nat>, p: Place, g: nat)
    requires 2 * p.pair + 1 < |before| == |after| && 1 <= g <= 3
    requires after == before[2 * p.pair := Put(before[2 * p.pair], p.bit, g % 2 == 1)]
                            [2 * p.pair + 1 := Put(before[2 * p.pair + 1], p.bit, g / 2 == 1)]
    ensures At(after, p) == g
    ensures forall q: Place :: 2 * q.pair + 1 < |before| && q != p ==> At(after, q) == At(before, q)
  {
    hide Label, Put;
    PutAt(before[2 * p.pair], before[2 * p.pair + 1], p.bit, g, p.bit);
    forall q: Place | 2 * q.pair + 1 < |before| && q != p
      ensures At(after, q) == At(before, q)
    {
      PutAt(before[2 * p.pair], before[2 * p.pair + 1], p.bit, g, q.bit);
    }
  }
}
