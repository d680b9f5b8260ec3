/** Golomb-coded set filters: building, accepting an encoding and matching. */
module BlockFilter {
  import opened BitStreams
  import opened Golomb
  import opened Numbers
  import opened Options

  const WORD: nat := 0x1_0000_0000

  /** The keyed 64-bit hash stands for SipHash. */
  datatype Params = Params(hash: nat -> nat, m_P: nat, m_M: nat)

  ghost predicate ParamsOk(params: Params) {
    params.m_P < 64 && params.m_M < WORD
  }

  // ----- Mapping into a range -----

  /** The upper 64 bits of a 128-bit product. */
  function MapIntoRange(x: nat, n: nat): nat { x * n / (WORD * WORD) }

  /** The product from 32-bit pieces, for machines without 128-bit integers. */
  function MapPiecewise(x: nat, n: nat): nat {
    var x_hi, x_lo := x / WORD, x % WORD;
    var n_hi, n_lo := n / WORD, n % WORD;
    var ac, ad, bc, bd := x_hi * n_hi, x_hi * n_lo, x_lo * n_hi, x_lo * n_lo;
    var mid34 := bd / WORD + bc % WORD + ad % WORD;
    ac + bc / WORD + ad / WORD + mid34 / WORD
  }

  /** The pieces never overflow 64 bits and give the same. */
  lemma PiecewiseIsExact(x: nat, n: nat)
    requires x < WORD * WORD && n < WORD * WORD
    ensures MapPiecewise(x, n) == MapIntoRange(x, n) < WORD * WORD
    ensures var x_hi, x_lo, n_hi, n_lo := x / WORD, x % WORD, n / WORD, n % WORD;
            && x_hi * n_hi < WORD * WORD && x_hi * n_lo < WORD * WORD && x_lo * n_hi < WORD * WORD
            && x_lo * n_lo < WORD * WORD
            && x_lo * n_lo / WORD + x_lo * n_hi % WORD + x_hi * n_lo % WORD < WORD * WORD
  {
    var a, b, c, d := x / WORD, x % WORD, n / WORD, n % WORD;
    ProductFits(a, c);
    ProductFits(a, d);
    ProductFits(b, c);
    ProductFits(b, d);
    var ac, ad, bc, bd := a * c, a * d, b * c, b * d;
    assert x * n == ac * (WORD * WORD) + (ad + bc) * WORD + bd by {
      Foil(a, b, c, d);
    }
    var mid := bd / WORD + bc % WORD + ad % WORD;
    var q := ac + bc / WORD + ad / WORD + mid / WORD;
    var r := mid % WORD * WORD + bd % WORD;
    assert x * n == q * (WORD * WORD) + r;
    DivUnique(x * n, WORD * WORD, q, r);
    MapBelow(x, n);
  }

  lemma ProductFits(x: nat, y: nat)
    requires x < WORD && y < WORD
    ensures 0 <= x * y < WORD * WORD
  {
    MulMonotone(x, WORD - 1, y);
    MulMonotone(0, x, y);
  }

  lemma Foil(a: int, b: int, c: int, d: int)
    ensures (a * WORD + b) * (c * WORD + d) == a * c * (WORD * WORD) + (a * d + b * c) * WORD + b * d
  {
    var w := WORD;
    assert (a * w + b) * (c * w + d) == (a * w) * (c * w) + (a * w) * d + b * (c * w) + b * d;
    assert (a * w) * (c * w) == a * c * (w * w);
    assert (a * w) * d + b * (c * w) == (a * d + b * c) * w;
  }

  lemma MapBelow(x: nat, n: nat)
    requires x < WORD * WORD
    ensures 0 <= MapIntoRange(x, n) && (n > 0 ==> MapIntoRange(x, n) < n)
  {
    MulMonotone(0, x, n);
    MulMonotone(x, WORD * WORD - 1, n);
    Division(x * n, WORD * WORD);
  }

  // ----- Hashed sets -----

  function HashToRange(params: Params, f: nat, element: nat): nat {
    MapIntoRange(params.hash(element) % (WORD * WORD), f)
  }

  ghost predicate Sorted(s: seq<nat>) {
    forall i, j :: 0 <= i < j < |s| ==> s[i] <= s[j]
  }

  /** The list holds the images of the elements, one for each. */
  ghost predicate Images(params: Params, f: nat, elements: set<nat>, s: seq<nat>) {
    && |s| == |elements|
    && (forall e :: e in elements ==> HashToRange(params, f, e) in s)
    && (forall i :: 0 <= i < |s| ==> exists e :: e in elements && HashToRange(params, f, e) == s[i])
  }

  /** A list with `x` put in at position `i`. */
  function Inserted(s: seq<nat>, i: nat, x: nat): (r: seq<nat>)
    requires i <= |s|
    ensures |r| == |s| + 1
  {
    s[..i] + [x] + s[i..]
  }

  lemma InsertedSorted(s: seq<nat>, i: nat, x: nat)
    requires Sorted(s) && i <= |s| && (forall j :: 0 <= j < i ==> s[j] < x) && (i < |s| ==> x <= s[i])
    ensures Sorted(Inserted(s, i, x))
  {
    var r := Inserted(s, i, x);
    forall j, k | 0 <= j < k < |r|
      ensures r[j] <= r[k]
    {
      var before := if j < i then s[j] else if j == i then x else s[j - 1];
      var after := if k < i then s[k] else if k == i then x else s[k - 1];
      assert r[j] == before && r[k] == after;
    }
  }

  lemma InsertedCounts(s: seq<nat>, i: nat, x: nat)
    requires i <= |s|
    ensures multiset(Inserted(s, i, x)) == multiset(s) + multiset{x}
  {
    assert s == s[..i] + s[i..];
  }

  lemma InsertedMembers(s: seq<nat>, i: nat, x: nat, y: nat)
    requires i <= |s|
    ensures y in Inserted(s, i, x) <==> y in s || y == x
  {
    hide Inserted;
    InsertedCounts(s, i, x);
    assert y in Inserted(s, i, x) <==> y in multiset(Inserted(s, i, x));
    assert y in s <==> y in multiset(s);
  }

  method InsertSorted(s: seq<nat>, x: nat) returns (r: seq<nat>)
    requires Sorted(s)
    ensures Sorted(r) && multiset(r) == multiset(s) + multiset{x} && |r| == |s| + 1
    ensures forall y :: y in r <==> y in s || y == x
  {
    hide Sorted, Inserted;
    var i := 0;
    while i < |s| && s[i] < x
      invariant i <= |s| && forall j :: 0 <= j < i ==> s[j] < x
    {
      i := i + 1;
    }
    r := Inserted(s, i, x);
    InsertedSorted(s, i, x);
    InsertedCounts(s, i, x);
    forall y
      ensures y in r <==> y in s || y == x
    {
      InsertedMembers(s, i, x, y);
    }
  }

  method BuildHashedSet(params: Params, f: nat, elements: set<nat>) returns (r: seq<nat>)
    ensures Sorted(r) && Images(params, f, elements, r)
  {
    hide HashToRange, Sorted, Images;
    r := [];
    var rest := elements;
    ghost var done: set<nat> := {};
    NoImages(params, f);
    while rest != {}
      invariant done == elements - rest && rest <= elements && Sorted(r) && Images(params, f, done, r)
      decreases |rest|
    {
      var e :| e in rest;
      ghost var was := r;
      r := InsertSorted(r, HashToRange(params, f, e));
      ImagesNext(params, f, done, e, was, r);
      rest := rest - {e};
      done := done + {e};
    }
    assert done == elements;
  }

  lemma NoImages(params: Params, f: nat)
    ensures Sorted([]) && Images(params, f, {}, [])
  {
  }

  lemma ImagesNext(params: Params, f: nat, done: set<nat>, e: nat, s: seq<nat>, r: seq<nat>)
    requires Images(params, f, done, s) && e !in done && |r| == |s| + 1
    requires forall y :: y in r <==> y in s || y == HashToRange(params, f, e)
    ensures Images(params, f, done + {e}, r)
  {
    hide HashToRange;
    forall i | 0 <= i < |r|
      ensures exists x :: x in done + {e} && HashToRange(params, f, x) == r[i]
    {
      assert r[i] in r;
      if r[i] in s {
        var j :| 0 <= j < |s| && s[j] == r[i];
        var x :| x in done && HashToRange(params, f, x) == s[j];
        assert x in done + {e};
      } else {
        assert e in done + {e};
      }
    }
  }

  // ----- Values and differences -----

  /** The running sums of differences, as 64 bits. */
  function Values(deltas: seq<nat>): (r: seq<nat>)
    ensures |r| == |deltas|
  {
    if deltas == [] then [] else
      var before := Values(deltas[..|deltas| - 1]);
      before + [Add64(Last(before), deltas[|deltas| - 1])]
  }

  function Add64(a: nat, b: nat): nat { (a + b) % WORD64 }

  function Last(s: seq<nat>): nat { if s == [] then 0 else s[|s| - 1] }

  /** The differences a builder writes, one by one. */
  function DeltasUpTo(values: seq<nat>, n: nat): (r: seq<nat>)
    requires Sorted(values) && n <= |values|
    ensures |r| == n
  {
    if n == 0 then [] else DeltasUpTo(values, n - 1) + [values[n - 1] - if n == 1 then 0 else values[n - 2]]
  }

  lemma {:induction false} ValuesBack(values: seq<nat>, n: nat)
    requires Sorted(values) && n <= |values| && forall i :: 0 <= i < |values| ==> values[i] < WORD64
    ensures Values(DeltasUpTo(values, n)) == values[..n]
    ensures forall i :: 0 <= i < n ==> DeltasUpTo(values, n)[i] < WORD64
    decreases n
  {
    hide Values, Add64;
    if n == 0 {
      NoValues();
    } else {
      ValuesBack(values, n - 1);
      var d := DeltasUpTo(values, n);
      assert d[..n - 1] == DeltasUpTo(values, n - 1);
      ValuesLast(d);
      var before := if n == 1 then 0 else values[n - 2];
      assert Last(values[..n - 1]) == before;
      SumBack(before, values[n - 1]);
      assert values[..n] == values[..n - 1] + [values[n - 1]];
    }
  }

  lemma NoValues()
    ensures Values([]) == []
  {
  }

  lemma ValuesLast(deltas: seq<nat>)
    requires deltas != []
    ensures var before := Values(deltas[..|deltas| - 1]);
            Values(deltas) == before + [Add64(Last(before), deltas[|deltas| - 1])]
  {
    hide Add64;
  }

  lemma SumBack(a: nat, b: nat)
    requires a <= b < WORD64
    ensures Add64(a, b - a) == b
  {
  }

  // ----- Filters -----

  datatype Filter = Filter(params: Params, m_N: nat, m_F: nat, m_encoded: seq<nat>)

  /** The bits after the size of a filter's encoding. */
  function Body(bytes: seq<nat>, start: nat): seq<bool>
    requires start <= |bytes|
  {
    Bytes(bytes[start..])
  }

  /** An encoding of exactly `n` values: the size, then codes that end in the last byte. */
  ghost predicate Encodes(params: Params, encoded: seq<nat>, n: nat, deltas: seq<nat>) {
    && ReadCompactSize(encoded).Got? && ReadCompactSize(encoded).value == n
    && ReadCompactSize(encoded).next <= |encoded|
    && var start := ReadCompactSize(encoded).next;
       var r := ReadAll(params.m_P, Body(encoded, start), 0, n);
       r.Got? && r.value == deltas && (r.next + 7) / 8 == |encoded| - start
  }

  /** What a builder writes for a list of differences. */
  function Encoding(params: Params, deltas: seq<nat>): seq<nat> {
    WriteCompactSize(|deltas|) + Packed(RiceAll(params.m_P, deltas))
  }

  /** A filter's own encoding is accepted back exactly when the reader accepts its size. */
  lemma OwnEncoding(params: Params, deltas: seq<nat>)
    requires |deltas| < WORD && forall i :: 0 <= i < |deltas| ==> deltas[i] < WORD64
    ensures if |deltas| <= 0x0200_0000 then Encodes(params, Encoding(params, deltas), |deltas|, deltas)
            else ReadCompactSize(Encoding(params, deltas)) == Failed
  {
    hide RiceAll, ReadAll, WriteCompactSize, ReadCompactSize, Packed;
    var n, bits := |deltas|, RiceAll(params.m_P, deltas);
    CompactSizeBack(n, Packed(bits));
    if n <= MAX_SIZE {
      var start := |WriteCompactSize(n)|;
      assert Encoding(params, deltas)[start..] == Packed(bits);
      PackedBytes(bits);
      assert Bytes(Packed(bits))[0..|bits|] == bits;
      RiceAllBack(params.m_P, deltas, Bytes(Packed(bits)), 0);
    }
  }

  // ----- The loops -----

  /** Writes up to 64 ones of the quotient at a time. */
  method GolombRiceEncode(bitwriter: BitStreamWriter, p: nat, x: nat)
    requires bitwriter.Valid() && p < 64 && x < WORD64
    modifies bitwriter
    ensures bitwriter.Valid() && bitwriter.Bits() == old(bitwriter.Bits()) + Rice(p, x)
  {
    hide Pow2, Quotient, Ones, BitsOf, Bytes;
    var all := Quotient(x, Pow2(p));
    ghost var bits := bitwriter.Bits();
    var q := all;
    OnesAdd(0, 0);
    while q > 0
      invariant bitwriter.Valid() && q <= all && bitwriter.Bits() == bits + Ones(all - q)
    {
      var nbits := if q <= 64 then q else 64;
      OnesAdd(all - q, nbits);
      OnesBits(nbits);
      assert bits + Ones(all - q) + Ones(nbits) == bits + (Ones(all - q) + Ones(nbits));
      var _ := bitwriter.Write(WORD64 - 1, nbits);
      q := q - nbits;
    }
    var _ := bitwriter.Write(0, 1);
    ZeroBit();
    var _ := bitwriter.Write(x, p);
    Regrouped(bits, Ones(all), [false], BitsOf(x, p));
  }

  lemma OnesAdd(a: nat, b: nat)
    ensures Ones(a) + Ones(b) == Ones(a + b) && Ones(0) == []
  {
  }

  lemma OnesBits(n: nat)
    requires n <= 64
    ensures BitsOf(WORD64 - 1, n) == Ones(n)
  {
    WordIs();
    LowOnes(64, n);
  }

  lemma {:induction false} LowOnes(m: nat, n: nat)
    requires n <= m
    ensures BitsOf(Pow2(m) - 1, n) == Ones(n)
    decreases n
  {
    if n > 0 {
      LowOnes(m - 1, n - 1);
      Doubles(m);
      assert (Pow2(m) - 1) / 2 == Pow2(m - 1) - 1;
    }
  }

  lemma ZeroBit()
    ensures BitsOf(0, 1) == [false]
  {
    assert BitsOf(0, 0) == [];
  }

  lemma Regrouped(a: seq<bool>, b: seq<bool>, c: seq<bool>, d: seq<bool>)
    ensures a + b + c + d == a + (b + (c + d))
  {
  }

  /** Decodes a quotient in unary. */
  method ReadQuotient(bitreader: BitStreamReader) returns (r: Option<nat>)
    requires bitreader.Valid() && bitreader.Pos() >= 0
    modifies bitreader
    ensures bitreader.Valid() && bitreader.Pos() >= 0
    ensures var code := ReadUnary(Bytes(bitreader.bytes), old(bitreader.Pos()));
            if code.Failed? then r == None else r == Some(code.value) && bitreader.Pos() == code.next
  {
    hide Pow2, FromBits, Bytes;
    ghost var bits: seq<bool>, start: nat := Bytes(bitreader.bytes), bitreader.Pos();
    var q := 0;
    var bit := bitreader.Read(1);
    OneBit(bits, start);
    while bit == Some(1)
      invariant bitreader.Valid() && bit.Some? == (start + q < |bits|) && bitreader.Pos() >= 0
      invariant bit.Some? ==> bitreader.Pos() == start + q + 1 && bit == Some(if bits[start + q] then 1 else 0)
      invariant ReadUnary(bits, start) == Later(ReadUnary(bits, start + q), q)
      decreases |bits| - start - q
    {
      q := q + 1;
      bit := bitreader.Read(1);
      OneBit(bits, start + q);
    }
    r := if bit.None? then None else Some(q);
  }

  /** Decodes a number; running out of data is a failure. */
  method GolombRiceDecode(bitreader: BitStreamReader, p: nat) returns (r: Option<nat>)
    requires bitreader.Valid() && bitreader.Pos() >= 0 && p < 64
    modifies bitreader
    ensures bitreader.Valid() && bitreader.Pos() >= 0
    ensures var code := ReadRice(p, Bytes(bitreader.bytes), old(bitreader.Pos()));
            if code.Failed? then r == None else r == Some(code.value) && bitreader.Pos() == code.next
  {
    hide Pow2, FromBits, Bytes, ReadUnary;
    var q := ReadQuotient(bitreader);
    if q.None? {
      return None;
    }
    var rest := bitreader.Read(p);
    if rest.None? {
      return None;
    }
    r := Some((q.value * Pow2(p) + rest.value) % WORD64);
  }

  lemma OneBit(bits: seq<bool>, p: nat)
    ensures p < |bits| ==> FromBits(bits[p..p + 1]) == if bits[p] then 1 else 0
  {
    if p < |bits| {
      assert bits[p..p + 1][..0] == [];
    }
  }

  function Later(r: Read<nat>, q: nat): Read<nat> {
    if r.Failed? then Failed else Got(r.value + q, r.next)
  }

  /** Builds a filter; `values` are the hashed elements it stands for. */
  method FromElements(params: Params, elements: set<nat>) returns (r: Option<Filter>, ghost values: seq<nat>)
    requires ParamsOk(params)
    ensures r.None? <==> |elements| >= 0x1_0000_0000
    ensures Sorted(values) && Images(params, |elements| * params.m_M, elements, values)
    ensures r.Some? ==>
              r.value == Filter(params, |elements|, |elements| * params.m_M,
                                Encoding(params, DeltasUpTo(values, |values|)))
  {
    hide Images, RiceAll, Packed, DeltasUpTo, HashToRange;
    var n := |elements|;
    var f := n * params.m_M;
    var hashed := BuildHashedSet(params, f, elements);
    values := hashed;
    ImagesSize(params, f, elements, hashed);
    if n >= WORD {
      return None, values;
    }
    if elements == {} {
      assert DeltasUpTo(hashed, 0) == [] && Packed(RiceAll(params.m_P, [])) == [] by {
        NothingWritten(params, hashed);
      }
      return Some(Filter(params, n, f, WriteCompactSize(n))), values;
    }
    ProductFits(n, params.m_M);
    ImagesBelow(params, f, elements, hashed);
    var written := WriteDeltas(params, hashed);
    r := Some(Filter(params, n, f, WriteCompactSize(n) + written));
  }

  lemma NothingWritten(params: Params, values: seq<nat>)
    requires Sorted(values)
    ensures DeltasUpTo(values, 0) == [] && Packed(RiceAll(params.m_P, [])) == []
  {
  }

  lemma DeltasNext(values: seq<nat>, i: nat)
    requires Sorted(values) && i < |values|
    ensures (if i == 0 then 0 else values[i - 1]) <= values[i]
    ensures DeltasUpTo(values, i + 1) == DeltasUpTo(values, i) + [values[i] - if i == 0 then 0 else values[i - 1]]
  {
  }

  /** The bytes for the differences of a sorted list, the last one filled up with zeros. */
  method WriteDeltas(params: Params, hashed: seq<nat>) returns (written: seq<nat>)
    requires ParamsOk(params) && Sorted(hashed) && forall i :: 0 <= i < |hashed| ==> hashed[i] < WORD64
    ensures written == Packed(RiceAll(params.m_P, DeltasUpTo(hashed, |hashed|)))
  {
    hide Rice, RiceAll, Packed, Bytes, BitsOf, Pow2, DeltasUpTo;
    var bitwriter := new BitStreamWriter();
    var last_value := 0;
    assert RiceAll(params.m_P, DeltasUpTo(hashed, 0)) == [] by {
      RiceNone(params.m_P);
      NothingWritten(params, hashed);
    }
    for i := 0 to |hashed|
      invariant fresh(bitwriter) && bitwriter.Valid() && bitwriter.Bits() == RiceAll(params.m_P, DeltasUpTo(hashed, i))
      invariant last_value == if i == 0 then 0 else hashed[i - 1]
    {
      DeltasNext(hashed, i);
      RiceAllAppend(params.m_P, DeltasUpTo(hashed, i), hashed[i] - last_value);
      GolombRiceEncode(bitwriter, params.m_P, hashed[i] - last_value);
      last_value := hashed[i];
    }
    ghost var bits := bitwriter.Bits();
    bitwriter.Flush();
    written := bitwriter.written;
    PackedIsOnly(written, bits);
  }

  lemma ImagesBelow(params: Params, f: nat, elements: set<nat>, s: seq<nat>)
    requires Images(params, f, elements, s) && f < WORD64
    ensures forall i :: 0 <= i < |s| ==> s[i] < WORD64
  {
    forall i | 0 <= i < |s|
      ensures s[i] < WORD64
    {
      var e :| e in elements && HashToRange(params, f, e) == s[i];
      PiecewiseIsExact(params.hash(e) % (WORD * WORD), f);
    }
  }

  lemma ImagesSize(params: Params, f: nat, elements: set<nat>, s: seq<nat>)
    requires Images(params, f, elements, s)
    ensures |s| == |elements|
  {
  }

  lemma RiceNone(p: nat)
    ensures RiceAll(p, []) == []
  {
  }

  /** Accepts exactly the encodings that hold as many values as they say and no byte more. */
  method FromEncoded(params: Params, encoded: seq<nat>) returns (r: Option<Filter>)
    requires ParamsOk(params)
    ensures r.Some? <==> exists n: nat, deltas: seq<nat> :: Encodes(params, encoded, n, deltas)
    ensures r.Some? ==>
              r.value.m_encoded == encoded && r.value.params == params && r.value.m_F == r.value.m_N * params.m_M
                        && exists deltas: seq<nat> :: Encodes(params, encoded, r.value.m_N, deltas)
  {
    hide ReadRice, Bytes;
    var size := ReadCompactSize(encoded);
    if size.Failed? {
      return None;
    }
    SizeInside(encoded);
    var bitreader := new BitStreamReader(encoded[size.next..]);
    ghost var bits := Body(encoded, size.next);
    ghost var deltas: seq<nat> := [];
    for i := 0 to size.value
      invariant fresh(bitreader) && bitreader.Valid() && bitreader.bytes == encoded[size.next..] && bitreader.Pos() >= 0
      invariant ReadAll(params.m_P, bits, 0, i) == Got(deltas, bitreader.Pos())
    {
      ReadAllStops(params.m_P, bits, 0, i, size.value);
      ReadAllMore(params.m_P, bits, 0, i);
      var x := GolombRiceDecode(bitreader, params.m_P);
      if x.None? {
        return None;
      }
      deltas := deltas + [x.value];
    }
    if bitreader.taken != |bitreader.bytes| {
      return None;
    }
    assert Encodes(params, encoded, size.value, deltas);
    r := Some(Filter(params, size.value, size.value * params.m_M, encoded));
  }

  lemma SizeInside(encoded: seq<nat>)
    requires ReadCompactSize(encoded).Got?
    ensures ReadCompactSize(encoded).next <= |encoded|
  {
  }

  function Extended(r: Read<seq<nat>>, x: Read<nat>): Read<seq<nat>>
    requires r.Got?
  {
    if x.Failed? then Failed else Got(r.value + [x.value], x.next)
  }

  /** Reading on by one value. */
  lemma {:induction false} ReadAllMore(p: nat, bits: seq<bool>, pos: nat, n: nat)
    ensures var r := ReadAll(p, bits, pos, n);
            r.Got? ==> ReadAll(p, bits, pos, n + 1) == Extended(r, ReadRice(p, bits, r.next))
    decreases n
  {
    hide ReadRice;
    var first := ReadRice(p, bits, pos);
    if n == 0 {
      assert first.Got? ==> [first.value] + [] == [] + [first.value];
    } else if first.Got? {
      ReadAllMore(p, bits, first.next, n - 1);
      var mid := ReadAll(p, bits, first.next, n - 1);
      if mid.Got? && ReadRice(p, bits, mid.next).Got? {
        var z := ReadRice(p, bits, mid.next).value;
        assert [first.value] + (mid.value + [z]) == [first.value] + mid.value + [z];
      }
    }
  }

  /** If fewer values cannot be read, more cannot. */
  lemma {:induction false} ReadAllStops(p: nat, bits: seq<bool>, pos: nat, i: nat, n: nat)
    requires i < n
    ensures ReadAll(p, bits, pos, i + 1).Failed? ==> ReadAll(p, bits, pos, n).Failed?
    decreases n
  {
    hide ReadRice;
    var first := ReadRice(p, bits, pos);
    if first.Got? {
      if i == 0 {
        assert ReadAll(p, bits, first.next, 0).Got?;
      } else {
        ReadAllStops(p, bits, first.next, i - 1, n - 1);
      }
    }
  }

  // ----- Matching -----

  /** Some value is `x` and none before it is larger. */
  ghost predicate Shows(values: seq<nat>, x: nat) {
    exists i :: 0 <= i < |values| && values[i] == x && forall k :: 0 <= k < i ==> values[k] <= x
  }

  /** In a sorted list every member shows. */
  lemma SortedShows(values: seq<nat>, x: nat)
    requires Sorted(values)
    ensures Shows(values, x) <==> x in values
  {
    if x in values {
      var i :| 0 <= i < |values| && values[i] == x;
      assert forall k :: 0 <= k < i ==> values[k] <= x;
    }
  }

  ghost predicate SomeShows(values: seq<nat>, hashes: seq<nat>) {
    exists j :: 0 <= j < |hashes| && Shows(values, hashes[j])
  }

  /** One of the first `n` values is larger. */
  ghost predicate Exceeded(values: seq<nat>, n: nat, x: nat)
    requires n <= |values|
  {
    exists a :: 0 <= a < n && x < values[a]
  }

  /** The hashes before `index` are below and those from it on are above all of the first `n` values. */
  ghost predicate Passed(values: seq<nat>, n: nat, hashes: seq<nat>, index: nat)
    requires n <= |values|
  {
    && index <= |hashes|
    && (forall k :: 0 <= k < index ==> Exceeded(values, n, hashes[k]))
    && (n > 0 ==> forall k, a :: index <= k < |hashes| && 0 <= a < n ==> values[a] < hashes[k])
  }

  /** A hash that is equal to the next value shows, if all before are passed. */
  lemma Found(values: seq<nat>, n: nat, hashes: seq<nat>, first: nat, index: nat)
    requires n < |values| && first <= index < |hashes| && hashes[index] == values[n]
    requires Passed(values, n, hashes, first)
    ensures SomeShows(values, hashes)
  {
    assert Shows(values, hashes[index]);
  }

  /** Once every hash is below some value that has been met, or no value is left, none shows. */
  lemma NoneShows(values: seq<nat>, n: nat, hashes: seq<nat>, index: nat)
    requires n <= |values| && Passed(values, n, hashes, index) && (index == |hashes| || n == |values|)
    requires AllHidden(values, n, hashes)
    ensures !SomeShows(values, hashes)
  {
    forall j | 0 <= j < |hashes|
      ensures !Shows(values, hashes[j])
    {
      forall i | 0 <= i < |values| && values[i] == hashes[j]
        ensures Hidden(values, i)
      {
        if i >= n {
          assert Exceeded(values, n, hashes[j]);
          var a :| 0 <= a < n && hashes[j] < values[a];
          assert a < i && values[a] > values[i];
        }
      }
      HiddenDoesNotShow(values, hashes[j]);
    }
  }

  lemma HiddenDoesNotShow(values: seq<nat>, x: nat)
    requires forall i :: 0 <= i < |values| && values[i] == x ==> Hidden(values, i)
    ensures !Shows(values, x)
  {
  }

  /** A larger value comes before it. */
  ghost predicate Hidden(values: seq<nat>, i: nat)
    requires i < |values|
  {
    exists k :: 0 <= k < i && values[k] > values[i]
  }

  /** Those of the first `n` values that are among the hashes are hidden. */
  ghost predicate AllHidden(values: seq<nat>, n: nat, hashes: seq<nat>)
    requires n <= |values|
  {
    forall a, k :: 0 <= a < n && 0 <= k < |hashes| && values[a] == hashes[k] ==> Hidden(values, a)
  }

  /** Passes the hashes below a value. */
  method SkipBelow(hashes: seq<nat>, index: nat, value: nat) returns (next: nat)
    requires index <= |hashes|
    ensures index <= next <= |hashes| && (forall k :: index <= k < next ==> hashes[k] < value)
    ensures next < |hashes| ==> hashes[next] >= value
  {
    next := index;
    while next < |hashes| && hashes[next] < value
      invariant index <= next <= |hashes| && forall k :: index <= k < next ==> hashes[k] < value
    {
      next := next + 1;
    }
  }

  /**
   * Walks both lists at once; an unreadable size is an error. The hashes are sorted; the values of a foreign
   * encoding may wrap around, and then those below an earlier one are passed over.
   */
  method MatchInternal(filter: Filter, hashes: seq<nat>, ghost deltas: seq<nat>) returns (r: Option<bool>)
    requires Sorted(hashes) && ParamsOk(filter.params)
    requires ReadCompactSize(filter.m_encoded).Got? ==> Encodes(filter.params, filter.m_encoded, filter.m_N, deltas)
    ensures r.None? <==> ReadCompactSize(filter.m_encoded).Failed?
    ensures r.Some? ==> (r.value <==> SomeShows(Values(deltas), hashes))
  {
    hide ReadRice, Bytes, ReadCompactSize, Values, SomeShows, Hidden, Add64, Passed, AllHidden, Sorted, ReadAll;
    var size := ReadCompactSize(filter.m_encoded);
    if size.Failed? {
      return None;
    }
    var bitreader := new BitStreamReader(filter.m_encoded[size.next..]);
    ghost var bits := Body(filter.m_encoded, size.next);
    var p := filter.params.m_P;
    ghost var values := Values(deltas);
    var value, index := 0, 0;
    ReadAllPrefix(p, bits, filter.m_N, 0);
    ReadNone(p, bits);
    NothingPassed(values, hashes);
    for i := 0 to filter.m_N
      invariant fresh(bitreader) && bitreader.Valid() && bitreader.bytes == filter.m_encoded[size.next..]
      invariant bitreader.Pos() >= 0 && index <= |hashes|
      invariant ReadAll(p, bits, 0, i) == Got(deltas[..i], bitreader.Pos())
      invariant value == if i == 0 then 0 else values[i - 1]
      invariant Passed(values, i, hashes, index) && AllHidden(values, i, hashes)
    {
      ReadAllPrefix(p, bits, filter.m_N, i + 1);
      ReadAllMore(p, bits, 0, i);
      var delta := GolombRiceDecode(bitreader, p);
      assert deltas[..i + 1] == deltas[..i] + [deltas[i]];
      ValuesNext(deltas, i);
      value := Add64(value, delta.value);
      ghost var first := index;
      index := SkipBelow(hashes, index, value);
      if index < |hashes| && hashes[index] == value {
        Found(values, i, hashes, first, index);
        return Some(true);
      }
      Advance(values, i, hashes, first, index);
      if index == |hashes| {
        NoneShows(values, i + 1, hashes, index);
        return Some(false);
      }
    }
    NoneShows(values, filter.m_N, hashes, index);
    r := Some(false);
  }

  lemma ReadNone(p: nat, bits: seq<bool>)
    ensures ReadAll(p, bits, 0, 0) == Got([], 0)
  {
  }

  lemma NothingPassed(values: seq<nat>, hashes: seq<nat>)
    ensures Passed(values, 0, hashes, 0) && AllHidden(values, 0, hashes)
  {
  }

  /** Moving on past the hashes below the next value. */
  lemma Advance(values: seq<nat>, n: nat, hashes: seq<nat>, first: nat, index: nat)
    requires n < |values| && Sorted(hashes) && Passed(values, n, hashes, first) && first <= index <= |hashes|
    requires forall k :: first <= k < index ==> hashes[k] < values[n]
    requires index < |hashes| ==> hashes[index] > values[n]
    requires AllHidden(values, n, hashes)
    ensures Passed(values, n + 1, hashes, index) && AllHidden(values, n + 1, hashes)
  {
    forall k | 0 <= k < index
      ensures Exceeded(values, n + 1, hashes[k])
    {
      if k < first {
        assert Exceeded(values, n, hashes[k]);
        var a :| 0 <= a < n && hashes[k] < values[a];
        assert 0 <= a < n + 1;
      }
    }
    forall k | 0 <= k < |hashes| && values[n] == hashes[k]
      ensures Hidden(values, n)
    {
      assert Exceeded(values, n, hashes[k]);
      var a :| 0 <= a < n && hashes[k] < values[a];
    }
  }

  lemma ValuesNext(deltas: seq<nat>, i: nat)
    requires i < |deltas|
    ensures Values(deltas)[i] == Add64(if i == 0 then 0 else Values(deltas)[i - 1], deltas[i])
  {
    hide Values, Add64;
    ValuesPrefix(deltas, i + 1);
    ValuesPrefix(deltas, i);
    assert deltas[..i + 1][..i] == deltas[..i];
    ValuesLast(deltas[..i + 1]);
    assert Values(deltas)[i] == Values(deltas)[..i + 1][i];
  }

  lemma {:induction false} ValuesPrefix(deltas: seq<nat>, i: nat)
    requires i <= |deltas|
    ensures Values(deltas[..i]) == Values(deltas)[..i]
    decreases |deltas|
  {
    if i < |deltas| {
      var d := deltas[..|deltas| - 1];
      ValuesPrefix(d, i);
      assert d[..i] == deltas[..i];
    } else {
      assert deltas[..i] == deltas;
    }
  }

  /** A readable list has readable prefixes. */
  lemma {:induction false} ReadAllPrefix(p: nat, bits: seq<bool>, n: nat, i: nat)
    requires ReadAll(p, bits, 0, n).Got? && i <= n
    ensures ReadAll(p, bits, 0, i).Got? && |ReadAll(p, bits, 0, n).value| == n
    ensures ReadAll(p, bits, 0, i).value == ReadAll(p, bits, 0, n).value[..i]
    decreases n
  {
    hide ReadRice;
    if n > 0 {
      ReadAllLast(p, bits, 0, n - 1);
      if i < n {
        ReadAllPrefix(p, bits, n - 1, i);
      }
    }
  }

  /** Asks for several elements at once. */
  method MatchAny(filter: Filter, elements: set<nat>, ghost deltas: seq<nat>) returns (r: Option<bool>)
    requires ParamsOk(filter.params)
    requires ReadCompactSize(filter.m_encoded).Got? ==> Encodes(filter.params, filter.m_encoded, filter.m_N, deltas)
    ensures r.None? <==> ReadCompactSize(filter.m_encoded).Failed?
    ensures r.Some? ==>
              (r.value <==>
                 exists e :: e in elements && Shows(Values(deltas), HashToRange(filter.params, filter.m_F, e)))
  {
    hide Encodes, ReadCompactSize, HashToRange, Values, Shows;
    var queries := BuildHashedSet(filter.params, filter.m_F, elements);
    ShowsImages(filter.params, filter.m_F, elements, queries, Values(deltas));
    r := MatchInternal(filter, queries, deltas);
  }

  method Match(filter: Filter, element: nat, ghost deltas: seq<nat>) returns (r: Option<bool>)
    requires ParamsOk(filter.params)
    requires ReadCompactSize(filter.m_encoded).Got? ==> Encodes(filter.params, filter.m_encoded, filter.m_N, deltas)
    ensures r.None? <==> ReadCompactSize(filter.m_encoded).Failed?
    ensures r.Some? ==> (r.value <==> Shows(Values(deltas), HashToRange(filter.params, filter.m_F, element)))
  {
    hide Encodes, ReadCompactSize, HashToRange, Values, Shows;
    var query := HashToRange(filter.params, filter.m_F, element);
    r := MatchInternal(filter, [query], deltas);
    assert [query][0] == query;
  }

  lemma ShowsImages(params: Params, f: nat, elements: set<nat>, s: seq<nat>, values: seq<nat>)
    requires Images(params, f, elements, s)
    ensures SomeShows(values, s) <==> exists e :: e in elements && Shows(values, HashToRange(params, f, e))
  {
    hide HashToRange, Shows;
    if SomeShows(values, s) {
      var j :| 0 <= j < |s| && Shows(values, s[j]);
      var e :| e in elements && HashToRange(params, f, e) == s[j];
    }
    if e :| e in elements && Shows(values, HashToRange(params, f, e)) {
      assert HashToRange(params, f, e) in s;
      var j :| 0 <= j < |s| && s[j] == HashToRange(params, f, e);
      assert Shows(values, s[j]);
    }
  }

  /**
   * A filter built from `elements` and asked for `queries`: up to the reader's size limit the answer is whether
   * their images meet; above it the filter cannot read itself.
   */
  method BuildAndMatchAny(params: Params, elements: set<nat>, queries: set<nat>) returns (r: Option<bool>)
    requires ParamsOk(params)
    ensures r.Some? <==> |elements| <= 0x0200_0000
    ensures var f := |elements| * params.m_M;
            r.Some? ==>
              (r.value <==>
                 exists e, q :: e in elements && q in queries && HashToRange(params, f, e) == HashToRange(params, f, q))
  {
    hide Encodes, ReadCompactSize, HashToRange, Values, Images, Encoding, DeltasUpTo, Shows;
    var filter, values := FromElements(params, elements);
    if filter.None? {
      return None;
    }
    ghost var f := |elements| * params.m_M;
    ImagesSize(params, f, elements, values);
    ProductFits(|elements|, params.m_M);
    ImagesBelow(params, f, elements, values);
    ghost var deltas := DeltasUpTo(values, |values|);
    ValuesBack(values, |values|);
    OwnEncoding(params, deltas);
    EncodedIsGot(params, filter.value.m_encoded, |deltas|, deltas);
    assert values[..|values|] == values;
    r := MatchAny(filter.value, queries, deltas);
    forall q | q in queries
      ensures Shows(values, HashToRange(params, f, q)) <==> HashToRange(params, f, q) in values
    {
      SortedShows(values, HashToRange(params, f, q));
    }
    CommonImages(params, f, elements, queries, values);
  }

  lemma EncodedIsGot(params: Params, encoded: seq<nat>, n: nat, deltas: seq<nat>)
    ensures Encodes(params, encoded, n, deltas) ==> ReadCompactSize(encoded).Got?
  {
  }

  lemma CommonImages(params: Params, f: nat, elements: set<nat>, queries: set<nat>, values: seq<nat>)
    requires Images(params, f, elements, values)
    ensures (exists q :: q in queries && HashToRange(params, f, q) in values)
        <==> (exists e, q :: e in elements && q in queries && HashToRange(params, f, e) == HashToRange(params, f, q))
  {
    hide HashToRange;
    if q :| q in queries && HashToRange(params, f, q) in values {
      var i :| 0 <= i < |values| && values[i] == HashToRange(params, f, q);
      var e :| e in elements && HashToRange(params, f, e) == values[i];
    }
  }
}
