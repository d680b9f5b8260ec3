/** Compact sizes and Golomb-Rice codes: the encoding behind `GCSFilter`. */
module Golomb {
  import opened BitOps
  import opened BitStreams
  import opened Numbers
  import opened Sequences

  /** A value read from a stream and where reading goes on, or a failure. */
  datatype Read<T> = Failed | Got(value: T, next: nat)

  // ----- Compact sizes -----

  const MAX_SIZE: nat := 0x0200_0000

  function LittleEndian(n: nat, k: nat): (r: seq<nat>)
    ensures |r| == k
    decreases k
  {
    if k == 0 then [] else [n % 0x100] + LittleEndian(n / 0x100, k - 1)
  }

  function FromLittleEndian(bytes: seq<nat>): nat {
    if bytes == [] then 0 else bytes[0] + 0x100 * FromLittleEndian(bytes[1..])
  }

  lemma {:induction false} LittleEndianBack(n: nat, k: nat)
    requires n < Pow2(8 * k)
    ensures FromLittleEndian(LittleEndian(n, k)) == n
    decreases k
  {
    if k > 0 {
      Pow2Values();
      Pow2Add(8, 8 * (k - 1));
      assert n / 0x100 < Pow2(8 * (k - 1));
      LittleEndianBack(n / 0x100, k - 1);
      assert LittleEndian(n, k)[1..] == LittleEndian(n / 0x100, k - 1);
    }
  }

  function WriteCompactSize(n: nat): seq<nat> {
    if n < 253 then [n]
    else if n <= 0xffff then [253] + LittleEndian(n, 2)
    else if n <= 0xffff_ffff then [254] + LittleEndian(n, 4)
    else [255] + LittleEndian(n, 8)
  }

  function ReadNumber(bytes: seq<nat>, k: nat, least: nat): Read<nat> {
    if |bytes| < 1 + k then Failed else
      var n := FromLittleEndian(bytes[1..1 + k]);
      if n < least then Failed else Got(n, 1 + k)
  }

  function ReadCompactSize(bytes: seq<nat>): Read<nat> {
    if bytes == [] then Failed else
      var r := if bytes[0] < 253 then Got(bytes[0], 1)
               else if bytes[0] == 253 then ReadNumber(bytes, 2, 253)
               else if bytes[0] == 254 then ReadNumber(bytes, 4, 0x1_0000)
               else ReadNumber(bytes, 8, 0x1_0000_0000);
      if r.Got? && r.value > MAX_SIZE then Failed else r
  }

  lemma ReadBack(n: nat, k: nat, tag: nat, least: nat, rest: seq<nat>)
    requires least <= n < Pow2(8 * k)
    ensures ReadNumber([tag] + LittleEndian(n, k) + rest, k, least) == Got(n, 1 + k)
  {
    LittleEndianBack(n, k);
    var bytes := [tag] + LittleEndian(n, k) + rest;
    assert bytes[1..1 + k] == LittleEndian(n, k);
  }

  /** A written size is read back exactly when it is within the limit of the reader; there is none on writing. */
  lemma CompactSizeBack(n: nat, rest: seq<nat>)
    requires n < 0x1_0000_0000_0000_0000
    ensures var r := ReadCompactSize(WriteCompactSize(n) + rest);
            if n <= 0x0200_0000 then r == Got(n, |WriteCompactSize(n)|) else r == Failed
  {
    hide Pow2, LittleEndian, FromLittleEndian;
    Pow2Values();
    Pow2Add(32, 32);
    var bytes := WriteCompactSize(n) + rest;
    if 253 <= n <= 0xffff {
      ReadBack(n, 2, 253, 253, rest);
    } else if 0xffff < n <= 0xffff_ffff {
      ReadBack(n, 4, 254, 0x1_0000, rest);
    } else if 0xffff_ffff < n {
      ReadBack(n, 8, 255, 0x1_0000_0000, rest);
    }
  }

  /** Byte `i` is the one of weight 256^i: the least significant comes first. */
  lemma {:induction false} LittleEndianAt(n: nat, k: nat, i: nat)
    requires i < k
    ensures LittleEndian(n, k)[i] == n / Pow2(8 * i) % 0x100
    decreases k
  {
    Pow2Values();
    if i > 0 {
      LittleEndianAt(n / 0x100, k - 1, i - 1);
      Pow2Add(8, 8 * (i - 1));
      DivDiv(n, 0x100, Pow2(8 * (i - 1)));
    }
  }

  predicate AllBytes(bytes: seq<nat>) {
    forall i :: 0 <= i < |bytes| ==> bytes[i] < 0x100
  }

  lemma {:induction false} FromLittleEndianBack(bytes: seq<nat>)
    requires AllBytes(bytes)
    ensures LittleEndian(FromLittleEndian(bytes), |bytes|) == bytes && FromLittleEndian(bytes) < Pow2(8 * |bytes|)
    decreases |bytes|
  {
    if bytes != [] {
      FromLittleEndianBack(bytes[1..]);
      var rest := FromLittleEndian(bytes[1..]);
      ByteOnTop(bytes[0], rest);
      Pow2Values();
      Pow2Add(8, 8 * (|bytes| - 1));
      assert 8 * |bytes| == 8 + 8 * (|bytes| - 1);
      assert bytes == [bytes[0]] + bytes[1..];
    }
  }

  lemma ByteOnTop(b: nat, rest: nat)
    requires b < 0x100
    ensures (b + 0x100 * rest) % 0x100 == b && (b + 0x100 * rest) / 0x100 == rest
  {
  }

  /** The four forms: one byte below 253, else a tag and two, four or eight bytes, the least significant first. */
  lemma CompactSizeForm(n: nat)
    requires n < 0x1_0000_0000_0000_0000
    ensures var w := WriteCompactSize(n);
            if n < 253 then w == [n]
            else if n < 0x1_0000 then w == [253, n % 0x100, n / 0x100 % 0x100]
            else
              var k := if n < 0x1_0000_0000 then 4 else 8;
              && |w| == 1 + k && w[0] == (if k == 4 then 254 else 255)
              && forall i :: 0 <= i < k ==> w[1 + i] == n / Pow2(8 * i) % 0x100
  {
    hide Pow2;
    if 253 <= n < 0x1_0000 {
      assert LittleEndian(n, 2) == [n % 0x100, n / 0x100 % 0x100];
    } else if 0x1_0000 <= n {
      var k := if n < 0x1_0000_0000 then 4 else 8;
      forall i | 0 <= i < k
        ensures LittleEndian(n, k)[i] == n / Pow2(8 * i) % 0x100
      {
        LittleEndianAt(n, k, i);
      }
    }
  }

  /** Only what is written is accepted: the bytes read are the one form of a size of at most 0x02000000. */
  lemma OnlyCanonical(bytes: seq<nat>)
    requires AllBytes(bytes) && ReadCompactSize(bytes).Got?
    ensures var r := ReadCompactSize(bytes);
            r.value <= 0x0200_0000 && r.next <= |bytes| && bytes[..r.next] == WriteCompactSize(r.value)
  {
    hide LittleEndian, FromLittleEndian;
    var r := ReadCompactSize(bytes);
    if bytes[0] >= 253 {
      var k := r.next - 1;
      FromLittleEndianBack(bytes[1..1 + k]);
      assert bytes[..r.next] == [bytes[0]] + bytes[1..1 + k];
    }
    SizeOfPow();
  }

  lemma SizeOfPow()
    ensures Pow2(8 * 2) == 0x1_0000 && Pow2(8 * 4) == 0x1_0000_0000
  {
    Pow2Values();
  }

  // ----- Golomb-Rice codes -----

  function Ones(n: nat): (r: seq<bool>)
    ensures |r| == n
  {
    seq(n, _ => true)
  }

  /** The quotient in unary, a zero, and the remainder in `p` bits. */
  function Rice(p: nat, x: nat): seq<bool> {
    Ones(Quotient(x, Pow2(p))) + ([false] + BitsOf(x, p))
  }

  /** A code in full: x / 2^p ones, a zero, and the last p bits of x, the most significant first. */
  lemma RiceForm(p: nat, x: nat, i: nat)
    ensures var code, q := Rice(p, x), x / Pow2(p);
            && |code| == q + 1 + p
            && (i < q ==> code[i]) && !code[q] && (i < p ==> (code[q + 1 + i] <==> Bit(x, p - 1 - i)))
  {
    hide Pow2, BitsOf, Bit;
    if i < p {
      BitsOfAt(x, p, i);
    }
  }

  function ReadUnary(bits: seq<bool>, pos: nat): Read<nat>
    decreases |bits| - pos
  {
    if pos >= |bits| then Failed
    else if !bits[pos] then Got(0, pos + 1)
    else match ReadUnary(bits, pos + 1)
      case Failed => Failed
      case Got(q, next) => Got(q + 1, next)
  }

  function ReadBits(bits: seq<bool>, pos: nat, n: nat): Read<nat> {
    if pos + n > |bits| then Failed else Got(FromBits(bits[pos..pos + n]), pos + n)
  }

  /** The number a code stands for, as 64 bits. */
  function ReadRice(p: nat, bits: seq<bool>, pos: nat): Read<nat> {
    match ReadUnary(bits, pos)
    case Failed => Failed
    case Got(q, next) =>
      match ReadBits(bits, next, p)
      case Failed => Failed
      case Got(r, end) => Got((q * Pow2(p) + r) % WORD64, end)
  }

  lemma {:induction false} UnaryBack(bits: seq<bool>, pos: nat, q: nat)
    requires At(bits, pos, Ones(q) + [false])
    ensures ReadUnary(bits, pos) == Got(q, pos + q + 1)
    decreases q
  {
    if q == 0 {
      assert Ones(q) + [false] == [false] + [];
      AtFirst(bits, pos, false, []);
    } else {
      assert Ones(q) + [false] == [true] + (Ones(q - 1) + [false]);
      AtFirst(bits, pos, true, Ones(q - 1) + [false]);
      UnaryBack(bits, pos + 1, q - 1);
    }
  }

  /** Decoding inverts encoding, wherever the code stands. */
  lemma RiceBack(p: nat, x: nat, bits: seq<bool>, pos: nat)
    requires At(bits, pos, Rice(p, x)) && x < WORD64
    ensures ReadRice(p, bits, pos) == Got(x, pos + |Rice(p, x)|)
  {
    hide Pow2, Quotient, FromBits, BitsOf, ReadUnary, Rice, Ones, At;
    var q := Quotient(x, Pow2(p));
    RiceParts(p, x);
    AtSplit(bits, pos, Ones(q) + [false], BitsOf(x, p));
    UnaryBack(bits, pos, q);
    BitsHere(bits, pos + q + 1, BitsOf(x, p));
    FromBitsOf(x, p);
    Division(x, Pow2(p));
  }

  lemma RiceParts(p: nat, x: nat)
    ensures var q := Quotient(x, Pow2(p)); Rice(p, x) == (Ones(q) + [false]) + BitsOf(x, p)
  {
    hide Pow2, Quotient, BitsOf, Ones;
  }

  lemma BitsHere(bits: seq<bool>, pos: nat, code: seq<bool>)
    requires At(bits, pos, code)
    ensures pos + |code| <= |bits| && bits[pos..pos + |code|] == code
  {
  }

  /** The codes of a list of differences. */
  function RiceAll(p: nat, deltas: seq<nat>): seq<bool> {
    if deltas == [] then [] else Rice(p, deltas[0]) + RiceAll(p, deltas[1..])
  }

  function ReadAll(p: nat, bits: seq<bool>, pos: nat, n: nat): Read<seq<nat>>
    decreases n
  {
    if n == 0 then Got([], pos) else
      match ReadRice(p, bits, pos)
      case Failed => Failed
      case Got(x, next) =>
        match ReadAll(p, bits, next, n - 1)
        case Failed => Failed
        case Got(rest, end) => Got([x] + rest, end)
  }

  lemma {:induction false} RiceAllBack(p: nat, deltas: seq<nat>, bits: seq<bool>, pos: nat)
    requires At(bits, pos, RiceAll(p, deltas)) && forall i :: 0 <= i < |deltas| ==> deltas[i] < WORD64
    ensures ReadAll(p, bits, pos, |deltas|) == Got(deltas, pos + |RiceAll(p, deltas)|)
    decreases |deltas|
  {
    hide Rice, ReadRice;
    if deltas != [] {
      AtSplit(bits, pos, Rice(p, deltas[0]), RiceAll(p, deltas[1..]));
      RiceBack(p, deltas[0], bits, pos);
      RiceAllBack(p, deltas[1..], bits, pos + |Rice(p, deltas[0])|);
      assert [deltas[0]] + deltas[1..] == deltas;
    }
  }

  lemma {:induction false} RiceAllAppend(p: nat, deltas: seq<nat>, x: nat)
    ensures RiceAll(p, deltas + [x]) == RiceAll(p, deltas) + Rice(p, x)
    decreases |deltas|
  {
    hide Rice;
    if deltas != [] {
      RiceAllAppend(p, deltas[1..], x);
      assert (deltas + [x])[1..] == deltas[1..] + [x];
    } else {
      assert [x][1..] == [];
    }
  }

  /** Where reading `n` values starts with reading one. */
  lemma {:induction false} ReadAllLast(p: nat, bits: seq<bool>, pos: nat, n: nat)
    requires ReadAll(p, bits, pos, n + 1).Got?
    ensures var r, all := ReadAll(p, bits, pos, n), ReadAll(p, bits, pos, n + 1);
            && r.Got? && |r.value| == n && ReadRice(p, bits, r.next).Got?
            && all == Got(r.value + [ReadRice(p, bits, r.next).value], ReadRice(p, bits, r.next).next)
    decreases n
  {
    hide ReadRice;
    var first := ReadRice(p, bits, pos);
    if n == 0 {
      assert [first.value] + [] == [] + [first.value];
    } else {
      ReadAllLast(p, bits, first.next, n - 1);
      var mid := ReadAll(p, bits, first.next, n - 1);
      var last := ReadRice(p, bits, mid.next);
      assert [first.value] + (mid.value + [last.value]) == [first.value] + mid.value + [last.value];
    }
  }
}
