/** Numbers as bits, bits as bytes, and the streams that read and write bits through a byte of buffer. */
module BitStreams {
  import opened BitOps
  import opened Numbers
  import opened Options

  // ----- Bits, most significant first -----

  /** The `n` least significant bits of a number. */
  function BitsOf(x: nat, n: nat): (r: seq<bool>)
    ensures |r| == n
    decreases n
  {
    if n == 0 then [] else BitsOf(x / 2, n - 1) + [x % 2 == 1]
  }

  function FromBits(bits: seq<bool>): nat {
    if bits == [] then 0 else 2 * FromBits(bits[..|bits| - 1]) + if bits[|bits| - 1] then 1 else 0
  }

  lemma {:induction false} FromBitsOf(x: nat, n: nat)
    ensures FromBits(BitsOf(x, n)) == x % Pow2(n)
    decreases n
  {
    hide Pow2;
    if n == 0 {
      Pow2Values();
    } else {
      FromBitsOf(x / 2, n - 1);
      assert BitsOf(x, n)[..n - 1] == BitsOf(x / 2, n - 1);
      HalfMod(x, Pow2(n - 1));
      Doubles(n);
    }
  }

  lemma Doubles(n: nat)
    requires n > 0
    ensures Pow2(n) == 2 * Pow2(n - 1)
  {
  }

  // ----- Bytes -----

  function Bytes(bytes: seq<nat>): (r: seq<bool>)
    ensures |r| == 8 * |bytes|
  {
    if bytes == [] then [] else Bytes(bytes[..|bytes| - 1]) + BitsOf(bytes[|bytes| - 1], 8)
  }

  /** The most significant bit comes first. */
  lemma {:induction false} BitsOfAt(x: nat, n: nat, i: nat)
    requires i < n
    ensures BitsOf(x, n)[i] <==> Bit(x, n - 1 - i)
    decreases n
  {
    if i < n - 1 {
      BitsOfAt(x / 2, n - 1, i);
    }
  }

  /** Bit `p` of a string of bytes is the bit of weight 2^(7 - p % 8) of byte p / 8. */
  lemma {:induction false} BytesAt(bytes: seq<nat>, k: nat, j: nat)
    requires k < |bytes| && j < 8
    ensures Bytes(bytes)[8 * k + j] <==> Bit(bytes[k], 7 - j)
    decreases |bytes|
  {
    if k == |bytes| - 1 {
      BitsOfAt(bytes[k], 8, j);
    } else {
      BytesAt(bytes[..|bytes| - 1], k, j);
    }
  }

  /** Bits packed into bytes; the last byte is filled up with zeros, as a flush does. */
  function Packed(bits: seq<bool>): (r: seq<nat>)
    decreases |bits|
  {
    if bits == [] then [] else
      var whole := (|bits| - 1) / 8 * 8;
      Packed(bits[..whole]) + [FromBits(bits[whole..] + Zeros(whole + 8 - |bits|))]
  }

  function Zeros(n: nat): (r: seq<bool>)
    ensures |r| == n
  {
    seq(n, _ => false)
  }

  lemma {:induction false} BitsFrom(bits: seq<bool>)
    ensures BitsOf(FromBits(bits), |bits|) == bits
    decreases |bits|
  {
    if bits != [] {
      BitsFrom(bits[..|bits| - 1]);
    }
  }

  /** Unpacking gives the bits back, followed by less than a byte of zeros. */
  lemma {:induction false} PackedBytes(bits: seq<bool>)
    ensures |Packed(bits)| == (|bits| + 7) / 8 && Bytes(Packed(bits)) == bits + Zeros(8 * |Packed(bits)| - |bits|)
    decreases |bits|
  {
    hide FromBits, BitsOf, Zeros, Bytes;
    if bits == [] {
      NoBytes();
    } else {
      var whole := (|bits| - 1) / 8 * 8;
      var zeros := Zeros(whole + 8 - |bits|);
      var tail := bits[whole..] + zeros;
      var first := Packed(bits[..whole]);
      PackedBytes(bits[..whole]);
      BitsFrom(tail);
      LastByte(first, FromBits(tail));
      assert |first| == whole / 8;
      JoinedAgain(bits, whole, zeros);
    }
  }

  lemma NoBytes()
    ensures Bytes([]) == [] + Zeros(0)
  {
  }

  lemma JoinedAgain(bits: seq<bool>, n: nat, zeros: seq<bool>)
    requires n <= |bits|
    ensures bits[..n] + (bits[n..] + zeros) == bits + zeros && bits[..n] + Zeros(0) == bits[..n]
  {
  }

  lemma LastByte(bytes: seq<nat>, b: nat)
    ensures Bytes(bytes + [b]) == Bytes(bytes) + BitsOf(b, 8)
  {
    assert (bytes + [b])[..|bytes|] == bytes;
  }

  lemma Halves(a: seq<bool>, b: seq<bool>)
    ensures (a + b)[..|a|] == a && (a + b)[|a|..] == b
  {
  }

  lemma BytesFront(bytes: seq<nat>, n: nat)
    requires |bytes| == n + 1
    ensures Bytes(bytes)[..8 * n] == Bytes(bytes[..n]) && Bytes(bytes)[8 * n..] == BitsOf(bytes[n], 8)
    ensures bytes == bytes[..n] + [bytes[n]]
  {
    hide BitsOf;
    Halves(Bytes(bytes[..n]), BitsOf(bytes[n], 8));
  }

  lemma {:induction false} BytesApart(a: seq<nat>, b: seq<nat>)
    requires |a| == |b| && Bytes(a) == Bytes(b)
    requires forall i :: 0 <= i < |a| ==> a[i] < 256 && b[i] < 256
    ensures a == b
    decreases |a|
  {
    hide FromBits, BitsOf, Pow2, Bytes;
    if a != [] {
      var n := |a| - 1;
      BytesFront(a, n);
      BytesFront(b, n);
      BytesApart(a[..n], b[..n]);
      FromBitsOf(a[n], 8);
      FromBitsOf(b[n], 8);
      Pow2Values();
    }
  }

  lemma {:induction false} PackedRange(bits: seq<bool>)
    ensures forall i :: 0 <= i < |Packed(bits)| ==> Packed(bits)[i] < 256
    decreases |bits|
  {
    hide FromBits, Pow2;
    if bits != [] {
      var whole := (|bits| - 1) / 8 * 8;
      PackedRange(bits[..whole]);
      FromBitsRange(bits[whole..] + Zeros(whole + 8 - |bits|));
      Pow2Values();
    }
  }

  lemma {:induction false} FromBitsRange(bits: seq<bool>)
    ensures FromBits(bits) < Pow2(|bits|)
    decreases |bits|
  {
    if bits != [] {
      FromBitsRange(bits[..|bits| - 1]);
      Doubles(|bits|);
    }
  }

  /** The only bytes that hold some bits and less than a byte of zeros are the packed bits. */
  lemma PackedIsOnly(bytes: seq<nat>, bits: seq<bool>)
    requires forall i :: 0 <= i < |bytes| ==> bytes[i] < 256
    requires |bits| <= 8 * |bytes| < |bits| + 8 && Bytes(bytes) == bits + Zeros(8 * |bytes| - |bits|)
    ensures bytes == Packed(bits)
  {
    hide Packed, Bytes;
    PackedBytes(bits);
    PackedRange(bits);
    BytesApart(bytes, Packed(bits));
  }

  // ----- Cutting numbers into bits -----

  lemma {:induction false} BitsSplit(x: nat, a: nat, b: nat)
    ensures BitsOf(x, a + b) == BitsOf(Quotient(x, Pow2(b)), a) + BitsOf(x, b)
    decreases b
  {
    hide Pow2;
    if b == 0 {
      Pow2Values();
      assert BitsOf(x, b) == [];
    } else {
      BitsSplit(x / 2, a, b - 1);
      Doubles(b);
      DivDiv(x, 2, Pow2(b - 1));
    }
  }

  lemma BitsMod(x: nat, n: nat)
    ensures BitsOf(x % Pow2(n), n) == BitsOf(x, n)
  {
    hide BitsOf, FromBits, Pow2;
    FromBitsOf(x, n);
    BitsFrom(BitsOf(x, n));
  }

  lemma BitsJoin(hi: nat, lo: nat, a: nat, b: nat)
    requires lo < Pow2(b)
    ensures BitsOf(hi * Pow2(b) + lo, a + b) == BitsOf(hi, a) + BitsOf(lo, b)
  {
    hide BitsOf, Pow2;
    var x := hi * Pow2(b) + lo;
    DivUnique(x, Pow2(b), hi, lo);
    BitsSplit(x, a, b);
    BitsMod(x, b);
  }

  lemma {:induction false} FromBitsAppend(a: seq<bool>, b: seq<bool>)
    ensures FromBits(a + b) == FromBits(a) * Pow2(|b|) + FromBits(b)
    decreases |b|
  {
    if b == [] {
      assert a + b == a && Pow2(0) == 1;
    } else {
      var c := b[..|b| - 1];
      FromBitsAppend(a, c);
      assert (a + b)[..|a + b| - 1] == a + c;
      Doubles(|b|);
      assert 2 * (FromBits(a) * Pow2(|c|)) == FromBits(a) * (2 * Pow2(|c|));
    }
  }

  lemma ModScale(x: nat, m: nat, c: nat)
    requires m > 0 && c > 0
    ensures m * c > 0 && (x * c) % (m * c) == x % m * c
  {
    MulMonotone(1, m, c);
    var q, r := x / m, x % m;
    assert x * c == q * (m * c) + r * c by { assert (q * m + r) * c == q * m * c + r * c; }
    MulMonotone(r + 1, m, c);
    MulMonotone(0, r, c);
    DivUnique(x * c, m * c, q, r * c);
  }

  lemma DivScale(x: nat, d: nat, c: nat)
    requires d > 0 && c > 0
    ensures d * c > 0 && (x * c) / (d * c) == x / d
  {
    MulMonotone(1, d, c);
    var q, r := x / d, x % d;
    assert x * c == q * (d * c) + r * c by { assert (q * d + r) * c == q * d * c + r * c; }
    MulMonotone(r + 1, d, c);
    MulMonotone(0, r, c);
    DivUnique(x * c, d * c, q, r * c);
  }

  lemma ModDiv(x: nat, a: nat, b: nat)
    requires a > 0 && b > 0
    ensures a * b > 0 && x % (a * b) / b == x / b % a
  {
    MulMonotone(1, a, b);
    var q, r := x / b, x % b;
    var p, s := q / a, q % a;
    assert x == p * (a * b) + (s * b + r) by { assert (p * a + s) * b + r == p * a * b + s * b + r; }
    MulMonotone(s + 1, a, b);
    MulMonotone(0, s, b);
    DivUnique(x, a * b, p, s * b + r);
    DivUnique(s * b + r, b, s, r);
  }

  /** What a shift up by `up` within `w` bits and one down by `w - k` leave of a number. */
  lemma Sliced(x: nat, w: nat, up: nat, k: nat)
    requires up <= w && k <= w && up + k >= w
    ensures Quotient(x * Pow2(up) % Pow2(w), Pow2(w - k)) == x % Pow2(w - up) * Pow2(up + k - w)
  {
    hide Pow2;
    var c := Pow2(w - k);
    Pow2Add(w - up, up);
    ModScale(x, Pow2(w - up), Pow2(up));
    Pow2Add(up + k - w, w - k);
    var y := x % Pow2(w - up) * Pow2(up + k - w);
    MulAssociates(x % Pow2(w - up), Pow2(up + k - w), c);
    MulMonotone(0, y, c);
    DivUnique(y * c, c, y, 0);
  }

  lemma SlicedShort(x: nat, w: nat, up: nat, k: nat)
    requires up <= w && k <= w && up + k <= w
    ensures Quotient(x * Pow2(up) % Pow2(w), Pow2(w - k)) == Quotient(x, Pow2(w - k - up)) % Pow2(k)
  {
    hide Pow2;
    Pow2Add(w - up, up);
    ModScale(x, Pow2(w - up), Pow2(up));
    Pow2Add(w - k - up, up);
    DivScale(x % Pow2(w - up), Pow2(w - k - up), Pow2(up));
    Pow2Add(k, w - k - up);
    ModDiv(x, Pow2(k), Pow2(w - k - up));
  }

  // ----- Writing -----

  const WORD64: nat := 0x1_0000_0000_0000_0000

  lemma WordIs()
    ensures Pow2(64) == WORD64 && Pow2(8) == 256
  {
    hide Pow2;
    Pow2Values();
    Pow2Add(32, 32);
  }

  /** The high bits of a byte whose low ones are clear. */
  lemma HighBits(buffer: nat, k: nat)
    requires k <= 8 && buffer < 256 && buffer % Pow2(k) == 0
    ensures BitsOf(buffer, 8)[..8 - k] == BitsOf(Quotient(buffer, Pow2(k)), 8 - k)
    ensures buffer == Quotient(buffer, Pow2(k)) * Pow2(k) && BitsOf(buffer, 8)[8 - k..] == Zeros(k)
  {
    hide Pow2, BitsOf;
    BitsSplit(buffer, 8 - k, k);
    Division(buffer, Pow2(k));
    BitsMod(buffer, k);
    ZeroIsZeros(k);
  }

  lemma {:induction false} ZeroIsZeros(k: nat)
    ensures BitsOf(0, k) == Zeros(k)
  {
    if k > 0 {
      ZeroIsZeros(k - 1);
    }
  }

  /** Enough bits to fill the byte. */
  lemma FillByte(buffer: nat, data: nat, rest: nat, k: nat)
    requires 1 <= k <= 8 && k <= rest <= 64 && buffer < 256 && buffer % Pow2(k) == 0
    ensures var b := Or(buffer, Quotient(data * Pow2(64 - rest) % Pow2(64), Pow2(64 - k)));
            && b < 256 && b % Pow2(0) == 0
            && BitsOf(b, 8) + BitsOf(data, rest - k) == BitsOf(buffer, 8)[..8 - k] + BitsOf(data, rest)
  {
    hide Pow2, BitsOf, Or;
    var top := Quotient(data, Pow2(rest - k));
    SlicedShort(data, 64, 64 - rest, k);
    var piece := top % Pow2(k);
    OrCommutes(buffer, piece);
    OrAdds(piece, buffer, k);
    HighBits(buffer, k);
    BitsJoin(Quotient(buffer, Pow2(k)), piece, 8 - k, k);
    BitsMod(top, k);
    BitsSplit(data, k, rest - k);
    ByteFits(buffer, piece, k);
    Pow2Values();
  }

  lemma ByteFits(buffer: nat, piece: nat, k: nat)
    requires k <= 8 && buffer < 256 && buffer % Pow2(k) == 0 && piece < Pow2(k)
    ensures buffer + piece < 256
  {
    hide Pow2;
    Pow2Values();
    Pow2Add(8 - k, k);
    Division(buffer, Pow2(k));
    hide Quotient;
    RoomBelow(Quotient(buffer, Pow2(k)), Pow2(k), Pow2(8 - k), piece);
  }

  lemma RoomBelow(hi: nat, p: nat, q: nat, piece: nat)
    requires hi * p < q * p && piece < p
    ensures hi * p + piece < q * p
  {
    if hi < q {
      MulMonotone(hi + 1, q, p);
      assert (hi + 1) * p == hi * p + p;
    } else {
      MulMonotone(q, hi, p);
    }
  }

  lemma PartArith(hi: nat, low: nat, rest: nat, k: nat)
    requires rest <= k && low < Pow2(rest)
    ensures 0 <= low * Pow2(k - rest) < Pow2(k)
    ensures hi * Pow2(k) + low * Pow2(k - rest) == (hi * Pow2(rest) + low) * Pow2(k - rest)
  {
    hide Pow2;
    var c := Pow2(k - rest);
    Pow2Add(rest, k - rest);
    MulMonotone(low + 1, Pow2(rest), c);
    MulMonotone(0, low, c);
    MulAssociates(hi, Pow2(rest), c);
  }

  /** Fewer bits than the byte has room for. */
  lemma PartOfByte(buffer: nat, data: nat, rest: nat, k: nat)
    requires 1 <= rest < k <= 8 && buffer < 256 && buffer % Pow2(k) == 0
    ensures var b := Or(buffer, Quotient(data * Pow2(64 - rest) % Pow2(64), Pow2(64 - k)));
            && b < 256 && b % Pow2(k - rest) == 0
            && BitsOf(b, 8)[..8 - k + rest] == BitsOf(buffer, 8)[..8 - k] + BitsOf(data, rest)
  {
    hide Pow2, BitsOf, Or;
    Sliced(data, 64, 64 - rest, k);
    var low, c := data % Pow2(rest), Pow2(k - rest);
    var hi, piece := Quotient(buffer, Pow2(k)), low * c;
    HighBits(buffer, k);
    PartArith(hi, low, rest, k);
    OrCommutes(buffer, piece);
    OrAdds(piece, buffer, k);
    ByteFits(buffer, piece, k);
    var b := buffer + piece;
    DivUnique(b, c, hi * Pow2(rest) + low, 0);
    HighBits(b, k - rest);
    BitsJoin(hi, low, 8 - k, rest);
    BitsMod(data, rest);
  }

  /** One round of writing moves bits of `data` into the byte. */
  lemma WriteStep(done: seq<bool>, buffer: nat, offset: nat, data: nat, rest: nat)
    requires offset < 8 && 1 <= rest <= 64 && buffer < 256 && buffer % Pow2(8 - offset) == 0
    ensures var b := Or(buffer, Quotient(data * Pow2(64 - rest) % Pow2(64), Pow2(64 - 8 + offset)));
            var bits := Min(8 - offset, rest);
            && b < 256 && b % Pow2(8 - offset - bits) == 0
            && done + BitsOf(b, 8)[..offset + bits] + BitsOf(data, rest - bits)
               == done + BitsOf(buffer, 8)[..offset] + BitsOf(data, rest)
  {
    hide Pow2, BitsOf, Or;
    var k := 8 - offset;
    var b := Or(buffer, Quotient(data * Pow2(64 - rest) % Pow2(64), Pow2(64 - k)));
    var before, all := BitsOf(buffer, 8)[..offset], BitsOf(data, rest);
    if rest >= k {
      FillByte(buffer, data, rest, k);
      assert BitsOf(b, 8)[..8] == BitsOf(b, 8);
      assert done + BitsOf(b, 8) + BitsOf(data, rest - k) == done + (before + all);
    } else {
      PartOfByte(buffer, data, rest, k);
      NoBits(data);
      assert done + (before + all) + [] == done + before + all;
    }
  }

  class BitStreamWriter {
    /** What has gone to the output stream. */
    var written: seq<nat>
    var m_buffer: nat
    var m_offset: nat

    ghost predicate Valid()
      reads this
    {
      Buffered() && m_offset < 8
    }

    /** Between filling the byte and flushing it the offset is 8. */
    ghost predicate Buffered()
      reads this
    {
      && m_offset <= 8 && m_buffer < 256 && m_buffer % Pow2(8 - m_offset) == 0
      && forall i :: 0 <= i < |written| ==> written[i] < 256
    }

    /** All bits written so far, buffered ones included. */
    ghost function Bits(): seq<bool>
      requires Buffered()
      reads this
    {
      Bytes(written) + BitsOf(m_buffer, 8)[..m_offset]
    }

    constructor ()
      ensures Valid() && Bits() == [] && written == []
    {
      written, m_buffer, m_offset := [], 0, 0;
    }

    /** Appends the `nbits` least significant bits of a 64-bit number. */
    method Write(data: nat, nbits: nat) returns (ok: bool)
      requires Valid() && data < WORD64
      modifies this
      ensures Valid() && (ok <==> nbits <= 64)
      ensures Bits() == if ok then old(Bits()) + BitsOf(data, nbits) else old(Bits())
    {
      hide Pow2, BitsOf, Bytes, Or;
      if nbits > 64 {
        return false;
      }
      var rest: nat := nbits;
      while rest > 0
        invariant Valid() && rest <= nbits && Bits() + BitsOf(data, rest) == old(Bits()) + BitsOf(data, nbits)
      {
        var bits := Min(8 - m_offset, rest);
        WriteStep(Bytes(written), m_buffer, m_offset, data, rest);
        m_buffer := Or(m_buffer, Quotient(data * Pow2(64 - rest) % Pow2(64), Pow2(64 - 8 + m_offset)));
        m_offset := m_offset + bits;
        rest := rest - bits;
        if m_offset == 8 {
          Flush();
        }
      }
      NoBits(data);
      ok := true;
    }

    /** Fills the last byte up with zeros. */
    method Flush()
      requires Buffered()
      modifies this
      ensures Valid() && Bits() == Bytes(written)
      ensures Bits() == old(Bits()) + Zeros((8 - old(m_offset)) % 8)
      ensures |old(Bits())| == 8 * |old(written)| + old(m_offset)
    {
      hide Pow2, BitsOf, Bytes;
      if m_offset == 0 {
        return;
      }
      HighBits(m_buffer, 8 - m_offset);
      Pow2Values();
      LastByte(written, m_buffer);
      ghost var b := BitsOf(m_buffer, 8);
      assert b == b[..m_offset] + b[m_offset..];
      written, m_buffer, m_offset := written + [m_buffer], 0, 0;
    }
  }

  lemma NoBits(x: nat)
    ensures BitsOf(x, 0) == []
  {
  }

  // ----- Reading -----

  /** Bit `8 * k + i` of the bytes is bit `i` of byte `k`. */
  lemma {:induction false} ByteAt(bytes: seq<nat>, k: nat)
    requires k < |bytes|
    ensures Bytes(bytes)[8 * k..8 * k + 8] == BitsOf(bytes[k], 8)
    decreases |bytes|
  {
    hide BitsOf;
    var n := |bytes| - 1;
    var front, last := Bytes(bytes[..n]), BitsOf(bytes[n], 8);
    if k < n {
      ByteAt(bytes[..n], k);
      SliceFront(front, last, 8 * k);
    } else {
      Halves(front, last);
      assert (front + last)[8 * n..8 * n + 8] == (front + last)[8 * n..];
    }
  }

  lemma SliceFront(a: seq<bool>, b: seq<bool>, k: nat)
    requires k + 8 <= |a|
    ensures (a + b)[k..k + 8] == a[k..k + 8]
  {
  }

  /** What the two shifts of a round of reading take out of the byte. */
  /** Some bits of a byte as a number: shifted up within the byte, and down again. */
  function Piece(buffer: nat, offset: nat, bits: nat): nat
    requires bits <= 8
  {
    Quotient(buffer * Pow2(offset) % 256, Pow2(8 - bits))
  }

  lemma ReadPiece(buffer: nat, offset: nat, bits: nat)
    requires offset + bits <= 8
    ensures Piece(buffer, offset, bits) == FromBits(BitsOf(buffer, 8)[offset..offset + bits])
  {
    hide Pow2, BitsOf, FromBits;
    var low := 8 - offset - bits;
    WordIs();
    SlicedShort(buffer, 8, offset, bits);
    var y := Quotient(buffer, Pow2(low));
    BitsSplit(buffer, offset + bits, low);
    BitsSplit(y, offset, bits);
    assert BitsOf(buffer, 8)[offset..offset + bits] == BitsOf(y, bits);
    FromBitsOf(y, bits);
  }

  lemma RoomToShift(data: nat, n: nat, bits: nat)
    requires data < Pow2(n) && n + bits <= 64
    ensures data * Pow2(bits) % WORD64 == data * Pow2(bits) && data * Pow2(bits) % Pow2(bits) == 0
  {
    hide Pow2;
    WordIs();
    Pow2Add(n, bits);
    Pow2Monotone(n + bits, 64);
    ShiftedBelow(data, Pow2(n), Pow2(bits), WORD64);
  }

  lemma ShiftedBelow(data: nat, a: nat, c: nat, m: nat)
    requires data < a && 0 < c && a * c <= m
    ensures 0 <= data * c < m && data * c % m == data * c && data * c % c == 0
  {
    MulMonotone(data + 1, a, c);
    MulMonotone(0, data, c);
    DivUnique(data * c, m, 0, data * c);
    DivUnique(data * c, c, data, 0);
  }

  /** A number moved up within 64 bits. */
  function MovedUp(data: nat, bits: nat): nat { data * Pow2(bits) % WORD64 }

  /** One round of reading appends the bits taken out. */
  lemma ReadStep(got: seq<bool>, data: nat, more: seq<bool>, piece: nat)
    requires |got| + |more| <= 64 && data == FromBits(got) && piece == FromBits(more)
    ensures Or(MovedUp(data, |more|), piece) == FromBits(got + more)
  {
    hide Pow2, FromBits, Or;
    FromBitsRange(got);
    FromBitsRange(more);
    RoomToShift(data, |got|, |more|);
    OrCommutes(data * Pow2(|more|), piece);
    OrAdds(piece, data * Pow2(|more|), |more|);
    FromBitsAppend(got, more);
  }

  /** A number with the next bits of a byte behind it. */
  function TakenIn(data: nat, byte: nat, offset: nat, bits: nat): nat
    requires bits <= 8
  {
    Or(MovedUp(data, bits), Piece(byte, offset, bits))
  }

  /** A stretch of bits. */
  function Slice(s: seq<bool>, lo: nat, hi: nat): (r: seq<bool>)
    requires lo <= hi <= |s|
    ensures |r| == hi - lo
  {
    s[lo..hi]
  }

  lemma TakeBits(got: seq<bool>, data: nat, byte: nat, offset: nat, bits: nat)
    requires offset + bits <= 8 && |got| + bits <= 64 && data == FromBits(got)
    ensures TakenIn(data, byte, offset, bits) == FromBits(got + Slice(BitsOf(byte, 8), offset, offset + bits))
  {
    hide BitsOf, FromBits, Or, MovedUp, Piece;
    ReadPiece(byte, offset, bits);
    var more := BitsOf(byte, 8)[offset..offset + bits];
    ReadStep(got, data, more, FromBits(more));
  }

  lemma SliceOn(s: seq<bool>, q: nat, w: seq<bool>, from: nat, a: nat, n: nat)
    requires |w| == 8 && q + 8 <= |s| && s[q..q + 8] == w && a + n <= 8 && from <= q + a
    ensures Slice(s, from, q + a + n) == Slice(s, from, q + a) + Slice(w, a, a + n)
  {
    var left, right := s[from..q + a] + w[a..a + n], s[from..q + a + n];
    forall i | 0 <= i < |left|
      ensures left[i] == right[i]
    {
      if from + i >= q + a {
        assert left[i] == w[from + i - q] == s[q..q + 8][from + i - q];
      }
    }
  }

  lemma NextBits(bytes: seq<nat>, k: nat, start: nat, offset: nat, bits: nat)
    requires k < |bytes| && offset + bits <= 8 && start <= 8 * k + offset
    ensures var all, end := Bytes(bytes), 8 * k + offset;
            Slice(all, start, end + bits) == Slice(all, start, end) + Slice(BitsOf(bytes[k], 8), offset, offset + bits)
  {
    hide Bytes, BitsOf, Slice;
    ByteAt(bytes, k);
    SliceOn(Bytes(bytes), 8 * k, BitsOf(bytes[k], 8), start, offset, bits);
  }

  /** A round of reading: the number read so far takes in the next bits of byte `k`. */
  lemma ReadMore(bytes: seq<nat>, k: nat, start: nat, offset: nat, bits: nat, data: nat)
    requires k < |bytes| && offset + bits <= 8 && start <= 8 * k + offset && 8 * k + offset + bits - start <= 64
    requires data == FromBits(Slice(Bytes(bytes), start, 8 * k + offset))
    ensures TakenIn(data, bytes[k], offset, bits) == FromBits(Slice(Bytes(bytes), start, 8 * k + offset + bits))
  {
    hide Bytes, BitsOf, FromBits, TakenIn, Slice;
    NextBits(bytes, k, start, offset, bits);
    TakeBits(Slice(Bytes(bytes), start, 8 * k + offset), data, bytes[k], offset, bits);
  }

  class BitStreamReader {
    /** The bytes of the input stream, and how many of them have been taken. */
    const bytes: seq<nat>
    var taken: nat
    var m_buffer: nat
    var m_offset: nat

    ghost predicate Valid()
      reads this
    {
      && taken <= |bytes| && 0 < m_offset <= 8 && (m_offset < 8 ==> taken > 0)
      && (taken > 0 ==> m_buffer == bytes[taken - 1])
    }

    /** How many bits have been read. */
    ghost function Pos(): (p: int)
      reads this
    {
      8 * taken - 8 + m_offset
    }

    constructor (bytes: seq<nat>)
      ensures Valid() && this.bytes == bytes && Pos() == 0
    {
      this.bytes, taken, m_buffer, m_offset := bytes, 0, 0, 8;
    }

    /** Reads `nbits` bits as a number; fails when the stream runs out. */
    method Read(nbits: nat) returns (r: Option<nat>)
      requires Valid()
      modifies this
      ensures Valid() && Pos() >= old(Pos()) >= 0
      ensures r.Some? <==> nbits <= 64 && old(Pos()) + nbits <= 8 * |bytes|
      ensures r.Some? ==> Pos() == old(Pos()) + nbits && r.value == FromBits(Bytes(bytes)[old(Pos())..Pos()])
    {
      hide Bytes, FromBits, TakenIn, Slice;
      if nbits > 64 {
        return None;
      }
      ghost var start: nat := Pos();
      var data, rest: nat := 0, nbits;
      NothingRead(Bytes(bytes), start);
      while rest > 0
        invariant Valid() && rest <= nbits && start <= Pos() == start + nbits - rest <= 8 * |bytes|
        invariant data == FromBits(Slice(Bytes(bytes), start, Pos()))
      {
        if m_offset == 8 {
          if taken == |bytes| {
            return None;
          }
          m_buffer, taken, m_offset := bytes[taken], taken + 1, 0;
        }
        var bits := Min(8 - m_offset, rest);
        ReadMore(bytes, taken - 1, start, m_offset, bits, data);
        data := TakenIn(data, m_buffer, m_offset, bits);
        m_offset := m_offset + bits;
        rest := rest - bits;
      }
      SliceIs(Bytes(bytes), start, Pos());
      r := Some(data);
    }
  }

  lemma SliceIs(bits: seq<bool>, lo: nat, hi: nat)
    requires lo <= hi <= |bits|
    ensures Slice(bits, lo, hi) == bits[lo..hi]
  {
  }

  lemma NothingRead(bits: seq<bool>, p: nat)
    requires p <= |bits|
    ensures FromBits(Slice(bits, p, p)) == 0
  {
  }
}
