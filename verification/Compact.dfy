/** The compact form of targets, and the work a target stands for. */
module Compact {
  import opened Numbers
  import opened Limbs
  import opened ArithUint256

  /** `nCompact >> 24`. */
  function SizeOf(c: nat): nat { c / 0x100_0000 }

  /** `nCompact & 0x007fffff`. */
  function WordOf(c: nat): nat { c % 0x80_0000 }

  predicate SignOf(c: nat) { c / 0x80_0000 % 2 == 1 }

  /** The number a compact form stands for, without its sign and with no limit on its size. */
  ghost function Meaning(c: nat): nat {
    if SizeOf(c) <= 3 then Quotient(WordOf(c), Pow2(8 * (3 - SizeOf(c)))) else WordOf(c) * Pow2(8 * (SizeOf(c) - 3))
  }

  predicate Overflows(nWord: nat, nSize: nat) {
    nWord != 0 && (nSize > 34 || (nWord > 0xff && nSize > 33) || (nWord > 0xffff && nSize > 32))
  }

  /** The flag is raised exactly for numbers that need more than 256 bits. */
  lemma OverflowIff(nWord: nat, nSize: nat)
    requires nWord < 0x80_0000 && nSize > 3
    ensures Overflows(nWord, nSize) <==> nWord * Pow2(8 * (nSize - 3)) >= Modulus()
  {
    hide Pow2;
    Pow2Values();
    var e := 8 * (nSize - 3);
    if nWord == 0 {
      assert nWord * Pow2(e) == 0;
    } else if nSize > 34 {
      Pow2Monotone(256, e);
      MulMonotone(1, nWord, Pow2(e));
    } else if nSize == 34 {
      Pow2Add(8, 248);
      Compare(nWord, 0x100, Pow2(248));
    } else if nSize == 33 {
      Pow2Add(16, 240);
      Compare(nWord, 0x1_0000, Pow2(240));
    } else {
      Pow2Monotone(e, 232);
      Pow2Add(24, 232);
      Pow2Add(8, 16);
      MulMonotone(nWord, 0x80_0000, Pow2(e));
      MulMonotone(Pow2(e), Pow2(232), 0x100_0000);
    }
  }

  lemma Compare(x: nat, y: nat, p: nat)
    requires p >= 1
    ensures x * p >= y * p <==> x >= y
  {
    if x >= y {
      MulMonotone(y, x, p);
    } else {
      MulMonotone(x + 1, y, p);
      Spread(x, 1, 0, p);
    }
  }

  lemma SmallWord(nWord: nat, nSize: nat)
    requires nWord < 0x80_0000 && nSize <= 3
    ensures Quotient(nWord, Pow2(8 * (3 - nSize))) <= nWord && !Overflows(Quotient(nWord, Pow2(8 * (3 - nSize))), nSize)
    ensures nWord < Modulus()
  {
    hide Pow2;
    var p := Pow2(8 * (3 - nSize));
    var q := Quotient(nWord, p);
    MulMonotone(1, p, q);
    Pow2Values();
    Pow2Monotone(32, 256);
  }

  /** Sets `n` to the number `nCompact` stands for, modulo 2^256, and reports sign and overflow. */
  method SetCompact(n: BaseUint, nCompact: nat) returns (fNegative: bool, fOverflow: bool)
    requires n.Valid() && nCompact < 0x1_0000_0000
    modifies n.pn
    ensures n.Valid() && n.Val() == Meaning(nCompact) % Modulus()
    ensures fOverflow <==> Meaning(nCompact) >= Modulus()
    ensures fNegative <==> Meaning(nCompact) != 0 && SignOf(nCompact)
  {
    hide Value, Pow2, Modulus, Quotient;
    var nSize, nWord := SizeOf(nCompact), WordOf(nCompact);
    if nSize <= 3 {
      SmallWord(nWord, nSize);
      nWord := Quotient(nWord, Pow2(8 * (3 - nSize)));
      var word := new BaseUint(nWord);
      n.Assign(word);
      DivUnique(nWord, Modulus(), 0, nWord);
    } else {
      OverflowIff(nWord, nSize);
      Compare(nWord, 1, Pow2(8 * (nSize - 3)));
      var word := new BaseUint(nWord);
      n.Assign(word);
      n.ShiftLeft(8 * (nSize - 3));
    }
    fNegative := nWord != 0 && SignOf(nCompact);
    fOverflow := Overflows(nWord, nSize);
  }

  // ----- Back to the compact form -----

  /** The compact form of a size, a word and a sign; the word leaves the sign bit free. */
  function Compose(nSize: nat, nWord: nat, fNegative: bool): (c: nat)
    requires nWord < 0x80_0000 && nSize < 256
    ensures c < 0x1_0000_0000 && SizeOf(c) == nSize && WordOf(c) == nWord
    ensures SignOf(c) <==> fNegative && nWord != 0
  {
    nSize * 0x100_0000 + nWord + if fNegative && nWord != 0 then 0x80_0000 else 0
  }

  /** Word `w` with `size` bytes keeps the leading bytes of `x`: nothing is lost but what lies below the word. */
  ghost predicate Leads(x: nat, size: nat, w: nat) {
    if size <= 3 then w == x * Pow2(8 * (3 - size)) else w == Quotient(x, Pow2(8 * (size - 3)))
  }

  /** The bytes below a word of three. */
  ghost function Below(size: nat): (r: nat)
    ensures r >= 1
  {
    if size <= 3 then 1 else Pow2(8 * (size - 3))
  }

  lemma LeadsMeans(x: nat, size: nat, w: nat, c: nat)
    requires Leads(x, size, w) && SizeOf(c) == size && WordOf(c) == w
    ensures Meaning(c) <= x < Meaning(c) + Below(size) && Meaning(c) % Below(size) == 0
  {
    hide Pow2;
    if size <= 3 {
      QuotientIs(w, Pow2(8 * (3 - size)), x, 0);
    } else {
      DivUnique(Meaning(c), Below(size), w, 0);
    }
  }

  /** The word of the leading three bytes fits 24 bits, and its first byte is not zero. */
  lemma LeadsFits(x: nat, bits: nat, w: nat)
    requires x < Pow2(bits) && (bits > 0 ==> Pow2(bits - 1) <= x) && Leads(x, (bits + 7) / 8, w)
    ensures w < 0x100_0000 && (bits > 0 ==> w >= 0x1_0000)
  {
    hide Pow2;
    Pow2Values();
    Pow2Add(8, 16);
    var size := (bits + 7) / 8;
    Pow2Monotone(bits, 8 * size);
    if size <= 3 {
      var p := Pow2(8 * (3 - size));
      Pow2Add(8 * size, 8 * (3 - size));
      MulMonotone(x + 1, Pow2(8 * size), p);
      Spread(x, 1, 0, p);
    } else {
      var p := Pow2(8 * (size - 3));
      Pow2Add(24, 8 * (size - 3));
      if w >= 0x100_0000 {
        MulMonotone(0x100_0000, w, p);
      }
    }
    if bits > 0 {
      FirstByte(x, bits, w);
    }
  }

  lemma FirstByte(x: nat, bits: nat, w: nat)
    requires bits > 0 && Pow2(bits - 1) <= x && Leads(x, (bits + 7) / 8, w)
    ensures w >= 0x1_0000
  {
    hide Pow2;
    Pow2Values();
    var size := (bits + 7) / 8;
    Pow2Monotone(8 * (size - 1), bits - 1);
    if size <= 3 {
      var p := Pow2(8 * (3 - size));
      Pow2Add(8 * (size - 1), 8 * (3 - size));
      MulMonotone(Pow2(8 * (size - 1)), x, p);
    } else {
      var p := Pow2(8 * (size - 3));
      Pow2Add(16, 8 * (size - 3));
      if w < 0x1_0000 {
        MulMonotone(w + 1, 0x1_0000, p);
        Spread(w, 1, 0, p);
      }
    }
  }

  /** Dropping the last byte of the word for the sign bit. */
  lemma LeadsNext(x: nat, size: nat, w: nat)
    requires Leads(x, size, w)
    ensures Leads(x, size + 1, w / 0x100)
  {
    hide Pow2;
    Pow2Values();
    if size < 3 {
      var p := Pow2(8 * (2 - size));
      Pow2Add(8, 8 * (2 - size));
      assert x * (0x100 * p) == (x * p) * 0x100;
      QuotientIs(w, 0x100, x * p, 0);
    } else if size == 3 {
      assert Pow2(8 * (3 - size)) == 1;
    } else {
      var p := Pow2(8 * (size - 3));
      Pow2Add(8 * (size - 3), 8);
      DivDiv(x, p, 0x100);
      assert Quotient(x, p * 0x100) == x / (p * 0x100);
    }
  }

  function Raised(x: nat, size: nat): nat
    requires size <= 3
  {
    x * Pow2(8 * (3 - size))
  }

  /** The number of bytes and the leading three. */
  method LeadingBytes(n: BaseUint) returns (nSize: nat, nCompact: nat)
    requires n.Valid()
    ensures nSize <= 32 && Leads(n.Val(), nSize, nCompact) && nCompact < 0x100_0000
    ensures n.Val() != 0 ==> nCompact >= 0x1_0000
    ensures n.Val() == 0 ==> nSize == 0 && nCompact == 0
  {
    hide Value, Pow2, Modulus, Quotient, Leads, Raised;
    var bits := n.Bits();
    nSize := (bits + 7) / 8;
    nCompact := LeadingWord(n, bits, nSize);
    LeadsFits(n.Val(), bits, nCompact);
    NoBits(n.Val(), bits, nCompact);
  }

  method LeadingWord(n: BaseUint, ghost bits: nat, nSize: nat) returns (w: nat)
    requires n.Valid() && n.Val() < Pow2(bits) && (bits > 0 ==> Pow2(bits - 1) <= n.Val()) && nSize == (bits + 7) / 8
    ensures Leads(n.Val(), nSize, w)
  {
    hide Value, Pow2, Modulus, Quotient, Leads, Raised;
    if nSize <= 3 {
      SmallLow(n.Val(), bits);
      var low := n.GetLow64();
      Small(n.Val(), 0x1_0000_0000_0000_0000);
      w := Raised(low, nSize);
      LeadsSmall(n.Val(), nSize);
    } else {
      var bn := new BaseUint.Copy(n);
      bn.ShiftRight(8 * (nSize - 3));
      LeadsLarge(n.Val(), nSize);
      LeadsFits(n.Val(), bits, bn.Val());
      Small(bn.Val(), 0x1_0000_0000_0000_0000);
      w := bn.GetLow64();
    }
  }

  lemma Small(x: nat, m: nat)
    requires x < m
    ensures x % m == x
  {
  }

  /** Rounds down to the leading bytes; setting the result never overflows and gives back the rounded number. */
  method GetCompact(n: BaseUint, fNegative: bool) returns (c: nat)
    requires n.Valid()
    ensures c < 0x1_0000_0000 && Meaning(c) <= n.Val() < Meaning(c) + Below(SizeOf(c))
    ensures Meaning(c) % Below(SizeOf(c)) == 0
    ensures Meaning(c) < Modulus()
    ensures n.Val() != 0 ==> WordOf(c) >= 0x8000
    ensures SignOf(c) <==> fNegative && WordOf(c) != 0
    ensures n.Val() == 0 ==> c == 0
    ensures Canonical(n.Val(), SizeOf(c), WordOf(c))
  {
    hide Value, Pow2, Modulus, Quotient, Meaning, Leads, Below, SizeOf, WordOf, SignOf, Compose;
    n.InRange();
    var nSize, nCompact := LeadingBytes(n);
    if nCompact / 0x80_0000 % 2 == 1 {
      LeadsNext(n.Val(), nSize, nCompact);
      nCompact := nCompact / 0x100;
      nSize := nSize + 1;
    }
    c := Compose(nSize, nCompact, fNegative);
    assert nSize == 0 && nCompact == 0 ==> c == 0 by { ComposeNothing(fNegative); }
    LeadsMeans(n.Val(), nSize, nCompact, c);
  }

  lemma SmallLow(x: nat, bits: nat)
    requires x < Pow2(bits) && (bits + 7) / 8 <= 3
    ensures x < 0x1_0000_0000
  {
    hide Pow2;
    Pow2Values();
    Pow2Monotone(bits, 32);
  }

  lemma LeadsSmall(x: nat, size: nat)
    requires size <= 3
    ensures Leads(x, size, Raised(x, size))
  {
  }

  lemma LeadsLarge(x: nat, size: nat)
    requires size > 3
    ensures Leads(x, size, Quotient(x, Pow2(8 * (size - 3))))
  {
  }

  lemma NoBits(x: nat, bits: nat, w: nat)
    requires x < Pow2(bits) && (bits > 0 ==> Pow2(bits - 1) <= x) && Leads(x, (bits + 7) / 8, w)
    ensures x == 0 ==> bits == 0 && w == 0
  {
    hide Pow2, Leads;
    LeadsZero(x, (bits + 7) / 8, w);
  }

  lemma ComposeNothing(fNegative: bool)
    ensures Compose(0, 0, fNegative) == 0
  {
  }

  lemma LeadsZero(x: nat, size: nat, w: nat)
    requires Leads(x, size, w)
    ensures x == 0 ==> w == 0
  {
    if x == 0 && size > 3 {
      QuotientIs(0, Pow2(8 * (size - 3)), 0, 0);
    }
  }

  /** The form chosen for a number: its leading bytes, the first of them not zero but for the sign bit. */
  ghost predicate Canonical(x: nat, size: nat, w: nat) {
    Leads(x, size, w) && (if x == 0 then size == 0 else 0x8000 <= w < 0x80_0000)
  }

  lemma LeadsIs(x: nat, size: nat, v: nat, w: nat)
    requires Leads(x, size, v) && Leads(x, size, w)
    ensures v == w
  {
  }

  lemma {:induction false} LeadsLater(x: nat, size: nat, w: nat, later: nat) returns (v: nat)
    requires Leads(x, size, w) && size < later
    ensures Leads(x, later, v) && v <= w / 0x100
    decreases later - size
  {
    hide Leads;
    LeadsNext(x, size, w);
    v := w / 0x100;
    if size + 1 < later {
      v := LeadsLater(x, size + 1, v, later);
    }
  }

  /** A number has one canonical form. */
  lemma OneForm(x: nat, size: nat, w: nat, otherSize: nat, otherW: nat)
    requires Canonical(x, size, w) && Canonical(x, otherSize, otherW)
    ensures size == otherSize && w == otherW
  {
    hide Leads;
    if size < otherSize {
      var v := LeadsLater(x, size, w, otherSize);
      LeadsIs(x, otherSize, v, otherW);
    } else if otherSize < size {
      var v := LeadsLater(x, otherSize, otherW, size);
      LeadsIs(x, size, v, w);
    } else {
      LeadsIs(x, size, w, otherW);
    }
  }

  /** The layout: size, sign bit and 23-bit word stand for word * 256^(size - 3), rounded down. */
  lemma Layout(size: nat, negative: bool, w: nat)
    requires size < 256 && w < 0x80_0000
    ensures var c := size * 0x100_0000 + (if negative then 0x80_0000 else 0) + w;
            && c < 0x1_0000_0000 && (SignOf(c) <==> negative)
            && Meaning(c) == Quotient(w * Pow2(8 * size), 0x100_0000)
  {
    hide Pow2, Quotient;
    var c := size * 0x100_0000 + (if negative then 0x80_0000 else 0) + w;
    Fields(size, negative, w);
    Pow2Values();
    Pow2Add(8, 16);
    if size <= 3 {
      var p, q := Pow2(8 * size), Pow2(8 * (3 - size));
      Pow2Add(8 * size, 8 * (3 - size));
      Scales(w, q, p);
    } else {
      var p := Pow2(8 * (size - 3));
      Pow2Add(24, 8 * (size - 3));
      assert w * (0x100_0000 * p) == (w * p) * 0x100_0000;
      QuotientIs(w * Pow2(8 * size), 0x100_0000, w * p, 0);
    }
  }

  lemma Fields(size: nat, negative: bool, w: nat)
    requires size < 256 && w < 0x80_0000
    ensures var c := size * 0x100_0000 + (if negative then 0x80_0000 else 0) + w;
            c < 0x1_0000_0000 && SizeOf(c) == size && WordOf(c) == w && (SignOf(c) <==> negative)
  {
  }

  lemma Scales(w: nat, q: nat, p: nat)
    requires q >= 1 && p >= 1
    ensures p * q > 0 && Quotient(w * p, p * q) == Quotient(w, q)
  {
    hide Quotient;
    var d := Quotient(w, q);
    MulMonotone(1, p, q);
    MulAssociates(d, q, p);
    ScaledBetween(d * q, w, q, p);
    QuotientIs(w * p, p * q, d, w * p - d * (p * q));
  }

  lemma ScaledBetween(a: nat, w: nat, q: nat, p: nat)
    requires a <= w < a + q && p >= 1
    ensures a * p <= w * p < a * p + p * q
  {
    MulMonotone(a, w, p);
    MulMonotone(w - a + 1, q, p);
    assert (w - a + 1) * p == w * p - a * p + p;
  }

  // ----- The work of a block -----

  /** No compact form stands for 2^256 - 1. */
  lemma NextFits(c: nat)
    requires Meaning(c) < Modulus()
    ensures Meaning(c) + 1 < Modulus()
  {
    hide Pow2, Quotient;
    Pow2Values();
    Pow2Monotone(32, 256);
    if SizeOf(c) <= 3 {
      SmallWord(WordOf(c), SizeOf(c));
    } else {
      var e := 8 * (SizeOf(c) - 3);
      Pow2Add(8, e - 8);
      Pow2Add(8, 248);
      MulAssociates(WordOf(c), Pow2(8), Pow2(e - 8));
      assert WordOf(c) * Pow2(e) == 0x100 * (WordOf(c) * Pow2(e - 8)) by {
        assert WordOf(c) * Pow2(e) == WordOf(c) * (0x100 * Pow2(e - 8));
      }
    }
  }

  /** 2^256 / (t + 1), computed without leaving 256 bits. */
  lemma ProofArith(t: nat, m: nat)
    requires 1 <= t && t + 1 < m
    ensures Quotient(m - 1 - t, t + 1) + 1 == Quotient(m, t + 1) < m
  {
    var d := t + 1;
    var q := Quotient(m - 1 - t, d);
    Spread(q, 1, 0, d);
    QuotientIs(m, d, q + 1, m - (q + 1) * d);
    MulMonotone(2, d, q + 1);
  }

  /** The expected number of hashes: floor(2^256 / (target + 1)), or 0 for a target that is none. */
  method GetBlockProof(nBits: nat) returns (proof: BaseUint)
    requires nBits < 0x1_0000_0000
    ensures proof.Valid()
    ensures var t := Meaning(nBits);
            proof.Val() == if t == 0 || SignOf(nBits) || t >= Modulus() then 0 else Quotient(Modulus(), t + 1)
  {
    hide Value, Pow2, Modulus, Quotient, Meaning;
    ModulusIsWeight();
    var bnTarget := new BaseUint(0);
    var fNegative, fOverflow := SetCompact(bnTarget, nBits);
    ghost var t := Meaning(nBits);
    if !fOverflow {
      DivUnique(t, Modulus(), 0, t);
    }
    var zero := bnTarget.EqualTo(0);
    if fNegative || fOverflow || zero {
      proof := new BaseUint(0);
      return;
    }
    NextFits(nBits);
    proof := ProofOf(bnTarget);
  }

  /** `(~target / (target + 1)) + 1`. */
  method ProofOf(bnTarget: BaseUint) returns (proof: BaseUint)
    requires bnTarget.Valid() && 1 <= bnTarget.Val() && bnTarget.Val() + 1 < Modulus()
    modifies bnTarget.pn
    ensures fresh(proof) && proof.Valid() && proof.Val() == Quotient(Modulus(), old(bnTarget.Val()) + 1)
  {
    hide Value, Pow2, Modulus, Quotient;
    ghost var t := bnTarget.Val();
    ProofArith(t, Modulus());
    proof := bnTarget.Complemented();
    var one := new BaseUint(1);
    bnTarget.Add(one);
    DivUnique(t + 1, Modulus(), 0, t + 1);
    var ok := proof.Divide(bnTarget);
    DivUnique(proof.Val() + 1, Modulus(), 0, proof.Val() + 1);
    proof.Add(one);
  }
}
