/** Single bits of numbers. */
module BitOps {
  import opened Numbers

  /** Bit `k` of a number, least significant first. */
  function Bit(b: nat, k: nat): bool
    decreases k
  {
    if k == 0 then b % 2 == 1 else Bit(b / 2, k - 1)
  }

  /** `b | (1 << k)`. */
  function SetBit(b: nat, k: nat): nat
    decreases k
  {
    if k == 0 then b / 2 * 2 + 1 else 2 * SetBit(b / 2, k - 1) + b % 2
  }

  lemma {:induction false} SetBitAt(b: nat, k: nat, j: nat)
    ensures Bit(SetBit(b, k), j) <==> j == k || Bit(b, j)
    decreases k
  {
    if k > 0 && j > 0 {
      SetBitAt(b / 2, k - 1, j - 1);
      assert SetBit(b, k) / 2 == SetBit(b / 2, k - 1);
    }
  }

  lemma {:induction false} SetBitRange(b: nat, k: nat, width: nat)
    requires b < Pow2(width) && k < width
    ensures SetBit(b, k) < Pow2(width)
    decreases k
  {
    var half := Pow2(width - 1);
    assert b / 2 < half by { assert Pow2(width) == 2 * half; }
    if k > 0 {
      SetBitRange(b / 2, k - 1, width - 1);
    }
    Doubled(SetBit(b, k), half);
    assert SetBit(b, k) / 2 < half;
  }

  lemma Doubled(x: nat, half: nat)
    ensures x / 2 < half ==> x < 2 * half
  {
  }

  lemma {:induction false} ZeroBits(k: nat)
    ensures !Bit(0, k)
    decreases k
  {
    if k > 0 {
      ZeroBits(k - 1);
    }
  }

  /** `b & ~(1 << k)`. */
  function ClearBit(b: nat, k: nat): nat
    decreases k
  {
    if k == 0 then b / 2 * 2 else 2 * ClearBit(b / 2, k - 1) + b % 2
  }

  lemma {:induction false} ClearBitAt(b: nat, k: nat, j: nat)
    ensures Bit(ClearBit(b, k), j) <==> j != k && Bit(b, j)
    decreases k
  {
    if k > 0 && j > 0 {
      ClearBitAt(b / 2, k - 1, j - 1);
      assert ClearBit(b, k) / 2 == ClearBit(b / 2, k - 1);
    }
  }

  /** All bits of 2^n - 1 are set. */
  lemma {:induction false} AllOnes(n: nat, k: nat)
    requires k < n
    ensures Bit(Pow2(n) - 1, k)
    decreases k
  {
    assert Pow2(n) == 2 * Pow2(n - 1);
    if k > 0 {
      AllOnes(n - 1, k - 1);
      assert (Pow2(n) - 1) / 2 == Pow2(n - 1) - 1;
    }
  }

  /** A bitwise operation on words of `w` bits. */
  function Bitwise(op: (bool, bool) -> bool, x: nat, y: nat, w: nat): nat
    decreases w
  {
    if w == 0 then 0 else 2 * Bitwise(op, x / 2, y / 2, w - 1) + if op(x % 2 == 1, y % 2 == 1) then 1 else 0
  }

  lemma {:induction false} BitwiseAt(op: (bool, bool) -> bool, x: nat, y: nat, w: nat, k: nat)
    requires k < w
    ensures Bit(Bitwise(op, x, y, w), k) == op(Bit(x, k), Bit(y, k))
    decreases w
  {
    if k > 0 {
      BitwiseAt(op, x / 2, y / 2, w - 1, k - 1);
      assert Bitwise(op, x, y, w) / 2 == Bitwise(op, x / 2, y / 2, w - 1);
    }
  }

  // ----- Bitwise or -----

  /** `x | y`. */
  function Or(x: nat, y: nat): nat
    decreases x + y
  {
    if x == 0 && y == 0 then 0 else 2 * Or(x / 2, y / 2) + if x % 2 == 1 || y % 2 == 1 then 1 else 0
  }

  /** Where the low bits are clear in one operand and the high ones in the other, or is addition. */
  lemma {:induction false} OrAdds(x: nat, y: nat, s: nat)
    requires x < Pow2(s) && y % Pow2(s) == 0
    ensures Or(x, y) == x + y
    decreases s
  {
    if s == 0 {
      OrZero(y);
    } else {
      var p := Pow2(s - 1);
      assert Pow2(s) == 2 * p;
      var q := y / (2 * p);
      assert y == 2 * p * q;
      assert 2 * p * q == 2 * (p * q);
      assert (p * q) % p == 0 by { DivUnique(p * q, p, q, 0); }
      OrAdds(x / 2, y / 2, s - 1);
    }
  }

  lemma {:induction false} OrZero(y: nat)
    ensures Or(0, y) == y
    decreases y
  {
    if y > 0 {
      OrZero(y / 2);
    }
  }

  lemma {:induction false} OrCommutes(x: nat, y: nat)
    ensures Or(x, y) == Or(y, x)
    decreases x + y
  {
    if x + y > 0 {
      OrCommutes(x / 2, y / 2);
    }
  }

  lemma {:induction false} OrBit(x: nat, y: nat, k: nat)
    ensures Bit(Or(x, y), k) <==> Bit(x, k) || Bit(y, k)
    decreases k
  {
    hide Or;
    OrHalf(x, y);
    if k > 0 {
      OrBit(x / 2, y / 2, k - 1);
    }
  }

  lemma OrHalf(x: nat, y: nat)
    ensures Or(x, y) / 2 == Or(x / 2, y / 2) && (Or(x, y) % 2 == 1 <==> x % 2 == 1 || y % 2 == 1)
  {
  }
}
