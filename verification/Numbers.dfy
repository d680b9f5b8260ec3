/** Powers, and the laws about them and about quotients that several modules share. */
module Numbers {

  function Max(a: nat, b: nat): nat { if a < b then b else a }

  function Min(a: nat, b: nat): nat { if a < b then a else b }

  function Pow(b: nat, e: nat): (r: nat)
    ensures b >= 1 ==> r >= 1
  {
    if e == 0 then 1 else b * Pow(b, e - 1)
  }

  function Pow2(e: nat): (r: nat)
    ensures r >= 1
  {
    Pow(2, e)
  }

  lemma MulAssociates(a: int, b: int, c: int)
    ensures a * (b * c) == (a * b) * c
  {
  }

  lemma {:induction false} PowAdd(b: nat, d: nat, e: nat)
    ensures Pow(b, d + e) == Pow(b, d) * Pow(b, e)
    decreases d
  {
    if d > 0 {
      PowAdd(b, d - 1, e);
      MulAssociates(b, Pow(b, d - 1), Pow(b, e));
      assert d + e - 1 == d - 1 + e;
    }
  }

  lemma Pow2Add(d: nat, e: nat)
    ensures Pow2(d + e) == Pow2(d) * Pow2(e)
  {
    PowAdd(2, d, e);
  }

  lemma {:induction false} PowMonotone(b: nat, d: nat, e: nat)
    requires b >= 1 && d <= e
    ensures Pow(b, d) <= Pow(b, e)
    decreases e
  {
    if d < e {
      PowMonotone(b, d, e - 1);
      assert Pow(b, e - 1) <= b * Pow(b, e - 1);
    }
  }

  lemma Pow2Monotone(d: nat, e: nat)
    requires d <= e
    ensures Pow2(d) <= Pow2(e)
  {
    PowMonotone(2, d, e);
  }

  lemma Pow2Values()
    ensures Pow2(0) == 1 && Pow2(1) == 2 && Pow2(2) == 4 && Pow2(8) == 0x100 && Pow2(16) == 0x1_0000
    ensures Pow2(32) == 0x1_0000_0000
  {
    assert Pow2(2) == 4 by { assert Pow(2, 0) == 1; assert Pow(2, 1) == 2; }
    Pow2Add(2, 2);
    Pow2Add(4, 4);
    Pow2Add(8, 8);
    Pow2Add(16, 16);
  }

  lemma MulMonotone(x: int, y: int, a: nat)
    requires x <= y
    ensures x * a <= y * a
  {
  }

  function Quotient(x: nat, d: nat): (r: nat)
    requires d > 0
    ensures r * d <= x < r * d + d
  {
    x / d
  }

  function Remainder(x: nat, d: nat): (r: nat)
    requires d > 0
    ensures r < d
  {
    x % d
  }

  /** The quotient and remainder are determined by what they satisfy. */
  lemma DivUnique(n: int, d: nat, q: int, r: int)
    requires d > 0 && n == q * d + r && 0 <= r < d
    ensures n / d == q && n % d == r
  {
    var p, s := n / d, n % d;
    assert n == p * d + s;
    assert (p - q) * d == r - s by { assert (p - q) * d == p * d - q * d; }
    if p - q >= 1 {
      MulMonotone(1, p - q, d);
    } else if p - q <= -1 {
      MulMonotone(p - q, -1, d);
    }
  }

  lemma Division(x: nat, d: nat)
    requires d > 0
    ensures Quotient(x, d) * d + x % d == x
  {
  }

  /** Halving moves the last bit of a remainder out. */
  lemma HalfMod(x: nat, p: nat)
    requires p >= 1
    ensures x % (2 * p) == 2 * (x / 2 % p) + x % 2
  {
    var q, r := x / 2 / p, x / 2 % p;
    assert x / 2 == q * p + r;
    assert x == q * (2 * p) + (2 * r + x % 2) by { assert q * (2 * p) == 2 * (q * p); }
    DivUnique(x, 2 * p, q, 2 * r + x % 2);
  }

  lemma {:induction false} DivDiv(n: nat, a: nat, b: nat)
    requires a > 0 && b > 0
    ensures a * b > 0 && n / (a * b) == n / a / b
  {
    var q, r := n / a, n % a;
    var p, s := q / b, q % b;
    assert a * b > 0 by { MulMonotone(1, a, b); }
    assert n == (p * b + s) * a + r;
    assert (p * b + s) * a == p * (a * b) + s * a;
    assert s * a + r < a * b by { MulMonotone(s, b - 1, a); assert (b - 1) * a == a * b - a; }
    assert 0 <= s * a by { MulMonotone(0, s, a); }
    DivUnique(n, a * b, p, s * a + r);
  }
}
