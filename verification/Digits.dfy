/** Big-endian digits in any base, and how many of them a number needs in another base. */
module Digits {
  import opened Numbers

  ghost predicate AllDigits(base: nat, s: seq<nat>) {
    forall i :: 0 <= i < |s| ==> s[i] < base
  }

  /** A number with one more digit. */
  function Shift(base: nat, n: nat, d: nat): nat {
    MulMonotone(0, n, base);
    n * base + d
  }

  /** A number without its last digit. */
  function Front(base: nat, n: nat): nat
    requires base > 0
  {
    n / base
  }

  lemma ShiftBack(base: nat, n: nat, d: nat)
    requires d < base
    ensures Front(base, Shift(base, n, d)) == n && Remainder(Shift(base, n, d), base) == d
  {
    DivUnique(n * base + d, base, n, d);
  }

  lemma ShiftJoins(base: nat, n: nat)
    requires base >= 1
    ensures Shift(base, Front(base, n), Remainder(n, base)) == n
  {
    Division(n, base);
  }

  lemma ShiftPositive(base: nat, n: nat, d: nat)
    requires base >= 1 && n + d > 0
    ensures Shift(base, n, d) > 0
  {
    MulMonotone(1, base, n);
  }

  lemma ShiftBound(base: nat, n: nat, d: nat, p: nat)
    requires n < p && d < base
    ensures Shift(base, n, d) < base * p
  {
    MulMonotone(n + 1, p, base);
    assert (n + 1) * base == n * base + base;
  }

  ghost function Num(base: nat, s: seq<nat>): nat {
    if s == [] then 0 else Shift(base, Num(base, s[..|s| - 1]), s[|s| - 1])
  }

  /** The digits of a number without leading zeros. */
  ghost function DigitsOf(base: nat, n: nat): seq<nat>
    requires base >= 2
    decreases n
  {
    if n == 0 then [] else
      Smaller(n, base);
      DigitsOf(base, Front(base, n)) + [Remainder(n, base)]
  }

  lemma Smaller(n: nat, base: nat)
    requires base >= 2 && n > 0
    ensures Front(base, n) < n
  {
    Division(n, base);
    MulMonotone(2, base, Quotient(n, base));
  }

  ghost predicate Leading(s: seq<nat>) {
    s != [] ==> s[0] != 0
  }

  lemma {:induction false} NumOfDigits(base: nat, n: nat)
    requires base >= 2
    ensures Num(base, DigitsOf(base, n)) == n && AllDigits(base, DigitsOf(base, n)) && Leading(DigitsOf(base, n))
    decreases n
  {
    hide Shift, Front, Remainder;
    if n > 0 {
      Smaller(n, base);
      var q, r := Front(base, n), Remainder(n, base);
      NumOfDigits(base, q);
      var d := DigitsOf(base, q);
      assert (d + [r])[..|d|] == d;
      ShiftJoins(base, n);
      if q == 0 {
        assert d == [];
        OneDigit(base, r);
      }
    }
  }

  lemma OneDigit(base: nat, d: nat)
    ensures Shift(base, 0, d) == d
  {
  }

  lemma DigitsOfShift(base: nat, n: nat, d: nat)
    requires base >= 2 && d < base && n + d > 0
    ensures DigitsOf(base, Shift(base, n, d)) == DigitsOf(base, n) + [d]
  {
    hide Shift, Front, Remainder;
    ShiftBack(base, n, d);
    ShiftPositive(base, n, d);
  }

  lemma NumLast(base: nat, s: seq<nat>, t: seq<nat>, d: nat)
    requires s == t + [d]
    ensures Num(base, s) == Shift(base, Num(base, t), d)
  {
    hide Shift;
    assert s[..|s| - 1] == t;
  }

  lemma NoDigits(base: nat)
    requires base >= 2
    ensures Num(base, []) == 0 && DigitsOf(base, 0) == []
  {
  }

  /** Digits without leading zeros are those of their number. */
  lemma {:induction false} DigitsOfNum(base: nat, s: seq<nat>)
    requires base >= 2 && AllDigits(base, s) && Leading(s)
    ensures DigitsOf(base, Num(base, s)) == s
    decreases |s|
  {
    hide Shift, Num, DigitsOf;
    NoDigits(base);
    if s != [] {
      var t, d := s[..|s| - 1], s[|s| - 1];
      DigitsOfNum(base, t);
      if t != [] {
        Positive(base, t);
      }
      NumLast(base, s, t, d);
      DigitsOfShift(base, Num(base, t), d);
    }
  }

  lemma {:induction false} Positive(base: nat, s: seq<nat>)
    requires base >= 1 && s != [] && s[0] != 0
    ensures Num(base, s) > 0
    decreases |s|
  {
    hide Shift;
    var t, d := s[..|s| - 1], s[|s| - 1];
    if |s| > 1 {
      Positive(base, t);
    }
    ShiftPositive(base, Num(base, t), d);
  }

  lemma {:induction false} NumBound(base: nat, s: seq<nat>)
    requires base >= 1 && AllDigits(base, s)
    ensures Num(base, s) < Pow(base, |s|)
    decreases |s|
  {
    hide Shift;
    if s != [] {
      var t := s[..|s| - 1];
      NumBound(base, t);
      ShiftBound(base, Num(base, t), s[|s| - 1], Pow(base, |t|));
    }
  }

  lemma {:induction false} NumSplit(base: nat, s: seq<nat>, k: nat)
    requires k <= |s|
    ensures Num(base, s) == Joined(Num(base, s[..k]), Pow(base, |s| - k), Num(base, s[k..]))
    decreases |s| - k
  {
    hide Pow, Shift, Joined;
    if k == |s| {
      assert s[..k] == s && s[k..] == [];
      JoinNothing(base, Num(base, s));
    } else {
      var n := |s| - 1;
      var t := s[..n];
      NumSplit(base, t, k);
      assert t[..k] == s[..k] && s[k..][..n - k] == t[k..];
      assert Num(base, s[k..]) == Shift(base, Num(base, t[k..]), s[n]);
      ShiftUp(Num(base, s[..k]), base, n - k, Num(base, t[k..]), s[n]);
    }
  }

  /** A high part moved up by a power, and a low part. */
  function Joined(h: nat, p: nat, l: nat): nat {
    MulMonotone(0, h, p);
    h * p + l
  }

  lemma JoinNothing(base: nat, h: nat)
    ensures Joined(h, Pow(base, 0), 0) == h
  {
    assert Pow(base, 0) == 1;
  }

  lemma ShiftUp(h: nat, base: nat, e: nat, l: nat, d: nat)
    ensures Shift(base, Joined(h, Pow(base, e), l), d) == Joined(h, Pow(base, e + 1), Shift(base, l, d))
  {
    var p := Pow(base, e);
    assert Pow(base, e + 1) == base * p;
    assert (h * p) * base == h * (base * p);
    assert (h * p + l) * base == (h * p) * base + l * base;
  }

  lemma {:induction false} NumZeros(base: nat, s: seq<nat>)
    requires forall i :: 0 <= i < |s| ==> s[i] == 0
    ensures Num(base, s) == 0
    decreases |s|
  {
    if s != [] {
      NumZeros(base, s[..|s| - 1]);
    }
  }

  /** Leading zeros do not count. */
  lemma NumSkipZeros(base: nat, s: seq<nat>, k: nat)
    requires k <= |s| && forall i :: 0 <= i < k ==> s[i] == 0
    ensures Num(base, s) == Num(base, s[k..])
  {
    hide Num, Pow;
    NumSplit(base, s, k);
    NumZeros(base, s[..k]);
  }

  // ----- Digits needed in another base -----

  lemma {:induction false} PowPow(b: nat, d: nat, e: nat)
    ensures Pow(Pow(b, d), e) == Pow(b, Product(d, e))
    decreases e
  {
    if e > 0 {
      PowPow(b, d, e - 1);
      PowAdd(b, d, Product(d, e - 1));
      assert d * e == d + d * (e - 1);
    } else {
      assert d * e == 0;
    }
  }

  lemma {:induction false} PowBase(a: nat, b: nat, e: nat)
    requires a <= b
    ensures Pow(a, e) <= Pow(b, e)
    decreases e
  {
    if e > 0 {
      PowBase(a, b, e - 1);
      MulMonotone(a, b, Pow(a, e - 1));
      MulMonotone(Pow(a, e - 1), Pow(b, e - 1), b);
      assert b * Pow(a, e - 1) == Pow(a, e - 1) * b;
    }
  }

  lemma PowStrict(b: nat, d: nat, e: nat)
    requires b >= 2 && d < e
    ensures Pow(b, d) < Pow(b, e)
  {
    PowMonotone(b, d + 1, e);
    MulMonotone(2, b, Pow(b, d));
  }

  lemma PowSwap(a: nat, p: nat, r: nat)
    ensures Pow(Pow(a, p), r) == Pow(Pow(a, r), p)
  {
    hide Pow;
    PowPow(a, p, r);
    PowPow(a, r, p);
    assert p * r == r * p;
  }

  function Product(x: nat, y: nat): (r: nat)
    ensures r == x * y
  {
    MulMonotone(0, x, y);
    x * y
  }

  lemma Below(a: nat, b: nat, p: nat, r: nat, s: nat, low: nat, high: nat)
    requires b >= 2 && low < high && Pow(Pow(a, r), p) <= Pow(b, low) && Pow(Pow(b, s), p) == Pow(b, high)
    ensures Pow(a, r) < Pow(b, s)
  {
    hide Pow;
    PowStrict(b, low, high);
    if Pow(a, r) >= Pow(b, s) {
      PowBase(Pow(b, s), Pow(a, r), p);
    }
  }

  /** If `p` digits in base `a` fit `q` in base `b`, then `r` fit `s` wherever `q * r < s * p`. */
  lemma DigitsFit(a: nat, b: nat, p: nat, q: nat, r: nat, s: nat)
    requires b >= 2 && Pow(a, p) <= Pow(b, q) && q * r < s * p
    ensures Pow(a, r) < Pow(b, s)
  {
    hide Pow;
    var low, high := Product(q, r), Product(s, p);
    PowSwap(a, p, r);
    PowBase(Pow(a, p), Pow(b, q), r);
    PowPow(b, q, r);
    PowPow(b, s, p);
    Below(a, b, p, r, s, low, high);
  }

  lemma PowSquare(b: nat, e: nat)
    ensures Pow(b, 2 * e) == Pow(b, e) * Pow(b, e) && Pow(b, 2 * e + 1) == b * (Pow(b, e) * Pow(b, e))
  {
    PowAdd(b, e, e);
  }
}
