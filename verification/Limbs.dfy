/** Little-endian 32-bit limbs as numbers: the facts behind `base_uint`. */
module Limbs {
  import opened BitOps
  import opened Numbers

  const BASE: nat := 0x1_0000_0000

  ghost function Weight(i: nat): (r: nat)
    ensures r >= 1
  {
    Pow2(32 * i)
  }

  lemma WeightNext(i: nat)
    ensures Weight(0) == 1 && Weight(i + 1) == BASE * Weight(i)
  {
    Pow2Values();
    Pow2Add(32, 32 * i);
  }

  lemma WeightAdd(i: nat, j: nat)
    ensures Weight(i + j) == Weight(i) * Weight(j)
  {
    Pow2Add(32 * i, 32 * j);
  }

  ghost predicate AllLimbs(s: seq<nat>) {
    forall i :: 0 <= i < |s| ==> s[i] < BASE
  }

  ghost function Value(s: seq<nat>): nat {
    if s == [] then 0 else Value(s[..|s| - 1]) + s[|s| - 1] * Weight(|s| - 1)
  }

  lemma ValueTake(s: seq<nat>, i: nat)
    requires i < |s|
    ensures Value(s[..i + 1]) == Value(s[..i]) + s[i] * Weight(i)
  {
    assert s[..i + 1][..i] == s[..i];
  }

  lemma {:induction false} ValueBound(s: seq<nat>)
    requires AllLimbs(s)
    ensures Value(s) < Weight(|s|)
    decreases |s|
  {
    if s == [] {
      WeightNext(0);
    } else {
      var n := |s| - 1;
      ValueBound(s[..n]);
      WeightNext(n);
      MulMonotone(s[n], BASE - 1, Weight(n));
      assert (BASE - 1) * Weight(n) == BASE * Weight(n) - Weight(n);
    }
  }

  lemma {:induction false} ValueUpdate(s: seq<nat>, i: nat, x: nat)
    requires i < |s|
    ensures Value(s[i := x]) + s[i] * Weight(i) == Value(s) + x * Weight(i)
    decreases |s|
  {
    var n := |s| - 1;
    if i == n {
      assert s[i := x][..n] == s[..n];
    } else {
      ValueUpdate(s[..n], i, x);
      assert s[i := x][..n] == s[..n][i := x];
    }
  }

  lemma {:induction false} ValueZeros(s: seq<nat>)
    requires forall i :: 0 <= i < |s| ==> s[i] == 0
    ensures Value(s) == 0
    decreases |s|
  {
    if s != [] {
      ValueZeros(s[..|s| - 1]);
    }
  }

  /** The high limbs count from their own position. */
  lemma {:induction false} ValueSplit(s: seq<nat>, k: nat)
    requires k <= |s|
    ensures Value(s) == Value(s[..k]) + Weight(k) * Value(s[k..])
    decreases |s| - k
  {
    hide Value, Weight;
    if k == |s| {
      assert s[..k] == s;
      ValueZeros(s[k..]);
    } else {
      var n := |s| - 1;
      var t := s[..n];
      ValueSplit(t, k);
      assert t[..k] == s[..k] && s[k..][..n - k] == t[k..];
      assert s[..n + 1] == s && s[k..][..n - k + 1] == s[k..];
      ValueTake(s, n);
      ValueTake(s[k..], n - k);
      WeightAdd(k, n - k);
      SplitArith(Weight(k), Value(t[k..]), s[n], Weight(n - k));
    }
  }

  lemma SplitArith(w: int, v: int, x: int, u: int)
    ensures w * (v + x * u) == w * v + x * (w * u)
  {
    assert w * (x * u) == x * (w * u);
  }

  /** Equal up to position `k`, then smaller: smaller. */
  lemma ValueLess(s: seq<nat>, t: seq<nat>, k: nat)
    requires |s| == |t| && k < |s| && AllLimbs(s) && AllLimbs(t) && s[k] < t[k] && s[k + 1..] == t[k + 1..]
    ensures Value(s) < Value(t)
  {
    hide Value, Weight;
    ValueSplit(s, k + 1);
    ValueSplit(t, k + 1);
    ValueTake(s, k);
    ValueTake(t, k);
    ValueBound(s[..k]);
    MulMonotone(s[k] + 1, t[k], Weight(k));
    assert (s[k] + 1) * Weight(k) == s[k] * Weight(k) + Weight(k);
  }

  /** A sum or product is cut into a limb and a carry. */
  lemma Carry(n: nat, w: nat)
    ensures (n % BASE) * w + (n / BASE) * (BASE * w) == n * w
  {
    assert n == (n / BASE) * BASE + n % BASE;
    assert (n / BASE) * (BASE * w) == ((n / BASE) * BASE) * w;
    assert ((n / BASE) * BASE) * w + (n % BASE) * w == ((n / BASE) * BASE + n % BASE) * w;
  }

  // ----- Arithmetic steps on limb sequences -----

  /** One limb of an addition. */
  lemma AddStep(was: seq<nat>, b: seq<nat>, s: seq<nat>, i: nat, carry: nat, n: nat)
    requires i < |was| == |b| == |s| && n == carry + was[i] + b[i] && s[i] == n % BASE
    requires Value(s[..i]) + carry * Weight(i) == Value(was[..i]) + Value(b[..i])
    ensures Value(s[..i + 1]) + (n / BASE) * Weight(i + 1) == Value(was[..i + 1]) + Value(b[..i + 1])
  {
    hide Value, Weight;
    ValueTake(s, i);
    ValueTake(was, i);
    ValueTake(b, i);
    WeightNext(i);
    Carry(n, Weight(i));
    Spread(carry, was[i], b[i], Weight(i));
  }

  lemma Spread(x: int, y: int, z: int, w: int)
    ensures (x + y + z) * w == x * w + y * w + z * w
  {
  }

  lemma Wrapped(v: nat, carry: nat, m: nat, total: int)
    requires v < m && v + carry * m == total
    ensures v == total % m
  {
    DivUnique(total, m, carry, v);
  }

  ghost function Complement(s: seq<nat>): (r: seq<nat>)
    requires AllLimbs(s)
    ensures |r| == |s| && AllLimbs(r)
  {
    seq(|s|, i requires 0 <= i < |s| => (BASE - 1 - s[i]) as nat)
  }

  lemma {:induction false} ComplementValue(s: seq<nat>)
    requires AllLimbs(s)
    ensures Value(Complement(s)) == Weight(|s|) - 1 - Value(s)
    decreases |s|
  {
    if s == [] {
      WeightNext(0);
    } else {
      var n := |s| - 1;
      ComplementValue(s[..n]);
      assert Complement(s)[..n] == Complement(s[..n]);
      WeightNext(n);
      assert (BASE - 1 - s[n]) * Weight(n) == BASE * Weight(n) - Weight(n) - s[n] * Weight(n);
    }
  }

  /** One limb of a row of a product. */
  lemma MulStep(a: seq<nat>, r: seq<nat>, x: nat, b: seq<nat>, i: nat, j: nat, carry: nat, n: nat, total: int)
    requires i + j < |a| == |r| && i < |b| && n == carry + a[i + j] + x * b[i] && r == a[i + j := n % BASE]
    requires Value(a) + carry * Weight(i + j) == total + x * Value(b[..i]) * Weight(j)
    ensures Value(r) + (n / BASE) * Weight(i + j + 1) == total + x * Value(b[..i + 1]) * Weight(j)
  {
    hide Value, Weight;
    ValueUpdate(a, i + j, n % BASE);
    ValueTake(b, i);
    WeightNext(i + j);
    WeightAdd(i, j);
    Carry(n, Weight(i + j));
    Spread(carry, a[i + j], x * b[i], Weight(i + j));
    Distribute(x, Value(b[..i]), b[i], Weight(i), Weight(j));
  }

  lemma Distribute(x: int, v: int, y: int, p: int, q: int)
    ensures x * (v + y * p) * q == x * v * q + (x * y) * (p * q)
  {
    assert x * (v + y * p) == x * v + x * (y * p);
    assert x * (y * p) == (x * y) * p;
    assert (x * v + (x * y) * p) * q == x * v * q + ((x * y) * p) * q;
    assert ((x * y) * p) * q == (x * y) * (p * q);
  }

  /** No column of a product overflows 64 bits. */
  lemma ColumnFits(carry: nat, a: nat, x: nat, y: nat)
    requires carry < BASE && a < BASE && x < BASE && y < BASE
    ensures carry + a + x * y < BASE * BASE
    ensures (carry + a + x * y) / BASE < BASE
  {
    var m := BASE - 1;
    MulMonotone(x, m, y);
    MulMonotone(y, m, m);
    assert m * y == y * m;
    assert m * m + 2 * m + 1 == BASE * BASE;
    var n := carry + a + x * y;
    assert n / BASE * BASE <= n;
  }

  // ----- Shifts -----

  /** `pn[j] |= x`, for a limb that may lie outside the number. */
  function OrAt(r: seq<nat>, j: int, x: nat): (q: seq<nat>)
    ensures |q| == |r|
  {
    if 0 <= j < |r| then r[j := Or(r[j], x)] else r
  }

  /** Or-ing bits into clear places adds them; beyond the last limb they are lost. */
  lemma OrAtLeft(r: seq<nat>, j: nat, x: nat, s: nat) returns (lost: nat)
    requires j < |r| ==> r[j] < Pow2(s) && x % Pow2(s) == 0
    ensures Value(OrAt(r, j, x)) + lost * Weight(|r|) == Value(r) + x * Weight(j)
    ensures j < |r| ==> lost == 0 && OrAt(r, j, x) == r[j := r[j] + x]
  {
    hide Value, Weight, Or, Pow2;
    if j < |r| {
      OrAdds(r[j], x, s);
      ValueUpdate(r, j, r[j] + x);
      Spread(r[j], x, 0, Weight(j));
      lost := 0;
    } else {
      WeightAdd(j - |r|, |r|);
      MulAssociates(x, Weight(j - |r|), Weight(|r|));
      lost := x * Weight(j - |r|);
    }
  }

  /** What has been shifted in after `i` limbs: nothing above limb `i + k`, and only the low bits there. */
  ghost predicate Shifted(r: seq<nat>, i: int, s: nat) {
    && (forall j :: 0 <= j < |r| && j > i ==> r[j] == 0)
    && (0 <= i < |r| ==> r[i] < Pow2(s))
  }

  function Low(x: nat, s: nat): nat { (x * Pow2(s)) % BASE }

  function High(x: nat, s: nat): nat
    requires s <= 32
  {
    Quotient(x, Pow2(32 - s))
  }

  /** A limb moved up by `s` bits falls into two limbs. */
  lemma ShiftLimb(x: nat, s: nat)
    requires x < BASE && s < 32
    ensures Low(x, s) + BASE * High(x, s) == x * Pow2(s)
    ensures Low(x, s) % Pow2(s) == 0 && High(x, s) < Pow2(s)
    ensures Low(x, s) + Pow2(s) <= BASE
  {
    hide Pow2;
    var p, q := Pow2(s), Pow2(32 - s);
    Pow2Add(s, 32 - s);
    Pow2Values();
    var h := High(x, s);
    var l := x - h * q;
    assert x * p == h * BASE + l * p by {
      SplitLimb(x, h, l, p, q);
    }
    assert l * p + p <= BASE by {
      MulMonotone(l + 1, q, p);
      Spread(l, 1, 0, p);
    }
    MulMonotone(0, l, p);
    DivUnique(x * p, BASE, h, l * p);
    DivUnique(l * p, p, l, 0);
    assert h < p by {
      if h >= p {
        MulMonotone(p, h, q);
      }
    }
  }

  lemma SplitLimb(x: int, h: int, l: int, p: int, q: int)
    requires x == h * q + l
    ensures x * p == h * (p * q) + l * p
  {
    Spread(h * q, l, 0, p);
    assert (h * q) * p == h * (p * q);
  }

  /** One limb of a left shift by `32 * k + s`. */
  lemma ShiftLeftStep(r: seq<nat>, x: nat, i: nat, k: nat, s: nat, lost: nat) returns (q: seq<nat>, more: nat)
    requires AllLimbs(r) && x < BASE && s < 32 && Shifted(r, i + k, s)
    ensures |q| == |r| && q == OrAt(if s != 0 then OrAt(r, i + k + 1, High(x, s)) else r, i + k, Low(x, s))
    ensures AllLimbs(q) && |q| == |r| && Shifted(q, i + k + 1, s)
    ensures Value(q) + more * Weight(|r|) == Value(r) + lost * Weight(|r|) + x * Pow2(s) * Weight(i + k)
  {
    hide Value, Weight, Or, Low, High, Pow2;
    ShiftLimb(x, s);
    WeightNext(i + k);
    Pow2Values();
    var w, top, m := Weight(i + k), Weight(i + k + 1), Weight(|r|);
    var p, l1 := r, 0;
    if s != 0 {
      ZeroIsClear(s, High(x, s));
      l1 := OrAtLeft(r, i + k + 1, High(x, s), 0);
      p := OrAt(r, i + k + 1, High(x, s));
    }
    var l2 := OrAtLeft(p, i + k, Low(x, s), s);
    q := OrAt(p, i + k, Low(x, s));
    more := lost + l1 + l2;
    ShiftArith(Low(x, s), High(x, s), w, x * Pow2(s));
    Spread(lost, l1, l2, m);
  }

  lemma ZeroIsClear(s: nat, x: nat)
    ensures 0 < Pow2(0) && x % Pow2(0) == 0
  {
  }

  lemma ShiftArith(l: nat, h: nat, w: nat, y: nat)
    requires l + BASE * h == y
    ensures h * (BASE * w) + l * w == y * w
  {
    assert h * (BASE * w) == (BASE * h) * w;
    Spread(l, BASE * h, 0, w);
  }

  ghost function Unit(k: nat, s: nat): (r: nat)
    ensures r >= 1
  {
    Pow2(32 * k + s)
  }

  lemma UnitIs(k: nat, s: nat)
    ensures Unit(k, s) == Pow2(s) * Weight(k) >= 1
  {
    Pow2Add(s, 32 * k);
  }

  /** The running total of a left shift. */
  lemma ShiftLeftTotal(a: seq<nat>, i: nat, k: nat, s: nat)
    requires i < |a|
    ensures Value(a[..i + 1]) * Unit(k, s) == Value(a[..i]) * Unit(k, s) + a[i] * Pow2(s) * Weight(i + k)
  {
    hide Value, Weight, Pow2, Unit;
    ValueTake(a, i);
    UnitIs(k, s);
    WeightAdd(i, k);
    Spread(Value(a[..i]), a[i] * Weight(i), 0, Unit(k, s));
    Regroup(a[i], Weight(i), Pow2(s), Weight(k));
  }

  lemma Regroup(x: int, u: int, p: int, w: int)
    ensures (x * u) * (p * w) == x * p * (u * w)
  {
    assert (x * u) * (p * w) == x * (u * (p * w));
    assert u * (p * w) == p * (u * w);
    assert x * (p * (u * w)) == (x * p) * (u * w);
  }

  /** One limb of a right shift by `32 * k + s`, once whole limbs remain. */
  lemma ShiftRightStep(r: seq<nat>, x: nat, i: nat, k: nat, s: nat) returns (q: seq<nat>)
    requires AllLimbs(r) && x < BASE && s < 32 && k < i && i - k < |r| && Shifted(r, i - k - 1, 32 - s)
    ensures |q| == |r| && q == OrAt(if s != 0 then OrAt(r, i - k - 1, Low(x, 32 - s)) else r, i - k, High(x, 32 - s))
    ensures AllLimbs(q) && Shifted(q, i - k, 32 - s)
    ensures Value(q) * Unit(k, s) == Value(r) * Unit(k, s) + x * Weight(i)
  {
    hide Value, Weight, Or, Low, High, Pow2, Unit;
    var t := 32 - s;
    Pow2Values();
    UnitIs(k, s);
    HighBits(x, s);
    var p, lost := r, 0;
    if s != 0 {
      ShiftLimb(x, t);
      lost := OrAtLeft(r, i - k - 1, Low(x, t), t);
      p := OrAt(r, i - k - 1, Low(x, t));
    }
    ZeroIsClear(s, High(x, t));
    lost := OrAtLeft(p, i - k, High(x, t), 0);
    q := OrAt(p, i - k, High(x, t));
    var l := if s != 0 then Low(x, t) else 0;
    assert Value(q) == Value(r) + l * Weight(i - k - 1) + High(x, t) * Weight(i - k);
    ShiftRightArith(Value(r), x, l, High(x, t), i, k, s);
  }

  lemma HighBits(x: nat, s: nat)
    requires x < BASE && s < 32
    ensures High(x, 32 - s) < Pow2(32 - s) <= BASE && (s == 0 ==> High(x, 32 - s) == x)
  {
    hide Pow2;
    Pow2Values();
    if s != 0 {
      ShiftLimb(x, 32 - s);
    }
    Pow2Monotone(32 - s, 32);
  }

  lemma ShiftRightArith(v: nat, x: nat, l: nat, h: nat, i: nat, k: nat, s: nat)
    requires k < i && s < 32 && if s == 0 then l == 0 && h == x else l + BASE * h == x * Pow2(32 - s)
    ensures (v + l * Weight(i - k - 1) + h * Weight(i - k)) * Unit(k, s) == v * Unit(k, s) + x * Weight(i)
  {
    hide Weight, Pow2, Unit;
    var u, w := Unit(k, s), Weight(i - k - 1);
    UnitIs(k, s);
    WeightNext(i - k - 1);
    WeightAdd(i - k, k);
    Pow2Add(32 - s, s);
    Pow2Values();
    Spread(v, l * w, h * Weight(i - k), u);
    if s == 0 {
      assert h * Weight(i - k) * u == x * (Weight(i - k) * Weight(k)) by { MulAssociates(h, Weight(i - k), u); }
    } else {
      var y := x * Pow2(32 - s);
      ShiftArith(l, h, w, y);
      Spread(l * w, h * (BASE * w), 0, u);
      Rescale(x, Pow2(32 - s), w, Pow2(s), Weight(k));
      assert (BASE * w) * Weight(k) == Weight(i);
    }
  }

  lemma Rescale(x: int, t: int, w: int, p: int, u: int)
    ensures ((x * t) * w) * (p * u) == x * (((t * p) * w) * u)
  {
    assert ((x * t) * w) * (p * u) == (x * (t * w)) * (p * u);
    assert (x * (t * w)) * (p * u) == x * ((t * w) * (p * u));
    assert (t * w) * (p * u) == ((t * w) * p) * u;
    assert (t * w) * p == (t * p) * w;
  }

  // ----- Single bits -----

  /** All bits up to `shift` are clear. */
  ghost predicate Clear(s: seq<nat>, shift: nat) {
    && shift / 32 < |s|
    && (forall i :: 0 <= i < shift / 32 ==> s[i] == 0)
    && s[shift / 32] % Pow2(shift % 32 + 1) == 0
  }

  lemma RoomAbove(y: nat, t: nat)
    requires y < BASE && t < 32 && y % Pow2(t + 1) == 0
    ensures y + Pow2(t) < BASE && Or(y, Pow2(t)) == y + Pow2(t) && (y + Pow2(t)) % Pow2(t) == 0
  {
    hide Pow2, Or;
    PowDouble(t);
    Pow2Values();
    Pow2Add(t + 1, 31 - t);
    OrCommutes(y, Pow2(t));
    OrAdds(Pow2(t), y, t + 1);
    RoomArith(y, Pow2(t), Pow2(t + 1), Pow2(31 - t));
  }

  lemma RoomArith(y: nat, p: nat, m: nat, n: nat)
    requires p >= 1 && m == 2 * p && m * n == BASE && y < BASE && y % m == 0
    ensures y + p < BASE && (y + p) % p == 0
  {
    var q := Quotient(y, m);
    assert y == q * m;
    if q >= n {
      MulMonotone(n, q, m);
    }
    MulMonotone(q + 1, n, m);
    Spread(q, 1, 0, m);
    assert q * m == 2 * q * p;
    Spread(2 * q, 1, 0, p);
    DivUnique(y + p, p, 2 * q + 1, 0);
  }

  lemma PowDouble(t: nat)
    ensures Pow2(t + 1) == 2 * Pow2(t)
  {
  }

  /** Setting a clear bit adds its weight. */
  lemma SetClearBit(s: seq<nat>, shift: nat) returns (q: seq<nat>)
    requires AllLimbs(s) && Clear(s, shift)
    ensures |q| == |s| && q == s[shift / 32 := Or(s[shift / 32], Pow2(shift % 32))] && AllLimbs(q)
    ensures Value(q) == Value(s) + Pow2(shift)
    ensures shift > 0 ==> Clear(q, shift - 1)
  {
    hide Value, Weight, Or, Pow2;
    var j, t := shift / 32, shift % 32;
    RoomAbove(s[j], t);
    q := s[j := s[j] + Pow2(t)];
    ValueUpdate(s, j, s[j] + Pow2(t));
    Spread(s[j], Pow2(t), 0, Weight(j));
    UnitIs(j, t);
    ClearDown(q, shift);
  }

  lemma ClearDown(s: seq<nat>, shift: nat)
    requires shift / 32 < |s| && (forall i :: 0 <= i < shift / 32 ==> s[i] == 0)
    requires s[shift / 32] % Pow2(shift % 32) == 0
    ensures shift > 0 ==> Clear(s, shift - 1)
  {
    hide Pow2;
    if shift > 0 && shift % 32 == 0 {
      assert (shift - 1) / 32 == shift / 32 - 1 && (shift - 1) % 32 == 31;
      DivUnique(0, Pow2(32), 0, 0);
    }
  }

  lemma ClearLower(s: seq<nat>, shift: nat)
    requires Clear(s, shift)
    ensures shift > 0 ==> Clear(s, shift - 1)
  {
    hide Pow2;
    var y, t := s[shift / 32], shift % 32;
    PowDouble(t);
    var q := y / Pow2(t + 1);
    assert y == q * Pow2(t + 1);
    assert q * (2 * Pow2(t)) == 2 * q * Pow2(t);
    DivUnique(y, Pow2(t), 2 * q, 0);
    ClearDown(s, shift);
  }

  /** A number whose top limb is between two powers is between two powers. */
  lemma BitsBound(s: seq<nat>, pos: nat, n: nat)
    requires AllLimbs(s) && pos < |s| && (forall i :: pos < i < |s| ==> s[i] == 0) && Pow2(n) <= s[pos] < Pow2(n + 1)
    ensures Pow2(32 * pos + n) <= Value(s) < Pow2(32 * pos + n + 1)
  {
    hide Value, Weight, Pow2;
    ValueSplit(s, pos + 1);
    ValueZeros(s[pos + 1..]);
    ValueTake(s, pos);
    ValueBound(s[..pos]);
    UnitIs(pos, n);
    UnitIs(pos, n + 1);
    MulMonotone(Pow2(n), s[pos], Weight(pos));
    MulMonotone(s[pos] + 1, Pow2(n + 1), Weight(pos));
    Spread(s[pos], 1, 0, Weight(pos));
  }
}
