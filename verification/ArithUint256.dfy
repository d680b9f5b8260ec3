/** 256-bit arithmetic on eight 32-bit limbs, and the compact form of targets. */
module ArithUint256 {
  import opened BitOps
  import opened Numbers
  import opened Limbs

  const WIDTH: nat := 8

  ghost function Modulus(): nat { Pow2(256) }

  lemma ModulusIsWeight()
    ensures Weight(WIDTH) == Modulus() >= 1
  {
  }

  class BaseUint {
    const pn: array<nat>

    ghost predicate Valid()
      reads pn
    {
      pn.Length == WIDTH && AllLimbs(pn[..])
    }

    ghost function Val(): nat
      reads pn
    {
      Value(pn[..])
    }

    constructor (b: nat)
      requires b < 0x1_0000_0000_0000_0000
      ensures Valid() && Val() == b && fresh(pn)
    {
      hide Value, Weight;
      var a := new nat[WIDTH](_ => 0);
      a[0], a[1] := b % BASE, b / BASE;
      LowLimbs(a[..], b);
      pn := a;
    }

    constructor Copy(b: BaseUint)
      requires b.Valid()
      ensures Valid() && pn[..] == b.pn[..] && fresh(pn)
    {
      var a := new nat[WIDTH];
      for i := 0 to WIDTH
        invariant a[..i] == b.pn[..i]
      {
        a[i] := b.pn[i];
      }
      pn := a;
    }

    /** Stays within 256 bits. */
    lemma InRange()
      requires Valid()
      ensures Val() < Modulus()
    {
      ModulusIsWeight();
      ValueBound(pn[..]);
    }

    method Zero()
      requires Valid()
      modifies pn
      ensures Valid() && Val() == 0 && forall i :: 0 <= i < WIDTH ==> pn[i] == 0
    {
      for i := 0 to WIDTH
        invariant forall j :: 0 <= j < i ==> pn[j] == 0
      {
        pn[i] := 0;
      }
      ValueZeros(pn[..]);
    }

    /** `+=`, exact modulo 2^256; the argument may be the number itself. */
    method Add(b: BaseUint)
      requires Valid() && b.Valid()
      modifies pn
      ensures Valid() && Val() == (old(Val()) + old(b.Val())) % Modulus()
    {
      hide Value, Weight, Modulus;
      ghost var was, bs := pn[..], b.pn[..];
      var carry: nat := 0;
      AddStart(was, bs);
      for i := 0 to WIDTH
        invariant Valid() && carry <= 1
        invariant forall j :: i <= j < WIDTH ==> pn[j] == was[j] && b.pn[j] == bs[j]
        invariant Value(pn[..i]) + carry * Weight(i) == Value(was[..i]) + Value(bs[..i])
      {
        var n := carry + pn[i] + b.pn[i];
        ghost var before := pn[..i];
        pn[i] := n % BASE;
        assert pn[..][..i] == before;
        AddStep(was, bs, pn[..], i, carry, n);
        assert pn[..][..i + 1] == pn[..i + 1];
        carry := n / BASE;
      }
      assert pn[..WIDTH] == pn[..] && was[..WIDTH] == was && bs[..WIDTH] == bs;
      InRange();
      ModulusIsWeight();
      Wrapped(Val(), carry, Modulus(), Value(was) + Value(bs));
    }

    /** `~`. */
    method Complemented() returns (r: BaseUint)
      requires Valid()
      ensures r.Valid() && fresh(r) && fresh(r.pn) && r.Val() == Modulus() - 1 - Val()
    {
      hide Value, Weight;
      r := new BaseUint(0);
      for i := 0 to WIDTH
        invariant r.pn.Length == WIDTH && fresh(r.pn) && Valid() && pn[..] == old(pn[..])
        invariant forall j :: 0 <= j < i ==> r.pn[j] == BASE - 1 - pn[j]
      {
        r.pn[i] := BASE - 1 - pn[i];
      }
      assert r.pn[..] == Complement(pn[..]);
      ComplementValue(pn[..]);
      ModulusIsWeight();
    }

    /** `++`. */
    method Increment()
      requires Valid()
      modifies pn
      ensures Valid() && Val() == (old(Val()) + 1) % Modulus()
    {
      hide Value, Weight, Modulus;
      ghost var was := pn[..];
      InRange();
      ModulusIsWeight();
      var i := 0;
      WeightNext(0);
      while i < WIDTH
        invariant i <= WIDTH && Valid()
        invariant Value(pn[..]) + Weight(i) == Value(was) + 1
      {
        ghost var before := pn[..];
        pn[i] := (pn[i] + 1) % BASE;
        IncrementStep(before, i);
        assert pn[..] == before[i := (before[i] + 1) % BASE];
        if pn[i] != 0 {
          InRange();
          Wrapped(Val(), 0, Modulus(), Value(was) + 1);
          return;
        }
        i := i + 1;
      }
      InRange();
      Wrapped(Val(), 1, Modulus(), Value(was) + 1);
    }

    /** Unary `-`. */
    method Negated() returns (r: BaseUint)
      requires Valid()
      ensures r.Valid() && fresh(r) && fresh(r.pn) && r.Val() == (-(Val() as int)) % Modulus()
    {
      hide Value, Weight, Modulus;
      r := Complemented();
      r.Increment();
      ModulusIsWeight();
      InRange();
      NegateArith(Val(), Modulus());
    }

    /** `-=`. */
    method Subtract(b: BaseUint)
      requires Valid() && b.Valid()
      modifies pn
      ensures Valid() && Val() == (old(Val()) - old(b.Val())) % Modulus()
    {
      hide Value, Weight, Modulus;
      var minus := b.Negated();
      ModulusIsWeight();
      SubtractArith(Val(), b.Val(), Modulus());
      Add(minus);
    }

    /** `*=` by 32 bits. */
    method MultiplySmall(b32: nat)
      requires Valid() && b32 < BASE
      modifies pn
      ensures Valid() && Val() == (old(Val()) * b32) % Modulus()
    {
      hide Value, Weight, Modulus;
      ghost var was := pn[..];
      var carry: nat := 0;
      AddStart(was, was);
      for i := 0 to WIDTH
        invariant Valid() && carry < BASE
        invariant forall j :: i <= j < WIDTH ==> pn[j] == was[j]
        invariant Value(pn[..i]) + carry * Weight(i) == b32 * Value(was[..i])
      {
        ColumnFits(carry, 0, b32, pn[i]);
        var n := carry + b32 * pn[i];
        ghost var before := pn[..i];
        pn[i] := n % BASE;
        assert pn[..][..i] == before;
        MulSmallStep(was, pn[..], i, b32, carry, n);
        assert pn[..][..i + 1] == pn[..i + 1];
        carry := n / BASE;
      }
      assert pn[..WIDTH] == pn[..] && was[..WIDTH] == was;
      InRange();
      ModulusIsWeight();
      assert b32 * Value(was) == Value(was) * b32;
      Wrapped(Val(), carry, Modulus(), Value(was) * b32);
    }

    /** `--`. */
    method Decrement()
      requires Valid()
      modifies pn
      ensures Valid() && Val() == (old(Val()) - 1) % Modulus()
    {
      hide Value, Weight, Modulus;
      ghost var was := pn[..];
      InRange();
      ModulusIsWeight();
      var i := 0;
      WeightNext(0);
      while i < WIDTH
        invariant i <= WIDTH && Valid()
        invariant Value(pn[..]) == Value(was) - 1 + Weight(i)
      {
        ghost var before := pn[..];
        pn[i] := if pn[i] == 0 then BASE - 1 else pn[i] - 1;
        DecrementStep(before, i);
        assert pn[..] == before[i := if before[i] == 0 then BASE - 1 else before[i] - 1];
        if pn[i] != BASE - 1 {
          InRange();
          DivUnique(Value(was) - 1, Modulus(), 0, Val());
          return;
        }
        i := i + 1;
      }
      InRange();
      DivUnique(Value(was) - 1, Modulus(), -1, Val());
    }

    /**
     * One row of a product: adds `x` times the low limbs of `b`, shifted by `j` limbs; the carry out of the top is
     * lost.
     */
    method AddRow(x: nat, b: BaseUint, j: nat) returns (ghost carry: nat)
      requires Valid() && b.Valid() && b.pn != pn && x < BASE && j < WIDTH
      modifies pn
      ensures Valid()
      ensures Value(pn[..]) + carry * Modulus() == old(Value(pn[..])) + x * Value(b.pn[..WIDTH - j]) * Weight(j)
    {
      hide Value, Weight, Modulus;
      ghost var total, bs := Value(pn[..]), b.pn[..];
      var c: nat := 0;
      var i := 0;
      AddStart(bs, bs);
      RowStart(x, bs, j);
      while i + j < WIDTH
        invariant Valid() && i + j <= WIDTH && c < BASE && b.pn[..] == bs
        invariant Value(pn[..]) + c * Weight(i + j) == total + x * Value(bs[..i]) * Weight(j)
      {
        ColumnFits(c, pn[i + j], x, b.pn[i]);
        var n: nat := c + pn[i + j] + x * b.pn[i];
        ghost var before := pn[..];
        pn[i + j] := n % BASE;
        assert pn[..] == before[i + j := pn[i + j]];
        MulStep(before, pn[..], x, bs, i, j, c, n, total);
        c := n / BASE;
        i := i + 1;
      }
      carry := c;
      ModulusIsWeight();
      assert bs[..WIDTH - j] == b.pn[..WIDTH - j];
    }

    /** `*=`, exact modulo 2^256; the argument may be the number itself. */
    method Multiply(b: BaseUint)
      requires Valid() && b.Valid()
      modifies pn
      ensures Valid() && Val() == (old(Val()) * old(b.Val())) % Modulus()
    {
      hide Value, Weight, Modulus;
      var a := new BaseUint(0);
      ghost var was, bs := pn[..], b.pn[..];
      ghost var lost: nat := 0;
      AddStart(was, bs);
      for j := 0 to WIDTH
        invariant a.Valid() && fresh(a.pn) && pn[..] == was && b.pn[..] == bs
        invariant Value(a.pn[..]) + lost * Modulus() == Value(was[..j]) * Value(bs)
      {
        ghost var before := Value(a.pn[..]);
        ghost var carry := a.AddRow(pn[j], b, j);
        assert b.pn[..WIDTH - j] == bs[..WIDTH - j];
        lost := RowLost(was, bs, j, before, Value(a.pn[..]), lost, carry);
      }
      assert was[..WIDTH] == was;
      a.InRange();
      Wrapped(a.Val(), lost, Modulus(), Value(was) * Value(bs));
      Assign(a);
    }

    method CompareTo(b: BaseUint) returns (c: int)
      requires Valid() && b.Valid()
      ensures c == if Val() < b.Val() then -1 else if Val() > b.Val() then 1 else 0
    {
      hide Value;
      var i := WIDTH;
      while i > 0
        invariant 0 <= i <= WIDTH && pn[i..] == b.pn[i..]
      {
        i := i - 1;
        if pn[i] < b.pn[i] {
          ValueLess(pn[..], b.pn[..], i);
          return -1;
        }
        if pn[i] > b.pn[i] {
          ValueLess(b.pn[..], pn[..], i);
          return 1;
        }
      }
      assert pn[..] == pn[0..] && b.pn[..] == b.pn[0..];
      c := 0;
    }

    method EqualTo(b: nat) returns (r: bool)
      requires Valid() && b < 0x1_0000_0000_0000_0000
      ensures r <==> Val() == b
    {
      hide Value;
      var i := WIDTH;
      while i > 2
        invariant 2 <= i <= WIDTH && forall j :: i <= j < WIDTH ==> pn[j] == 0
      {
        i := i - 1;
        if pn[i] != 0 {
          HighLimb(pn[..], i);
          return false;
        }
      }
      LowLimbs(pn[..], pn[0] + BASE * pn[1]);
      r := pn[1] == b / BASE && pn[0] == b % BASE;
    }

    /** The value of a number of at most 64 bits. */
    method GetLow64() returns (r: nat)
      requires Valid()
      ensures r == Val() % 0x1_0000_0000_0000_0000
    {
      hide Value, Weight;
      LowTwo(pn[..]);
      r := pn[0] + BASE * pn[1];
    }

    /** The position of the highest bit set plus one. */
    method Bits() returns (r: nat)
      requires Valid()
      ensures r <= 256 && Val() < Pow2(r) && (r > 0 ==> Pow2(r - 1) <= Val()) && (r == 0 <==> Val() == 0)
    {
      hide Value, Pow2, Quotient;
      Pow2Values();
      var pos := WIDTH;
      while pos > 0
        invariant 0 <= pos <= WIDTH && forall i :: pos <= i < WIDTH ==> pn[i] == 0
      {
        pos := pos - 1;
        if pn[pos] != 0 {
          var nbits := 31;
          while nbits > 0
            invariant 0 <= nbits <= 31 && pn[pos] < Pow2(nbits + 1)
          {
            TestBit(pn[pos], nbits);
            if Quotient(pn[pos], Pow2(nbits)) % 2 == 1 {
              BitsBound(pn[..], pos, nbits);
              return 32 * pos + nbits + 1;
            }
            nbits := nbits - 1;
          }
          BitsBound(pn[..], pos, 0);
          return 32 * pos + 1;
        }
      }
      ValueZeros(pn[..]);
      r := 0;
    }

    /** `/=`, the floor quotient; a zero divisor is an error that leaves zero behind. */
    method Divide(b: BaseUint) returns (ok: bool)
      requires Valid() && b.Valid()
      modifies pn
      ensures Valid() && (ok <==> old(b.Val()) != 0)
      ensures Val() == if ok then Quotient(old(Val()), old(b.Val())) else 0
    {
      hide Value, Modulus, Pow2, Or, Quotient, PartlyDivided, Clear;
      var div := new BaseUint.Copy(b);
      var num := new BaseUint.Copy(this);
      ghost var n, d := Val(), b.Val();
      Zero();
      var num_bits := num.Bits();
      var div_bits := div.Bits();
      if div_bits == 0 {
        return false;
      }
      ok := true;
      if div_bits > num_bits {
        TooFewBits(n, d, num_bits, div_bits);
        return;
      }
      var shift := num_bits - div_bits;
      DivideStart(n, d, num_bits, div_bits);
      div.ShiftLeft(shift);
      ClearZero(pn[..], shift);
      DivideBits(num, div, shift, n, d);
      DivideEnd(n, d, Val(), num.Val());
    }

    /** The bits of the quotient, highest first. */
    method DivideBits(num: BaseUint, div: BaseUint, start: nat, ghost n: nat, ghost d: nat)
      requires Valid() && num.Valid() && div.Valid() && pn != num.pn && num.pn != div.pn && pn != div.pn
      requires PartlyDivided(n, d, Val(), num.Val(), start) && div.Val() == d * Pow2(start) && Clear(pn[..], start)
      modifies pn, num.pn, div.pn
      ensures Valid() && num.Valid() && PartlyDivided(n, d, Val(), num.Val(), -1)
    {
      hide Value, Pow2, PartlyDivided, Clear;
      var shift: int := start;
      while shift >= 0
        invariant -1 <= shift <= start && Valid() && num.Valid() && div.Valid()
        invariant PartlyDivided(n, d, Val(), num.Val(), shift)
        invariant shift >= 0 ==> div.Val() == d * Pow2(shift) && Clear(pn[..], shift)
      {
        DivideStep(num, div, shift, n, d);
        shift := shift - 1;
      }
    }

    /** One bit of the quotient. */
    method DivideStep(num: BaseUint, div: BaseUint, shift: nat, ghost n: nat, ghost d: nat)
      requires Valid() && num.Valid() && div.Valid() && pn != num.pn && num.pn != div.pn && pn != div.pn
      requires PartlyDivided(n, d, Val(), num.Val(), shift) && div.Val() == d * Pow2(shift) && Clear(pn[..], shift)
      modifies pn, num.pn, div.pn
      ensures Valid() && num.Valid() && div.Valid() && PartlyDivided(n, d, Val(), num.Val(), shift - 1)
      ensures shift > 0 ==> div.Val() == d * Pow2(shift - 1) && Clear(pn[..], shift - 1)
    {
      hide Value, Modulus, Pow2, Or, Quotient, PartlyDivided, Clear;
      var c := num.CompareTo(div);
      num.InRange();
      DividedStep(n, d, Val(), num.Val(), shift);
      ClearLower(pn[..], shift);
      if c >= 0 {
        DivUnique(num.Val() - div.Val(), Modulus(), 0, num.Val() - div.Val());
        num.Subtract(div);
        ghost var q := SetClearBit(pn[..], shift);
        ClearInRange(pn[..], shift);
        pn[shift / 32] := Or(pn[shift / 32], Pow2(shift % 32));
        assert pn[..] == q;
      }
      div.ShiftRight(1);
      if shift > 0 {
        HalfShift(d, shift);
      }
    }

    method Assign(b: BaseUint)
      requires Valid() && b.Valid()
      modifies pn
      ensures Valid() && pn[..] == old(b.pn[..])
    {
      ghost var bs := b.pn[..];
      for i := 0 to WIDTH
        invariant pn[..i] == bs[..i] && forall j :: i <= j < WIDTH ==> b.pn[j] == bs[j]
      {
        pn[i] := b.pn[i];
      }
      assert bs[..WIDTH] == bs;
    }

    /** `<<=`, modulo 2^256. */
    method ShiftLeft(shift: nat)
      requires Valid()
      modifies pn
      ensures Valid() && Val() == (old(Val()) * Pow2(shift)) % Modulus()
    {
      hide Value, Weight, Modulus, Or, Pow2, Unit;
      var a := new BaseUint.Copy(this);
      ghost var was := pn[..];
      ghost var lost: nat := 0;
      Zero();
      var k, s := shift / 32, shift % 32;
      AddStart(was, was);
      for i := 0 to WIDTH
        invariant Valid() && a.Valid() && fresh(a.pn) && a.pn[..] == was && Shifted(pn[..], i + k, s)
        invariant Value(pn[..]) + lost * Modulus() == Value(was[..i]) * Unit(k, s)
      {
        ghost var before := pn[..];
        ghost var q, more := ShiftLeftStep(before, was[i], i, k, s, lost);
        ShiftLeftTotal(was, i, k, s);
        if i + k + 1 < WIDTH && s != 0 {
          pn[i + k + 1] := Or(pn[i + k + 1], High(a.pn[i], s));
        }
        assert pn[..] == if s != 0 then OrAt(before, i + k + 1, High(was[i], s)) else before;
        if i + k < WIDTH {
          pn[i + k] := Or(pn[i + k], Low(a.pn[i], s));
        }
        assert pn[..] == q;
        lost := more;
        ModulusIsWeight();
      }
      assert was[..WIDTH] == was;
      InRange();
      Wrapped(Val(), lost, Modulus(), Value(was) * Unit(k, s));
      ShiftIs(shift);
    }

    /** `>>=`. */
    method ShiftRight(shift: nat)
      requires Valid()
      modifies pn
      ensures Valid() && Val() == Quotient(old(Val()), Pow2(shift))
    {
      hide Value, Weight, Modulus, Or, Pow2, Unit, Quotient;
      var a := new BaseUint.Copy(this);
      ghost var was := pn[..];
      Zero();
      var k, s := shift / 32, shift % 32;
      ShiftRightStart(was, pn[..], k, s);
      for i := 0 to WIDTH
        invariant Valid() && a.Valid() && fresh(a.pn) && a.pn[..] == was && Moved(was, pn[..], i, k, s)
      {
        ghost var before := pn[..];
        if i - k - 1 >= 0 && s != 0 {
          pn[i - k - 1] := Or(pn[i - k - 1], Low(a.pn[i], 32 - s));
        }
        assert pn[..] == if s != 0 then OrAt(before, i - k - 1, Low(was[i], 32 - s)) else before;
        if i - k >= 0 {
          pn[i - k] := Or(pn[i - k], High(a.pn[i], 32 - s));
        }
        assert pn[..] == OrAt(if s != 0 then OrAt(before, i - k - 1, Low(was[i], 32 - s)) else before,
                              i - k, High(was[i], 32 - s));
        MovedStep(was, before, pn[..], i, k, s);
      }
      MovedEnd(was, pn[..], k, s);
      ShiftIs(shift);
    }
  }

  lemma LowLimbs(a: seq<nat>, b: nat)
    requires |a| == WIDTH && a[0] == b % BASE && a[1] == b / BASE && b < BASE * BASE
    requires forall i :: 2 <= i < WIDTH ==> a[i] == 0
    ensures AllLimbs(a) && Value(a) == b
  {
    hide Value, Weight;
    ValueSplit(a, 2);
    ValueZeros(a[2..]);
    ValueTake(a, 0);
    ValueTake(a, 1);
    ValueZeros(a[..0]);
    WeightNext(0);
  }

  lemma AddStart(was: seq<nat>, bs: seq<nat>)
    ensures Value(was[..0]) == 0 && Value(bs[..0]) == 0
  {
  }

  lemma IncrementStep(s: seq<nat>, i: nat)
    requires i < |s| && s[i] < BASE
    ensures var q := s[i := (s[i] + 1) % BASE];
            Value(q) + (if q[i] == 0 then Weight(i + 1) else 0) == Value(s) + Weight(i)
  {
    hide Value, Weight;
    var x := (s[i] + 1) % BASE;
    ValueUpdate(s, i, x);
    WeightNext(i);
    Spread(s[i], 1, 0, Weight(i));
  }

  lemma NegateArith(v: int, m: nat)
    requires 0 <= v < m
    ensures (m - 1 - v + 1) % m == (-v) % m
  {
    if v == 0 {
      DivUnique(m, m, 1, 0);
    } else {
      DivUnique(m - v, m, 0, m - v);
      DivUnique(-v, m, -1, m - v);
    }
  }

  lemma SubtractArith(v: int, b: int, m: nat)
    requires m >= 1
    ensures (v + (-b) % m) % m == (v - b) % m
  {
    AddModulo(v, -b, m);
  }

  lemma AddModulo(x: int, y: int, m: nat)
    requires m >= 1
    ensures (x + y % m) % m == (x + y) % m
  {
    var q, r := y / m, y % m;
    var p, s := (x + r) / m, (x + r) % m;
    assert x + y == (p + q) * m + s by { assert (p + q) * m == p * m + q * m; }
    DivUnique(x + y, m, p + q, s);
  }

  lemma MulSmallStep(was: seq<nat>, s: seq<nat>, i: nat, b: nat, carry: nat, n: nat)
    requires i < |was| == |s| && n == carry + b * was[i] && s[i] == n % BASE
    requires Value(s[..i]) + carry * Weight(i) == b * Value(was[..i])
    ensures Value(s[..i + 1]) + (n / BASE) * Weight(i + 1) == b * Value(was[..i + 1])
  {
    hide Value, Weight;
    ValueTake(s, i);
    ValueTake(was, i);
    WeightNext(i);
    Carry(n, Weight(i));
    Spread(carry, b * was[i], 0, Weight(i));
    assert b * (Value(was[..i]) + was[i] * Weight(i)) == b * Value(was[..i]) + (b * was[i]) * Weight(i) by {
      Distribute(b, Value(was[..i]), was[i], Weight(i), 1);
    }
  }

  lemma ShiftIs(shift: nat)
    ensures Unit(shift / 32, shift % 32) == Pow2(shift)
  {
  }

  lemma DecrementStep(s: seq<nat>, i: nat)
    requires i < |s| && s[i] < BASE
    ensures var q := s[i := if s[i] == 0 then BASE - 1 else s[i] - 1];
            Value(q) == Value(s) - Weight(i) + if q[i] == BASE - 1 then Weight(i + 1) else 0
  {
    hide Value, Weight;
    var x := if s[i] == 0 then BASE - 1 else s[i] - 1;
    ValueUpdate(s, i, x);
    WeightNext(i);
    Spread(x, 1, 0, Weight(i));
  }

  lemma RowStart(x: nat, bs: seq<nat>, j: nat)
    ensures x * Value(bs[..0]) * Weight(j) == 0
  {
    hide Weight;
    assert Value(bs[..0]) == 0;
  }

  /** The limbs of `b` that a row leaves out, and its carry, only matter beyond 2^256. */
  lemma RowLost(was: seq<nat>, bs: seq<nat>, j: nat, before: nat, after: nat, lost: nat, carry: nat) returns (more: nat)
    requires |was| == |bs| == WIDTH && j < WIDTH
    requires before + lost * Modulus() == Value(was[..j]) * Value(bs)
    requires after + carry * Modulus() == before + was[j] * Value(bs[..WIDTH - j]) * Weight(j)
    ensures after + more * Modulus() == Value(was[..j + 1]) * Value(bs)
  {
    hide Value, Weight, Modulus;
    var x, low, high, m := was[j], Value(bs[..WIDTH - j]), Value(bs[WIDTH - j..]), Modulus();
    ValueTake(was, j);
    ValueSplit(bs, WIDTH - j);
    WeightAdd(WIDTH - j, j);
    ModulusIsWeight();
    more := lost + carry + x * high;
    Spread(lost, carry, x * high, m);
    RowArith(Value(was[..j]), x, Weight(j), low, Weight(WIDTH - j), high, m);
  }

  lemma RowArith(v: int, x: int, w: int, low: int, u: int, high: int, m: int)
    requires u * w == m
    ensures (v + x * w) * (low + u * high) == v * (low + u * high) + x * low * w + (x * high) * m
  {
    var b := low + u * high;
    assert (v + x * w) * b == v * b + (x * w) * b;
    assert (x * w) * (low + u * high) == (x * w) * low + (x * w) * (u * high);
    assert (x * w) * low == x * low * w;
    assert (x * w) * (u * high) == (x * high) * (u * w);
  }

  /** The state of a right shift after `i` limbs: `r` is the quotient of what has been read. */
  ghost predicate Moved(was: seq<nat>, r: seq<nat>, i: nat, k: nat, s: nat)
    requires i <= |was| && s < 32
  {
    && AllLimbs(r) && Shifted(r, i - k - 1, 32 - s)
    && Value(r) * Unit(k, s) <= Value(was[..i]) < Value(r) * Unit(k, s) + Unit(k, s)
  }

  lemma ShiftRightStart(was: seq<nat>, r: seq<nat>, k: nat, s: nat)
    requires s < 32 && forall j :: 0 <= j < |r| ==> r[j] == 0
    ensures Moved(was, r, 0, k, s)
  {
    hide Weight, Pow2, Unit;
    UnitIs(k, s);
    ValueZeros(r);
  }

  lemma AllZero(r: seq<nat>, i: int, s: nat)
    requires Shifted(r, i, s) && i < 0
    ensures Value(r) == 0 && forall j :: 0 <= j < |r| ==> r[j] == 0
  {
    hide Value, Pow2;
    ValueZeros(r);
  }

  lemma MovedStep(was: seq<nat>, r: seq<nat>, q: seq<nat>, i: nat, k: nat, s: nat)
    requires i < |was| == |r| == |q| && s < 32 && was[i] < BASE && AllLimbs(was) && Moved(was, r, i, k, s)
    requires q == OrAt(if s != 0 then OrAt(r, i - k - 1, Low(was[i], 32 - s)) else r, i - k, High(was[i], 32 - s))
    ensures Moved(was, q, i + 1, k, s)
  {
    hide Value, Weight, Pow2, Unit, Or, Low, High, Shifted;
    var x := was[i];
    if i < k {
      AllZero(r, i - k - 1, 32 - s);
      StillZero(r, i - k, 32 - s);
      ValueBound(was[..i + 1]);
      UnitIs(k, s);
      WeightMonotone(i + 1, k);
      MulMonotone(1, Pow2(s), Weight(k));
    } else if i == k {
      AllZero(r, i - k - 1, 32 - s);
      FirstLimb(r, q, x, s);
      ValueTake(was, k);
      ValueBound(was[..k]);
      UnitIs(k, s);
      FirstArith(x, High(x, 32 - s), Pow2(s), Weight(k), Value(was[..k]));
    } else {
      var p := ShiftRightStep(r, x, i, k, s);
      ValueTake(was, i);
    }
  }

  lemma StillZero(r: seq<nat>, i: int, s: nat)
    requires forall j :: 0 <= j < |r| ==> r[j] == 0
    ensures Shifted(r, i, s)
  {
  }

  lemma WeightMonotone(i: nat, j: nat)
    requires i <= j
    ensures Weight(i) <= Weight(j)
  {
    Pow2Monotone(32 * i, 32 * j);
  }

  lemma FirstLimb(r: seq<nat>, q: seq<nat>, x: nat, s: nat)
    requires 0 < |r| == |q| && s < 32 && x < BASE && (forall j :: 0 <= j < |r| ==> r[j] == 0)
    requires q == OrAt(r, 0, High(x, 32 - s))
    ensures AllLimbs(q) && Shifted(q, 0, 32 - s) && Value(q) == High(x, 32 - s)
    ensures High(x, 32 - s) * Pow2(s) <= x < High(x, 32 - s) * Pow2(s) + Pow2(s)
  {
    hide Value, Weight, Pow2, Or;
    HighBits(x, s);
    OrZero(High(x, 32 - s));
    ValueZeros(r);
    ValueUpdate(r, 0, High(x, 32 - s));
    WeightNext(0);
  }

  lemma FirstArith(x: nat, h: nat, p: nat, w: nat, v: nat)
    requires h * p <= x < h * p + p && v < w
    ensures h * (p * w) <= v + x * w < h * (p * w) + p * w
  {
    MulAssociates(h, p, w);
    MulMonotone(h * p, x, w);
    MulMonotone(x + 1, h * p + p, w);
    Spread(x, 1, 0, w);
    Spread(h * p, p, 0, w);
  }

  lemma MovedEnd(was: seq<nat>, r: seq<nat>, k: nat, s: nat)
    requires |was| == WIDTH && s < 32 && Moved(was, r, WIDTH, k, s)
    ensures Value(r) == Quotient(Value(was), Unit(k, s))
  {
    hide Value, Weight, Pow2, Unit;
    assert was[..WIDTH] == was;
    DivUnique(Value(was), Unit(k, s), Value(r), Value(was) - Value(r) * Unit(k, s));
  }

  lemma TestBit(x: nat, n: nat)
    requires x < Pow2(n + 1)
    ensures Quotient(x, Pow2(n)) % 2 == 1 <==> Pow2(n) <= x
  {
    hide Pow2;
    PowDouble(n);
    var q := Quotient(x, Pow2(n));
    if q >= 2 {
      MulMonotone(2, q, Pow2(n));
    }
    if q == 0 {
      assert q * Pow2(n) == 0;
    }
  }

  lemma QuotientIs(n: nat, d: nat, q: nat, r: nat)
    requires d > 0 && q * d + r == n && r < d
    ensures Quotient(n, d) == q
  {
    DivUnique(n, d, q, r);
  }

  /** Aligning the divisor with the number brings it above half of it, without leaving the number's bits. */
  lemma Aligned(n: nat, d: nat, nb: nat, db: nat)
    requires 0 < db <= nb && n < Pow2(nb) && Pow2(db - 1) <= d < Pow2(db)
    ensures n < d * Pow2(nb - db + 1) && d * Pow2(nb - db) < Pow2(nb)
  {
    hide Pow2;
    Pow2Add(db - 1, nb - db + 1);
    MulMonotone(Pow2(db - 1), d, Pow2(nb - db + 1));
    Pow2Add(db, nb - db);
    MulMonotone(d + 1, Pow2(db), Pow2(nb - db));
    Spread(d, 1, 0, Pow2(nb - db));
  }

  lemma TooFewBits(n: nat, d: nat, nb: nat, db: nat)
    requires nb < db && n < Pow2(nb) && Pow2(db - 1) <= d
    ensures d > 0 && Quotient(n, d) == 0
  {
    hide Pow2, Quotient;
    Pow2Monotone(nb, db - 1);
    QuotientIs(n, d, 0, n);
  }

  lemma DivideStart(n: nat, d: nat, nb: nat, db: nat)
    requires 0 < db <= nb <= 256 && n < Pow2(nb) && Pow2(db - 1) <= d < Pow2(db)
    ensures PartlyDivided(n, d, 0, n, nb - db)
    ensures 0 <= d * Pow2(nb - db) && d * Pow2(nb - db) % Modulus() == d * Pow2(nb - db)
  {
    hide Pow2, Modulus;
    Aligned(n, d, nb, db);
    MulMonotone(0, d, Pow2(nb - db));
    StaysSmall(d * Pow2(nb - db), nb);
  }

  lemma DivideEnd(n: nat, d: nat, quotient: nat, rest: nat)
    requires d > 0 && PartlyDivided(n, d, quotient, rest, -1)
    ensures Quotient(n, d) == quotient
  {
    hide Quotient;
    Pow2Values();
    QuotientIs(n, d, quotient, rest);
  }

  lemma StaysSmall(v: nat, bits: nat)
    requires v < Pow2(bits) && bits <= 256
    ensures v % Modulus() == v
  {
    hide Pow2;
    Pow2Monotone(bits, 256);
    DivUnique(v, Modulus(), 0, v);
  }

  lemma ClearZero(s: seq<nat>, shift: nat)
    requires |s| == WIDTH && shift < 256 && forall i :: 0 <= i < |s| ==> s[i] == 0
    ensures Clear(s, shift)
  {
    hide Pow2;
    DivUnique(0, Pow2(shift % 32 + 1), 0, 0);
  }

  lemma HalfShift(d: nat, shift: nat)
    requires shift > 0
    ensures Quotient(d * Pow2(shift), Pow2(1)) == d * Pow2(shift - 1)
  {
    hide Pow2;
    Pow2Values();
    PowDouble(shift - 1);
    assert d * (2 * Pow2(shift - 1)) == (d * Pow2(shift - 1)) * 2;
    DivUnique(d * Pow2(shift), 2, d * Pow2(shift - 1), 0);
  }

  lemma ClearInRange(s: seq<nat>, shift: nat)
    requires Clear(s, shift)
    ensures shift / 32 < |s|
  {
  }

  /** The schoolbook invariant: quotient so far, rest, and how large the rest may still be. */
  ghost predicate PartlyDivided(n: nat, d: nat, quotient: nat, rest: nat, shift: int)
    requires -1 <= shift
  {
    quotient * d + rest == n && rest < d * Pow2(shift + 1)
  }

  lemma DividedStep(n: nat, d: nat, quotient: nat, rest: nat, shift: nat)
    requires PartlyDivided(n, d, quotient, rest, shift)
    ensures rest < d * Pow2(shift) ==> PartlyDivided(n, d, quotient, rest, shift - 1)
    ensures rest >= d * Pow2(shift) ==> PartlyDivided(n, d, quotient + Pow2(shift), rest - d * Pow2(shift), shift - 1)
  {
    hide Pow2;
    PowDouble(shift);
    assert d * Pow2(shift + 1) == 2 * (d * Pow2(shift));
    Spread(quotient, Pow2(shift), 0, d);
  }

  /** A number with a limb above the second is above 64 bits. */
  lemma HighLimb(s: seq<nat>, i: nat)
    requires 2 <= i < |s| && s[i] != 0
    ensures Value(s) >= BASE * BASE
  {
    hide Value, Weight;
    ValueSplit(s, i + 1);
    ValueTake(s, i);
    MulMonotone(1, s[i], Weight(i));
    WeightMonotone(2, i);
    WeightNext(0);
    WeightNext(1);
    MulMonotone(0, Value(s[i + 1..]), Weight(i + 1));
    assert Weight(i + 1) * Value(s[i + 1..]) == Value(s[i + 1..]) * Weight(i + 1);
  }

  lemma LowTwo(s: seq<nat>)
    requires 2 <= |s| && AllLimbs(s)
    ensures Value(s) % (BASE * BASE) == s[0] + BASE * s[1]
  {
    hide Value, Weight;
    ValueSplit(s, 2);
    ValueTake(s, 0);
    ValueTake(s, 1);
    ValueZeros(s[..0]);
    WeightNext(0);
    WeightNext(1);
    var h := Value(s[2..]);
    assert Weight(2) * h == h * (BASE * BASE);
    DivUnique(Value(s), BASE * BASE, h, s[0] + BASE * s[1]);
  }
}
