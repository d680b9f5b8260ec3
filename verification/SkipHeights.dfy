/** The heights that the skip list of `CBlockIndex` visits, and how many of them a walk takes. */
module SkipHeights {
  import opened Numbers

  // ----- Skip heights -----

  /** Clears the lowest 1 bit. */
  function InvertLowestOne(n: nat): (r: nat)
    ensures n > 0 ==> r < n
    ensures n == 0 ==> r == 0
  {
    if n == 0 then 0 else if n % 2 == 1 then n - 1 else 2 * InvertLowestOne(n / 2)
  }

  /** `x & y`. */
  function And(x: nat, y: nat): nat
    decreases x
  {
    if x == 0 then 0 else 2 * And(x / 2, y / 2) + if x % 2 == 1 && y % 2 == 1 then 1 else 0
  }

  lemma {:induction false} AndSelf(x: nat)
    ensures And(x, x) == x
  {
    if x > 0 {
      AndSelf(x / 2);
    }
  }

  /** The bit trick `n & (n - 1)` does it. */
  lemma {:induction false} InvertIsAnd(n: nat)
    requires n > 0
    ensures InvertLowestOne(n) == And(n, n - 1)
  {
    if n % 2 == 1 {
      AndSelf(n / 2);
      assert (n - 1) / 2 == n / 2;
    } else {
      InvertIsAnd(n / 2);
      assert (n - 1) / 2 == n / 2 - 1;
    }
  }

  function GetSkipHeight(height: nat): (r: nat)
    ensures height > 0 ==> r < height
  {
    if height < 2 then 0
    else if height % 2 == 1 then InvertLowestOne(InvertLowestOne(height - 1)) + 1
    else InvertLowestOne(height)
  }

  // ----- Walks -----

  /** Whether a walk from `w` to `t` follows the skip pointer. */
  predicate Skips(w: nat, t: nat)
    requires t < w
  {
    var heightSkip, heightSkipPrev := GetSkipHeight(w), GetSkipHeight(w - 1);
    heightSkip == t || (heightSkip > t && !(heightSkipPrev < heightSkip - 2 && heightSkipPrev >= t))
  }

  function NextHeight(w: nat, t: nat): (r: nat)
    requires t < w
    ensures t <= r < w
  {
    if Skips(w, t) then GetSkipHeight(w) else w - 1
  }

  /** The number of pointers that a walk follows. */
  function Steps(w: nat, t: nat): nat
    requires t <= w
    decreases w
  {
    if w == t then 0 else 1 + Steps(NextHeight(w, t), t)
  }

  lemma OneStep(w: nat, t: nat)
    requires t < w
    ensures Steps(w, t) == 1 + if Skips(w, t) then Steps(GetSkipHeight(w), t) else Steps(w - 1, t)
  {
    hide GetSkipHeight;
  }

  lemma {:induction false} StepsAtMost(w: nat, t: nat)
    requires t <= w
    ensures Steps(w, t) <= w - t
    decreases w
  {
    hide NextHeight;
    if t < w {
      StepsAtMost(NextHeight(w, t), t);
    }
  }

  // ----- Bits -----

  lemma InvertDouble(n: nat)
    ensures InvertLowestOne(2 * n) == 2 * InvertLowestOne(n)
  {
    assert 2 * n / 2 == n;
  }

  lemma InvertOdd(n: nat)
    ensures InvertLowestOne(2 * n + 1) == 2 * n
  {
  }

  /** The number of 1 bits. */
  function Ones(n: nat): nat {
    if n == 0 then 0 else 1 + Ones(InvertLowestOne(n))
  }

  lemma {:induction false} OnesDouble(n: nat)
    ensures Ones(2 * n) == Ones(n)
  {
    hide InvertLowestOne;
    if n > 0 {
      InvertDouble(n);
      OnesDouble(InvertLowestOne(n));
    }
  }

  lemma OnesOdd(n: nat)
    ensures Ones(2 * n + 1) == 1 + Ones(n)
  {
    hide InvertLowestOne;
    InvertOdd(n);
    OnesDouble(n);
  }

  lemma PowSucc(j: nat)
    requires j >= 1
    ensures Pow2(j) == 2 * Pow2(j - 1)
  {
  }

  lemma {:induction false} OnesBound(n: nat, j: nat)
    requires n < Pow2(j)
    ensures Ones(n) <= j
    decreases j
  {
    hide Ones, InvertLowestOne, Pow2;
    var h := n / 2;
    if j == 0 {
      Pow2Values();
      assert Ones(0) == 0 by { NoOnes(); }
    } else {
      PowSucc(j);
      OnesBound(h, j - 1);
      OnesDouble(h);
      OnesOdd(h);
      assert n == 2 * h || n == 2 * h + 1;
    }
  }

  lemma NoOnes()
    ensures Ones(0) == 0
  {
  }

  // ----- One level -----

  /** Where bit `j` is set and all below are clear, and where bit `j` is clear too. */
  function Upper(a: nat, j: nat): nat { (2 * a + 1) * Pow2(j) }

  function Lower(a: nat, j: nat): nat { 2 * (a * Pow2(j)) }

  lemma UpperDouble(a: nat, j: nat)
    requires j >= 1
    ensures Upper(a, j) == 2 * Upper(a, j - 1) && Lower(a, j) == 2 * Lower(a, j - 1)
  {
    hide Pow2;
    PowSucc(j);
    MulAssociates(2 * a + 1, 2, Pow2(j - 1));
    MulAssociates(2, 2 * a + 1, Pow2(j - 1));
    MulAssociates(a, 2, Pow2(j - 1));
    MulAssociates(2, a, Pow2(j - 1));
  }

  lemma UpperIs(a: nat, j: nat)
    ensures Upper(a, j) == Lower(a, j) + Pow2(j)
  {
    hide Pow2;
    MulAssociates(2, a, Pow2(j));
    assert (2 * a + 1) * Pow2(j) == (2 * a) * Pow2(j) + Pow2(j);
  }

  /** Clearing the foot's own bit. */
  lemma {:induction false} InvertFoot(a: nat, j: nat)
    ensures InvertLowestOne(Upper(a, j)) == Lower(a, j)
    decreases j
  {
    hide Pow2, InvertLowestOne, Upper, Lower;
    if j == 0 {
      BottomLevel(a);
      InvertOdd(a);
    } else {
      UpperDouble(a, j);
      InvertFoot(a, j - 1);
      InvertDouble(Upper(a, j - 1));
    }
  }

  lemma BottomLevel(a: nat)
    ensures Upper(a, 0) == 2 * a + 1 && Lower(a, 0) == 2 * a
  {
    Pow2Values();
  }

  /** Clearing a bit below it. */
  lemma {:induction false} InvertUp(a: nat, j: nat, x: nat)
    requires 0 < x < Pow2(j)
    ensures InvertLowestOne(Upper(a, j) + x) == Upper(a, j) + InvertLowestOne(x)
    decreases j
  {
    hide Pow2, InvertLowestOne, Upper, Lower;
    var h := x / 2;
    if j == 0 {
      Pow2Values();
    } else {
      PowSucc(j);
      UpperDouble(a, j);
      var b := Upper(a, j - 1);
      if x == 2 * h {
        InvertUp(a, j - 1, h);
        InvertDouble(b + h);
        InvertDouble(h);
      } else {
        InvertOdd(b + h);
        InvertOdd(h);
        assert x == 2 * h + 1;
      }
    }
  }

  lemma InvertEven(n: nat)
    requires n > 0
    ensures InvertLowestOne(2 * n) + 1 < 2 * n
  {
    InvertDouble(n);
  }

  /** What lies below the level. */
  lemma BelowLevel(a: nat, j: nat)
    ensures Lower(a, j) > 0 ==> InvertLowestOne(Lower(a, j)) + 1 < Lower(a, j)
    ensures Lower(a, j) == 0 ==> InvertLowestOne(Lower(a, j)) == 0
  {
    hide InvertLowestOne, Pow2;
    if Lower(a, j) > 0 {
      InvertEven(a * Pow2(j));
    }
  }

  lemma EvenSkip(n: nat)
    requires n > 0
    ensures GetSkipHeight(2 * n) == InvertLowestOne(2 * n)
  {
    hide InvertLowestOne;
  }

  lemma OddSkip(n: nat)
    requires n > 0
    ensures GetSkipHeight(2 * n + 1) == InvertLowestOne(InvertLowestOne(2 * n)) + 1
  {
    hide InvertLowestOne;
  }

  /** Skips within a level: from an even place, from its foot, and from an odd place. */
  lemma SkipEven(a: nat, j: nat, e: nat)
    requires j >= 1 && 0 < 2 * e < Pow2(j)
    ensures GetSkipHeight(Upper(a, j) + 2 * e) == Upper(a, j) + 2 * InvertLowestOne(e)
  {
    hide Pow2, Upper, Lower, InvertLowestOne, GetSkipHeight;
    UpperDouble(a, j);
    EvenSkip(Upper(a, j - 1) + e);
    InvertUp(a, j, 2 * e);
    InvertDouble(e);
  }

  lemma SkipFoot(a: nat, j: nat)
    requires j >= 1
    ensures GetSkipHeight(Upper(a, j)) == Lower(a, j)
  {
    hide Pow2, Upper, Lower, InvertLowestOne, GetSkipHeight;
    UpperDouble(a, j);
    UpperIs(a, j);
    EvenSkip(Upper(a, j - 1));
    InvertFoot(a, j);
  }

  lemma SkipOdd(a: nat, j: nat, e: nat)
    requires j >= 1 && 2 * e < Pow2(j)
    ensures GetSkipHeight(Upper(a, j) + 2 * e + 1) ==
              (if e == 0 then InvertLowestOne(Lower(a, j))
               else if InvertLowestOne(e) == 0 then Lower(a, j)
               else Upper(a, j) + 2 * InvertLowestOne(InvertLowestOne(e))) + 1
  {
    hide Pow2, Upper, Lower, InvertLowestOne, GetSkipHeight;
    UpperDouble(a, j);
    UpperIs(a, j);
    OddSkip(Upper(a, j - 1) + e);
    InvertFoot(a, j);
    if e > 0 {
      InvertUp(a, j, 2 * e);
      InvertDouble(e);
      var f := InvertLowestOne(e);
      InvertDouble(f);
      if f > 0 {
        InvertUp(a, j, 2 * f);
      }
    }
  }

  /** From the foot of a level one step leads to the goal or out of the level. */
  lemma FromFoot(a: nat, j: nat, t: nat)
    requires Lower(a, j) <= t < Upper(a, j)
    ensures Steps(Upper(a, j), t) <= 1 + Steps(Upper(a, j) - 1, t)
  {
    hide GetSkipHeight, InvertLowestOne, Upper, Lower;
    if j >= 1 {
      SkipFoot(a, j);
    } else {
      BottomLevel(a);
      StepsAtMost(Upper(a, j), t);
    }
  }

  /** From the place above it, and from places with one more bit. */
  lemma FromFirst(a: nat, j: nat, t: nat)
    requires j >= 1 && Lower(a, j) <= t < Upper(a, j)
    ensures Steps(Upper(a, j) + 1, t) <= 2 + Steps(Upper(a, j) - 1, t)
  {
    hide Pow2, Upper, Lower, InvertLowestOne, GetSkipHeight;
    BelowLevel(a, j);
    SkipOdd(a, j, 0);
    if Skips(Upper(a, j) + 1, t) {
      StepsAtMost(1, t);
    } else {
      FromFoot(a, j, t);
    }
  }

  lemma FromSingle(a: nat, j: nat, e: nat, t: nat)
    requires j >= 1 && 0 < 2 * e < Pow2(j) && InvertLowestOne(e) == 0 && Lower(a, j) + 1 < t < Upper(a, j)
    ensures Steps(Upper(a, j) + 2 * e, t) <= 2 + Steps(Upper(a, j) - 1, t)
  {
    hide Pow2, Upper, Lower, InvertLowestOne, GetSkipHeight;
    BelowLevel(a, j);
    SkipEven(a, j, e);
    SkipOdd(a, j, e - 1);
    assert NextHeight(Upper(a, j) + 2 * e, t) == Upper(a, j);
    FromFoot(a, j, t);
  }

  lemma FromOneBit(a: nat, j: nat, e: nat, t: nat)
    requires j >= 1 && 0 < 2 * e < Pow2(j) && InvertLowestOne(e) == 0 && Lower(a, j) <= t < Upper(a, j)
    ensures Steps(Upper(a, j) + 2 * e + 1, t) <= 3 + Steps(Upper(a, j) - 1, t)
    ensures t <= Lower(a, j) + 1 ==> Steps(Upper(a, j) + 2 * e + 1, t) <= 2
  {
    hide Pow2, Upper, Lower, InvertLowestOne, GetSkipHeight;
    SkipOdd(a, j, e);
    SkipEven(a, j, e);
    var b, c := Upper(a, j), Lower(a, j);
    if t <= c + 1 {
      assert NextHeight(b + 2 * e + 1, t) == c + 1;
      StepsAtMost(c + 1, t);
    } else {
      assert NextHeight(b + 2 * e + 1, t) == b + 2 * e;
      FromSingle(a, j, e, t);
    }
  }

  /** From an odd place two bits go with each step. */
  lemma {:induction false} FromOdd(a: nat, j: nat, e: nat, t: nat)
    requires j >= 1 && 2 * e < Pow2(j) && Lower(a, j) <= t < Upper(a, j)
    ensures Steps(Upper(a, j) + 2 * e + 1, t) <= (Ones(e) + 1) / 2 + 2 + Steps(Upper(a, j) - 1, t)
    decreases e
  {
    hide Pow2, Upper, Lower, InvertLowestOne, GetSkipHeight;
    var b := Upper(a, j);
    if e == 0 {
      FromFirst(a, j, t);
    } else if InvertLowestOne(e) == 0 {
      FromOneBit(a, j, e, t);
    } else {
      var f := InvertLowestOne(e);
      SkipOdd(a, j, e);
      SkipEven(a, j, e);
      assert NextHeight(b + 2 * e + 1, t) == b + 2 * InvertLowestOne(f) + 1;
      FromOdd(a, j, InvertLowestOne(f), t);
    }
  }

  lemma InvertQuad(n: nat)
    ensures InvertLowestOne(4 * n) == 4 * InvertLowestOne(n)
  {
    hide InvertLowestOne;
    InvertDouble(2 * n);
    InvertDouble(n);
  }

  /** From a multiple of eight one bit goes with each step. */
  lemma {:induction false} FromHigh(a: nat, j: nat, h: nat, t: nat)
    requires j >= 1 && 8 * h < Pow2(j) && Lower(a, j) <= t < Upper(a, j)
    ensures Steps(Upper(a, j) + 8 * h, t) <= Ones(h) + 1 + Steps(Upper(a, j) - 1, t)
    decreases h
  {
    hide Pow2, Upper, Lower, InvertLowestOne, GetSkipHeight;
    var b := Upper(a, j);
    if h == 0 {
      FromFoot(a, j, t);
    } else {
      SkipEven(a, j, 4 * h);
      InvertQuad(h);
      SkipOdd(a, j, 4 * h - 1);
      InvertOdd(2 * h - 1);
      InvertDouble(2 * h - 1);
      InvertOdd(h - 1);
      assert GetSkipHeight(b + 8 * h - 1) == b + 8 * h - 7;
      assert NextHeight(b + 8 * h, t) == b + 8 * InvertLowestOne(h);
      FromHigh(a, j, InvertLowestOne(h), t);
    }
  }

  lemma TwoSkips(a: nat, j: nat, g: nat)
    requires j >= 2 && 4 * g + 2 < Pow2(j)
    ensures var b, c := Upper(a, j), Lower(a, j);
            && GetSkipHeight(b + 4 * g + 2) == b + 4 * g
            && GetSkipHeight(b + 4 * g + 1) ==
                 (if g == 0 then InvertLowestOne(c) else if InvertLowestOne(g) == 0 then c
                  else b + 4 * InvertLowestOne(InvertLowestOne(g))) + 1
  {
    hide Pow2, Upper, Lower, InvertLowestOne, GetSkipHeight;
    InvertOdd(g);
    InvertDouble(g);
    SkipEven(a, j, 2 * g + 1);
    SkipOdd(a, j, 2 * g);
    InvertDouble(InvertLowestOne(g));
  }

  /** From any other even place the odd place below is as good, or only one bit is left. */
  lemma FromTwo(a: nat, j: nat, g: nat, t: nat)
    requires j >= 2 && 4 * g + 2 < Pow2(j) && Lower(a, j) <= t < Upper(a, j)
    ensures Steps(Upper(a, j) + 4 * g + 2, t) <= j / 2 + 3 + Steps(Upper(a, j) - 1, t)
  {
    hide Pow2, Upper, Lower, InvertLowestOne, GetSkipHeight, Ones, Steps;
    var w := Upper(a, j) + 4 * g + 2;
    PowSucc(j);
    PowSucc(j - 1);
    UpperIs(a, j);
    TwoSkips(a, j, g);
    OneStep(w, t);
    if !Skips(w, t) {
      OnesDouble(g);
      OnesBound(g, j - 2);
      FromOdd(a, j, 2 * g, t);
    } else if g == 0 {
      FromFoot(a, j, t);
    } else {
      InvertDouble(g);
      FromSingle(a, j, 2 * g, t);
    }
  }

  lemma FromFour(a: nat, j: nat, h: nat, t: nat)
    requires j >= 3 && 8 * h + 4 < Pow2(j) && Lower(a, j) <= t < Upper(a, j)
    ensures Steps(Upper(a, j) + 8 * h + 4, t) <= j / 2 + 3 + Steps(Upper(a, j) - 1, t)
  {
    hide Pow2, Upper, Lower, InvertLowestOne, GetSkipHeight, Ones, Steps;
    var w := Upper(a, j) + 8 * h + 4;
    PowSucc(j);
    PowSucc(j - 1);
    PowSucc(j - 2);
    InvertDouble(2 * h + 1);
    InvertOdd(h);
    InvertOdd(2 * h);
    InvertQuad(h);
    SkipEven(a, j, 4 * h + 2);
    SkipOdd(a, j, 4 * h + 1);
    OneStep(w, t);
    if !Skips(w, t) {
      OnesOdd(2 * h);
      OnesDouble(h);
      OnesBound(h, j - 3);
      FromOdd(a, j, 4 * h + 1, t);
    } else {
      FromFoot(a, j, t);
    }
  }

  // ----- Whole walks -----

  /** The cost of a level entered anywhere, and of all levels below one entered at its top. */
  function LevelCost(j: nat): nat { Max(j / 2 + 3, if j < 2 then 0 else j - 2) }

  function FromTop(k: nat): nat {
    if k < 3 then k else if k == 3 then 4 else FromTop(k - 1) + (k - 1) / 2 + 2
  }

  lemma FromAnywhere(a: nat, j: nat, x: nat, t: nat)
    requires x < Pow2(j) && Lower(a, j) <= t < Upper(a, j)
    ensures Steps(Upper(a, j) + x, t) <= LevelCost(j) + Steps(Upper(a, j) - 1, t)
  {
    hide Pow2, Upper, Lower, Steps, Ones;
    Pow2Values();
    var e, g, h := x / 2, x / 4, x / 8;
    if x == 0 {
      FromFoot(a, j, t);
    } else if x == 2 * e + 1 {
      PowSucc(j);
      OnesBound(e, j - 1);
      FromOdd(a, j, e, t);
    } else if x == 4 * g + 2 {
      FromTwo(a, j, g, t);
    } else if x == 8 * h + 4 {
      FromFour(a, j, h, t);
    } else {
      assert x == 8 * h;
      FromEight(a, j, h, t);
    }
  }

  lemma FromEight(a: nat, j: nat, h: nat, t: nat)
    requires j >= 3 && 8 * h < Pow2(j) && Lower(a, j) <= t < Upper(a, j)
    ensures Steps(Upper(a, j) + 8 * h, t) <= j - 2 + Steps(Upper(a, j) - 1, t)
  {
    hide Pow2, Upper, Lower, Steps, Ones;
    PowSucc(j);
    PowSucc(j - 1);
    PowSucc(j - 2);
    OnesBound(h, j - 3);
    FromHigh(a, j, h, t);
  }

  /** The first of the `Pow2(k)` heights of a block. */
  function BlockStart(a: nat, k: nat): nat { a * Pow2(k) }

  lemma Halves(a: nat, k: nat)
    requires k >= 1
    ensures BlockStart(a, k) == Lower(a, k - 1) == BlockStart(2 * a, k - 1)
    ensures Upper(a, k - 1) == BlockStart(2 * a + 1, k - 1)
    ensures BlockStart(a + 1, k) == BlockStart(2 * a + 2, k - 1) == Upper(a, k - 1) + Pow2(k - 1)
  {
    hide Pow2;
    var p := Pow2(k - 1);
    PowSucc(k);
    MulAssociates(a, 2, p);
    MulAssociates(2, a, p);
    MulAssociates(a + 1, 2, p);
    assert (2 * a + 2) * p == (2 * a + 1) * p + p;
  }

  lemma OneHeight(a: nat)
    ensures BlockStart(a + 1, 0) == BlockStart(a, 0) + 1
  {
  }

  /** From the top of a level to a goal below its foot. */
  lemma FromLevelTop(a: nat, j: nat, t: nat)
    requires Lower(a, j) <= t < Upper(a, j) && Steps(Upper(a, j) - 1, t) <= FromTop(j)
    ensures Steps(Upper(a, j) + Pow2(j) - 1, t) <= FromTop(j + 1)
  {
    hide Pow2, Upper, Lower, Steps, GetSkipHeight, InvertLowestOne, Ones;
    if j == 0 {
      BottomLevel(a);
      Pow2Values();
      StepsAtMost(Upper(a, j), t);
    } else if j == 1 {
      FromOneTop(a, t);
    } else if j == 2 {
      FromTwoTop(a, t);
    } else {
      PowSucc(j);
      OnesBound(Pow2(j - 1) - 1, j - 1);
      FromOdd(a, j, Pow2(j - 1) - 1, t);
    }
  }

  lemma FromOneTop(a: nat, t: nat)
    requires Lower(a, 1) <= t < Upper(a, 1)
    ensures Steps(Upper(a, 1) + Pow2(1) - 1, t) <= 2
  {
    hide Pow2, Upper, Lower, GetSkipHeight, InvertLowestOne;
    Pow2Values();
    UpperIs(a, 1);
    BelowLevel(a, 1);
    SkipOdd(a, 1, 0);
    SkipFoot(a, 1);
    if t == Lower(a, 1) {
      StepsAtMost(t, t);
      StepsAtMost(t + 1, t);
    } else {
      FromFirst(a, 1, t);
      StepsAtMost(Upper(a, 1) - 1, t);
    }
  }

  lemma FromTwoTop(a: nat, t: nat)
    requires Lower(a, 2) <= t < Upper(a, 2)
    ensures Steps(Upper(a, 2) + Pow2(2) - 1, t) <= 4
  {
    hide Pow2, Upper, Lower, GetSkipHeight, Steps;
    Pow2Values();
    UpperIs(a, 2);
    FromOneBit(a, 2, 1, t);
    StepsAtMost(Upper(a, 2) - 1, t);
  }

  /** From the last height of a block of `Pow2(k)` to any height in it. */
  lemma {:induction false} FromLast(a: nat, k: nat, t: nat)
    requires BlockStart(a, k) <= t < BlockStart(a + 1, k)
    ensures Steps(BlockStart(a + 1, k) - 1, t) <= FromTop(k)
    decreases k
  {
    hide Pow2, Upper, Lower, Steps, BlockStart;
    if k == 0 {
      OneHeight(a);
      StepsAtMost(t, t);
    } else {
      var j := k - 1;
      Halves(a, k);
      if t >= Upper(a, j) {
        FromLast(2 * a + 1, j, t);
        FromTopRises(j);
      } else {
        FromLast(2 * a, j, t);
        FromLevelTop(a, j, t);
      }
    }
  }

  lemma FromTopRises(k: nat)
    ensures FromTop(k) <= FromTop(k + 1)
  {
  }

  /** The most steps among the heights below `Pow2(k)`, and with that height. */
  function MaxSteps(k: nat): nat {
    if k == 0 then 0 else LevelCost(k - 1) + FromTop(k - 1)
  }

  lemma {:induction false} StepsWithin(a: nat, k: nat, w: nat, t: nat)
    requires BlockStart(a, k) <= t <= w < BlockStart(a + 1, k)
    ensures Steps(w, t) <= MaxSteps(k)
    decreases k
  {
    hide Pow2, Upper, Lower, Steps, BlockStart, LevelCost, FromTop;
    if k == 0 {
      OneHeight(a);
      StepsAtMost(w, t);
    } else {
      var j := k - 1;
      Halves(a, k);
      MaxStepsRise(j);
      if t >= Upper(a, j) {
        StepsWithin(2 * a + 1, j, w, t);
      } else if w < Upper(a, j) {
        StepsWithin(2 * a, j, w, t);
      } else {
        FromLast(2 * a, j, t);
        FromAnywhere(a, j, w - Upper(a, j), t);
      }
    }
  }

  lemma MaxStepsRise(k: nat)
    ensures MaxSteps(k) <= MaxSteps(k + 1)
  {
    if k > 0 {
      FromTopRises(k - 1);
    }
  }

  /** No walk among the heights up to `Pow2(k)` takes more. */
  lemma StepBound(k: nat, w: nat, t: nat)
    requires 4 <= k && t <= w <= Pow2(k)
    ensures Steps(w, t) <= MaxSteps(k)
  {
    hide Pow2, Steps;
    if w < Pow2(k) {
      StepsWithin(0, k, w, t);
    } else if t < w {
      assert Upper(0, k) == Pow2(k) == BlockStart(1, k) && Lower(0, k) == 0;
      FromFoot(0, k, t);
      FromLast(0, k, t);
    } else {
      StepsAtMost(w, t);
    }
  }

  /** The 110 steps for 2^18 blocks that the simulations showed. */
  lemma DocumentedBound(w: nat, t: nat)
    requires t <= w <= 0x4_0000
    ensures Steps(w, t) <= 110
  {
    hide Steps;
    Pow2Values();
    Pow2Add(16, 2);
    StepBound(18, w, t);
    assert FromTop(7) == 20;
    assert FromTop(11) == 44;
    assert FromTop(15) == 76;
    assert FromTop(17) == 95;
  }
}
