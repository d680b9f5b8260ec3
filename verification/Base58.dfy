/** Base58: byte strings as text, leading zeros included. */
module Base58 {
  import opened Digits
  import opened Numbers
  import opened Options

  // ----- The alphabet -----

  /** All alphanumeric characters except 0, I, O and l. */
  function Char(d: nat): (c: char)
    requires d < 58
    ensures DigitOf(c) == d && !IsSpace(c) && c != '\0' && (c == '1' <==> d == 0)
  {
    if d < 9 then ('1' as int + d) as char
    else if d < 17 then ('A' as int + d - 9) as char
    else if d < 22 then ('J' as int + d - 17) as char
    else if d < 33 then ('P' as int + d - 22) as char
    else if d < 44 then ('a' as int + d - 33) as char
    else ('m' as int + d - 44) as char
  }

  /** The digit of a character, or -1. */
  function DigitOf(c: char): (d: int)
    ensures -1 <= d < 58
  {
    if '1' <= c <= '9' then c as int - '1' as int
    else if 'A' <= c <= 'H' then c as int - 'A' as int + 9
    else if 'J' <= c <= 'N' then c as int - 'J' as int + 17
    else if 'P' <= c <= 'Z' then c as int - 'P' as int + 22
    else if 'a' <= c <= 'k' then c as int - 'a' as int + 33
    else if 'm' <= c <= 'z' then c as int - 'm' as int + 44
    else -1
  }

  lemma CharOfDigit(c: char)
    requires DigitOf(c) >= 0
    ensures Char(DigitOf(c)) == c
  {
  }

  const ALPHABET := "123456789" + "ABCDEFGH" + "JKLMN" + "PQRSTUVWXYZ" + "abcdefghijk" + "mnopqrstuvwxyz"

  lemma Letter(d: nat)
    requires d < 58
    ensures |ALPHABET| == 58 && Char(d) == ALPHABET[d]
  {
    if d < 9 {
      assert ALPHABET[d] == "123456789"[d];
    } else if d < 17 {
      assert ALPHABET[d] == "ABCDEFGH"[d - 9];
    } else if d < 22 {
      assert ALPHABET[d] == "JKLMN"[d - 17];
    } else if d < 33 {
      assert ALPHABET[d] == "PQRSTUVWXYZ"[d - 22];
    } else if d < 44 {
      assert ALPHABET[d] == "abcdefghijk"[d - 33];
    } else {
      assert ALPHABET[d] == "mnopqrstuvwxyz"[d - 44];
    }
  }

  /** The digits are the characters of the alphabet, in its order, and no other character is a digit. */
  lemma Alphabet(c: char)
    ensures |ALPHABET| == 58 && forall d :: 0 <= d < 58 ==> Char(d) == ALPHABET[d]
    ensures DigitOf(c) >= 0 <==> c in ALPHABET
    ensures IsSpace(c) <==> 9 <= c as int <= 13 || c as int == 32
  {
    forall d | 0 <= d < 58
      ensures Char(d) == ALPHABET[d]
    {
      Letter(d);
    }
    Letter(0);
    if DigitOf(c) >= 0 {
      CharOfDigit(c);
    }
  }

  predicate IsSpace(c: char) {
    c == ' ' || c == '\t' || c == '\n' || c == '\r' || c as int == 11 || c as int == 12
  }

  // ----- Room in the buffers -----

  /** 19 bytes fit 26 digits. */
  lemma BytesInDigits()
    ensures Pow(256, 19) <= Pow(58, 26)
  {
    hide Pow;
    PowStart(58);
    PowStart(256);
    PowSquare(58, 1);
    assert Pow(58, 3) == 195112;
    PowSquare(58, 3);
    assert Pow(58, 6) == 38068692544;
    PowSquare(58, 6);
    assert Pow(58, 13) == 84055070416556869132288;
    PowSquare(58, 13);
    assert Pow(58, 26) == 7065254862732333761310239421614111190044114944;
    PowSquare(256, 1);
    assert Pow(256, 2) == 65536;
    PowSquare(256, 2);
    assert Pow(256, 4) == 4294967296;
    PowSquare(256, 4);
    assert Pow(256, 9) == 4722366482869645213696;
    PowSquare(256, 9);
    assert Pow(256, 19) == 5708990770823839524233143877797980545530986496;
  }

  /** 71 digits fit 52 bytes. */
  lemma DigitsInBytes()
    ensures Pow(58, 71) <= Pow(256, 52)
  {
    hide Pow;
    PowStart(58);
    PowStart(256);
    PowSquare(58, 1);
    assert Pow(58, 2) == 3364;
    PowSquare(58, 2);
    assert Pow(58, 4) == 11316496;
    PowSquare(58, 4);
    assert Pow(58, 8) == 128063081718016;
    PowSquare(58, 8);
    assert Pow(58, 17) == 951208868148684143308060622848;
    PowSquare(58, 17);
    assert Pow(58, 35) == 52478302028992644968172978478148648556151605660894866578604032;
    PowSquare(58, 35);
    PowSquare(256, 1);
    assert Pow(256, 3) == 16777216;
    PowSquare(256, 3);
    assert Pow(256, 6) == 281474976710656;
    PowSquare(256, 6);
    assert Pow(256, 13) == 20282409603651670423947251286016;
    PowSquare(256, 13);
    assert Pow(256, 26) == 411376139330301510538742295639337626245683966408394965837152256;
    PowSquare(256, 26);
  }

  lemma PowStart(b: nat)
    ensures Pow(b, 0) == 1 && Pow(b, 1) == b
  {
    assert Pow(b, 0) == 1;
  }

  /** The 138/100 estimate is enough for any number of bytes. */
  lemma EncodeFits(n: nat)
    ensures Pow(256, n) < Pow(58, n * 138 / 100 + 1)
  {
    BytesInDigits();
    DigitsFit(256, 58, 19, 26, n, n * 138 / 100 + 1);
  }

  /** The 733/1000 estimate is enough for any number of digits. */
  lemma DecodeFits(n: nat)
    ensures Pow(58, n) < Pow(256, n * 733 / 1000 + 1)
  {
    DigitsInBytes();
    DigitsFit(58, 256, 71, 52, n, n * 733 / 1000 + 1);
  }

  // ----- Multiply and add in a digit buffer -----

  /** Digits that a buffer's number may use. */
  ghost predicate Holds(base: nat, buf: seq<nat>, length: nat, v: nat) {
    && AllDigits(base, buf) && length <= |buf| && (forall i :: 0 <= i < |buf| - length ==> buf[i] == 0)
    && Num(base, buf) == v
  }

  /** What a digit and the carry before it give. */
  function Carried(carry: nat, mult: nat, d: nat): nat {
    MulMonotone(0, mult, d);
    carry + mult * d
  }

  /** The state of the carry loop after `i` digits. */
  ghost predicate Carrying(base: nat, mult: nat, was: seq<nat>, buf: seq<nat>, i: nat, carry: nat, total: nat) {
    && |was| == |buf| && i <= |buf| && AllDigits(base, buf)
    && (forall k :: 0 <= k < |buf| - i ==> buf[k] == was[k])
    && Joined(Shift(mult, Num(base, was[..|buf| - i]), carry), Pow(base, i), Num(base, buf[|buf| - i..])) == total
  }

  /** One digit of the buffer replaced. */
  ghost function CarryInto(base: nat, buf: seq<nat>, k: nat, n: nat): seq<nat>
    requires base >= 2 && k < |buf|
  {
    buf[k := Remainder(n, base)]
  }

  lemma CarryStep(base: nat, mult: nat, was: seq<nat>, buf: seq<nat>, i: nat, carry: nat, total: nat)
    requires base >= 2 && Carrying(base, mult, was, buf, i, carry, total) && i < |buf|
    ensures var k := |buf| - 1 - i;
            var n := Carried(carry, mult, buf[k]);
            Carrying(base, mult, was, CarryInto(base, buf, k, n), i + 1, Quotient(n, base), total)
  {
    hide Pow, Num, Joined, Shift, Carried, Quotient, Remainder;
    var k := |buf| - 1 - i;
    var n := Carried(carry, mult, buf[k]);
    var r := Remainder(n, base);
    var after := CarryInto(base, buf, k, n);
    NumNext(base, was, 0, k);
    assert was[0..k + 1] == was[..k + 1] && was[0..k] == was[..k];
    var low := buf[k + 1..];
    LowDigits(base, buf, k, r);
    CarryArith(base, mult, Num(base, was[..k]), was[k], carry, Pow(base, i), Num(base, low), n);
    PowNext(base, i);
  }

  /** The digits from a replaced one on. */
  lemma LowDigits(base: nat, buf: seq<nat>, k: nat, r: nat)
    requires k < |buf|
    ensures Num(base, buf[k := r][k..]) == Joined(r, Pow(base, |buf| - 1 - k), Num(base, buf[k + 1..]))
  {
    hide Pow, Num, Joined;
    var low, high := buf[k + 1..], buf[k := r][k..];
    assert high == [r] + low;
    NumSplit(base, high, 1);
    assert high[1..] == low && high[..1] == [r];
    NumOne(base, r);
  }

  lemma NumOne(base: nat, d: nat)
    ensures Num(base, [d]) == d
  {
    assert [d][..0] == [];
  }

  lemma PowNext(base: nat, i: nat)
    ensures Pow(base, i + 1) == base * Pow(base, i)
  {
  }

  lemma CarryArith(base: nat, mult: nat, h: nat, d: nat, carry: nat, p: nat, l: nat, n: nat)
    requires base >= 1 && n == Carried(carry, mult, d)
    ensures Joined(Shift(mult, Shift(base, h, d), carry), p, l)
              == Joined(Shift(mult, h, Quotient(n, base)), base * p, Joined(Remainder(n, base), p, l))
  {
    var q, r := Quotient(n, base), Remainder(n, base);
    assert n == q * base + r by { Division(n, base); }
    CarryTerms(base, mult, h, d, carry, p, l, q, r);
  }

  lemma CarryTerms(base: nat, mult: nat, h: nat, d: nat, carry: nat, p: nat, l: nat, q: nat, r: nat)
    requires carry + mult * d == q * base + r
    ensures ((h * base + d) * mult + carry) * p + l == (h * mult + q) * (base * p) + (r * p + l)
  {
    assert (h * base + d) * mult + carry == (h * mult + q) * base + r by {
      assert (h * base + d) * mult == (h * mult) * base + d * mult;
      assert (h * mult + q) * base == (h * mult) * base + q * base;
    }
    assert ((h * mult + q) * base + r) * p == (h * mult + q) * (base * p) + r * p;
  }

  /** When no carry is left and no old digit either, or the buffer is used up, the sum is complete. */
  lemma CarryDone(base: nat, mult: nat, was: seq<nat>, buf: seq<nat>, i: nat, carry: nat, total: nat, length: nat,
                  v: nat)
    requires base >= 2 && Holds(base, was, length, v) && Carrying(base, mult, was, buf, i, carry, total)
    requires total < Pow(base, |buf|) && ((carry == 0 && length <= i) || i == |buf|)
    ensures carry == 0 && Holds(base, buf, i, total)
  {
    hide Pow, Num, Joined, Shift;
    var k := |buf| - i;
    NumZeros(base, was[..k]);
    NoCarry(mult, carry, Pow(base, i), Num(base, buf[k..]), total);
    NumSkipZeros(base, buf, k);
  }

  lemma NoCarry(mult: nat, carry: nat, p: nat, l: nat, total: nat)
    requires Joined(Shift(mult, 0, carry), p, l) == total && (carry == 0 || total < p)
    ensures carry == 0 && l == total
  {
    if carry > 0 {
      MulMonotone(1, carry, p);
    }
  }

  /** `buf = buf * mult + ch` in digits of `base`; no carry is left over. */
  method MulAdd(buf: array<nat>, base: nat, mult: nat, ch: nat, length: nat, ghost v: nat) returns (newLength: nat)
    requires base >= 2 && Holds(base, buf[..], length, v) && Shift(mult, v, ch) < Pow(base, buf.Length)
    modifies buf
    ensures Holds(base, buf[..], newLength, Shift(mult, v, ch))
  {
    hide Pow, Num, Holds, Carrying, Shift;
    ghost var was, total := buf[..], Shift(mult, v, ch);
    var carry: nat := ch;
    var i := 0;
    CarryStart(base, mult, was, length, v, ch);
    while (carry != 0 || i < length) && i != buf.Length
      invariant 0 <= i <= buf.Length && 0 <= carry && Carrying(base, mult, was, buf[..], i, carry, total)
    {
      var k := buf.Length - 1 - i;
      CarryStep(base, mult, was, buf[..], i, carry, total);
      ghost var before := buf[..];
      carry := Carried(carry, mult, buf[k]);
      buf[k] := Remainder(carry, base);
      assert buf[..] == CarryInto(base, before, k, carry);
      carry := Quotient(carry, base);
      i := i + 1;
    }
    CarryDone(base, mult, was, buf[..], i, carry, total, length, v);
    newLength := i;
  }

  lemma CarryStart(base: nat, mult: nat, was: seq<nat>, length: nat, v: nat, ch: nat)
    requires Holds(base, was, length, v)
    ensures Carrying(base, mult, was, was, 0, ch, Shift(mult, v, ch))
  {
    hide Pow, Shift, Joined;
    assert was[..|was|] == was && was[|was|..] == [];
    JoinNothing(base, Shift(mult, v, ch));
  }

  // ----- What the codecs compute -----

  /** The length of the longest prefix of characters or bytes with a property. */
  function Span<T>(s: seq<T>, p: T -> bool): (n: nat)
    ensures n <= |s| && (forall i :: 0 <= i < n ==> p(s[i])) && (n < |s| ==> !p(s[n]))
  {
    if s == [] || !p(s[0]) then 0 else 1 + Span(s[1..], p)
  }

  lemma SpanIs<T>(s: seq<T>, p: T -> bool, n: nat)
    requires n <= |s| && (forall i :: 0 <= i < n ==> p(s[i])) && (n < |s| ==> !p(s[n]))
    ensures Span(s, p) == n
  {
  }

  predicate IsZero(b: nat) { b == 0 }
  predicate IsOne(c: char) { c == '1' }
  predicate NotNul(c: char) { c != '\0' }
  predicate NotSpace(c: char) { !IsSpace(c) }

  function Repeat<T>(x: T, n: nat): (r: seq<T>)
    ensures |r| == n && forall i :: 0 <= i < n ==> r[i] == x
  {
    seq(n, _ => x)
  }

  function Chars(digits: seq<nat>): (r: string)
    requires forall i :: 0 <= i < |digits| ==> digits[i] < 58
    ensures |r| == |digits|
  {
    seq(|digits|, i requires 0 <= i < |digits| => Char(digits[i]))
  }

  /** Leading zero bytes are written as ones, the rest as the digits of its number. */
  ghost function Encoded(vch: seq<nat>): string {
    NumOfDigits(58, Num(256, vch));
    Repeat('1', Span(vch, IsZero)) + Chars(DigitsOf(58, Num(256, vch)))
  }

  /** A C string ends at its first NUL. */
  function CString(s: string): string { s[..Span(s, NotNul)] }

  /** The text between the spaces at either end, if there are none inside. */
  function Trimmed(s: string): string {
    var t := s[Span(s, IsSpace)..];
    t[..Span(t, NotSpace)]
  }

  predicate Acceptable(s: string) {
    var t := s[Span(s, IsSpace)..];
    var n := Span(t, NotSpace);
    (forall i :: 0 <= i < n ==> DigitOf(t[i]) >= 0) && forall i :: n <= i < |t| ==> IsSpace(t[i])
  }

  function Values(text: string): (r: seq<nat>)
    requires forall i :: 0 <= i < |text| ==> DigitOf(text[i]) >= 0
    ensures |r| == |text|
  {
    seq(|text|, i requires 0 <= i < |text| => DigitOf(text[i]))
  }

  /** Leading ones are zero bytes, the rest the bytes of its number. */
  ghost function Decoded(text: string): seq<nat>
    requires forall i :: 0 <= i < |text| ==> DigitOf(text[i]) >= 0
  {
    Repeat(0, Span(text, IsOne)) + DigitsOf(256, Num(58, Values(text)))
  }

  // ----- The codecs -----

  /** A buffer without its leading zeros holds the digits of its number. */
  lemma DigitsInBuffer(base: nat, buf: seq<nat>, length: nat, v: nat, it: nat)
    requires base >= 2 && Holds(base, buf, length, v) && it <= |buf| && (forall i :: 0 <= i < it ==> buf[i] == 0)
    requires it < |buf| ==> buf[it] != 0
    ensures buf[it..] == DigitsOf(base, v)
  {
    hide Num, DigitsOf;
    NumSkipZeros(base, buf, it);
    DigitsOfNum(base, buf[it..]);
  }

  /** What has been read fits a buffer made for everything. */
  lemma Fits(base: nat, mult: nat, s: seq<nat>, n: nat, size: nat)
    requires base >= 2 && mult >= 1 && AllDigits(mult, s) && |s| <= n && Pow(mult, n) < Pow(base, size)
    ensures Num(mult, s) < Pow(base, size)
  {
    hide Pow, Num;
    NumBound(mult, s);
    PowMonotone(mult, |s|, n);
  }

  lemma NumNext(base: nat, s: seq<nat>, lo: nat, p: nat)
    requires lo <= p < |s|
    ensures Num(base, s[lo..p + 1]) == Shift(base, Num(base, s[lo..p]), s[p])
  {
    assert s[lo..p + 1][..p - lo] == s[lo..p];
  }

  lemma NothingHeld(base: nat, buf: seq<nat>)
    requires base >= 2 && forall i :: 0 <= i < |buf| ==> buf[i] == 0
    ensures Holds(base, buf, 0, 0)
  {
    NumZeros(base, buf);
  }

  /** Skips the leading zeros of a buffer. */
  method Significant(buf: array<nat>, base: nat, length: nat, ghost v: nat) returns (digits: seq<nat>)
    requires base >= 2 && Holds(base, buf[..], length, v)
    ensures digits == DigitsOf(base, v)
  {
    hide Holds, DigitsOf;
    HoldsShape(base, buf[..], length, v);
    var it := buf.Length - length;
    while it < buf.Length && buf[it] == 0
      invariant it <= buf.Length && forall i :: 0 <= i < it ==> buf[i] == 0
    {
      it := it + 1;
    }
    DigitsInBuffer(base, buf[..], length, v, it);
    digits := buf[it..];
    assert digits == buf[..][it..];
  }

  method ReadBytes(vch: seq<nat>, zeroes: nat, b58: array<nat>) returns (length: nat)
    requires AllDigits(256, vch) && zeroes <= |vch| && Pow(256, |vch| - zeroes) < Pow(58, b58.Length)
    requires forall i :: 0 <= i < b58.Length ==> b58[i] == 0
    modifies b58
    ensures Holds(58, b58[..], length, Num(256, vch[zeroes..]))
  {
    hide Pow, Num, Holds;
    NothingHeld(58, b58[..]);
    length := 0;
    NumZeros(256, vch[zeroes..zeroes]);
    for p := zeroes to |vch|
      invariant Holds(58, b58[..], length, Num(256, vch[zeroes..p]))
    {
      NumNext(256, vch, zeroes, p);
      Fits(58, 256, vch[zeroes..p + 1], |vch| - zeroes, b58.Length);
      length := MulAdd(b58, 58, 256, vch[p], length, Num(256, vch[zeroes..p]));
    }
    assert vch[zeroes..|vch|] == vch[zeroes..];
  }

  method CountZeros(vch: seq<nat>) returns (zeroes: nat)
    ensures zeroes == Span(vch, IsZero)
  {
    hide Span;
    zeroes := 0;
    while zeroes < |vch| && vch[zeroes] == 0
      invariant zeroes <= |vch| && forall i :: 0 <= i < zeroes ==> vch[i] == 0
    {
      zeroes := zeroes + 1;
    }
    SpanIs(vch, IsZero, zeroes);
  }

  method Translate(digits: seq<nat>) returns (str: string)
    requires AllDigits(58, digits)
    ensures str == Chars(digits)
  {
    str := [];
    for i := 0 to |digits|
      invariant |str| == i && forall k :: 0 <= k < i ==> str[k] == Char(digits[k])
    {
      str := str + [Char(digits[i])];
    }
  }

  method EncodeBase58(vch: seq<nat>) returns (str: string)
    requires AllDigits(256, vch)
    ensures str == Encoded(vch)
  {
    hide Pow, Num, Holds, DigitsOf, Span, Chars;
    var zeroes := CountZeros(vch);
    EncodeFits(|vch| - zeroes);
    var b58 := new nat[(|vch| - zeroes) * 138 / 100 + 1](_ => 0);
    var length := ReadBytes(vch, zeroes, b58);
    NumSkipZeros(256, vch, zeroes);
    NumOfDigits(58, Num(256, vch));
    var digits := Significant(b58, 58, length, Num(256, vch));
    var text := Translate(digits);
    str := Repeat('1', zeroes) + text;
  }

  lemma HoldsShape(base: nat, buf: seq<nat>, length: nat, v: nat)
    requires Holds(base, buf, length, v)
    ensures AllDigits(base, buf) && length <= |buf| && forall i :: 0 <= i < |buf| - length ==> buf[i] == 0
  {
  }

  /** Reads digits up to a space or the end; stops without success at any other character. */
  method ReadDigits(u: string, zeroes: nat, b256: array<nat>)
    returns (ok: bool, p: nat, length: nat, ghost read: seq<nat>)
    requires zeroes <= |u| && (forall i :: 0 <= i < zeroes ==> u[i] == '1')
    requires Pow(58, |u| - zeroes) < Pow(256, b256.Length)
    requires forall i :: 0 <= i < b256.Length ==> b256[i] == 0
    modifies b256
    ensures zeroes <= p <= |u| && (forall i :: 0 <= i < p ==> DigitOf(u[i]) >= 0 && !IsSpace(u[i]))
    ensures if ok then p == |u| || IsSpace(u[p]) else p < |u| && !IsSpace(u[p]) && DigitOf(u[p]) == -1
    ensures |read| == p - zeroes && forall i :: 0 <= i < |read| ==> read[i] == DigitOf(u[zeroes + i])
    ensures ok ==> Holds(256, b256[..], length, Num(58, read))
  {
    hide Pow, Num, Holds, DigitOf, IsSpace;
    NothingHeld(256, b256[..]);
    length, p, read := 0, zeroes, [];
    OnesAreDigits(u, zeroes);
    NumZeros(58, read);
    while p < |u| && !IsSpace(u[p])
      invariant zeroes <= p <= |u| && (forall i :: 0 <= i < p ==> DigitOf(u[i]) >= 0 && !IsSpace(u[i]))
      invariant |read| == p - zeroes && (forall i :: 0 <= i < |read| ==> read[i] == DigitOf(u[zeroes + i]))
      invariant AllDigits(58, read)
      invariant Holds(256, b256[..], length, Num(58, read))
    {
      var carry := DigitOf(u[p]);
      if carry == -1 {
        ok := false;
        return;
      }
      ghost var next := read + [carry];
      NumNext(58, next, 0, |read|);
      assert next[0..|read|] == read && next[0..|read| + 1] == next;
      Fits(256, 58, next, |u| - zeroes, b256.Length);
      length := MulAdd(b256, 256, 58, carry, length, Num(58, read));
      read := next;
      p := p + 1;
    }
    ok := true;
  }

  method SkipSpaces(t: string) returns (n: nat)
    ensures n == Span(t, IsSpace)
  {
    hide Span, IsSpace;
    n := 0;
    while n < |t| && IsSpace(t[n])
      invariant n <= |t| && forall i :: 0 <= i < n ==> IsSpace(t[i])
    {
      n := n + 1;
    }
    SpanIs(t, IsSpace, n);
  }

  method SkipOnes(u: string) returns (n: nat)
    ensures n == Span(u, IsOne)
  {
    hide Span;
    n := 0;
    while n < |u| && u[n] == '1'
      invariant n <= |u| && forall i :: 0 <= i < n ==> u[i] == '1'
    {
      n := n + 1;
    }
    SpanIs(u, IsOne, n);
  }

  /** Bytes from text with spaces around it; none if there is any other character. */
  method DecodeBase58(s: string) returns (r: Option<seq<nat>>)
    ensures r.Some? <==> Acceptable(CString(s))
    ensures r.Some? ==> (forall i :: 0 <= i < |Trimmed(CString(s))| ==> DigitOf(Trimmed(CString(s))[i]) >= 0)
    ensures r.Some? ==> r.value == Decoded(Trimmed(CString(s)))
  {
    hide Pow, Num, Holds, DigitsOf, Span, DigitOf, IsSpace, Values, Acceptable, Trimmed, CString;
    var t := CString(s);
    var spaces := SkipSpaces(t);
    var u := t[spaces..];
    var zeroes := SkipOnes(u);
    DecodeFits(|u| - zeroes);
    var b256 := new nat[(|u| - zeroes) * 733 / 1000 + 1](_ => 0);
    var ok, p, length;
    ghost var read;
    ok, p, length, read := ReadDigits(u, zeroes, b256);
    if !ok {
      NotAcceptable(t, spaces, p);
      return None;
    }
    Middle(t, spaces, p);
    var rest := SkipSpaces(u[p..]);
    if p + rest != |u| {
      return None;
    }
    var bytes := Significant(b256, 256, length, Num(58, read));
    ReadIsText(u[..p], zeroes, read);
    r := Some(Repeat(0, zeroes) + bytes);
  }

  /** A text that stops at a space is acceptable exactly when only spaces follow. */
  lemma Middle(t: string, spaces: nat, p: nat)
    requires Span(t, IsSpace) == spaces && p <= |t[spaces..]| && (p < |t[spaces..]| ==> IsSpace(t[spaces..][p]))
    requires forall i :: 0 <= i < p ==> DigitOf(t[spaces..][i]) >= 0 && !IsSpace(t[spaces..][i])
    ensures Trimmed(t) == t[spaces..][..p] && (Acceptable(t) <==> p + Span(t[spaces..][p..], IsSpace) == |t[spaces..]|)
  {
    hide DigitOf, IsSpace, Span;
    var u := t[spaces..];
    SpanIs(u, NotSpace, p);
    var n := Span(u[p..], IsSpace);
    assert forall i :: p <= i < |u| ==> u[i] == u[p..][i - p];
    if p + n < |u| {
      assert !IsSpace(u[p..][n]) && u[p + n] == u[p..][n];
    }
  }

  lemma OnesAreDigits(u: string, zeroes: nat)
    requires zeroes <= |u| && forall i :: 0 <= i < zeroes ==> u[i] == '1'
    ensures forall i :: 0 <= i < zeroes ==> DigitOf(u[i]) == 0 && !IsSpace(u[i])
  {
  }

  lemma NotAcceptable(t: string, pos: nat, p: nat)
    requires pos <= |t| && Span(t, IsSpace) == pos && p < |t[pos..]| && DigitOf(t[pos..][p]) == -1
    requires forall i :: 0 <= i <= p ==> !IsSpace(t[pos..][i])
    ensures !Acceptable(t)
  {
    hide DigitOf, IsSpace;
    var u := t[pos..];
    assert Span(u, NotSpace) > p;
  }

  /** The digits after the leading ones give the number of the whole text. */
  lemma ReadIsText(text: string, zeroes: nat, read: seq<nat>)
    requires zeroes <= |text| && |read| == |text| - zeroes
    requires forall i :: 0 <= i < |text| ==> DigitOf(text[i]) >= 0
    requires (forall i :: 0 <= i < zeroes ==> text[i] == '1') && (zeroes < |text| ==> text[zeroes] != '1')
    requires forall i :: 0 <= i < |read| ==> read[i] == DigitOf(text[zeroes + i])
    ensures Span(text, IsOne) == zeroes && Num(58, Values(text)) == Num(58, read)
  {
    hide Num, DigitOf, IsSpace, Span, Values;
    SpanIs(text, IsOne, zeroes);
    OnesAreDigits(text, zeroes);
    ValuesFrom(text, zeroes, read);
    NumSkipZeros(58, Values(text), zeroes);
  }

  lemma ValuesFrom(text: string, zeroes: nat, read: seq<nat>)
    requires zeroes <= |text| && |read| == |text| - zeroes
    requires forall i :: 0 <= i < |text| ==> DigitOf(text[i]) >= 0
    requires forall i :: 0 <= i < zeroes ==> DigitOf(text[i]) == 0
    requires forall i :: 0 <= i < |read| ==> read[i] == DigitOf(text[zeroes + i])
    ensures Values(text)[zeroes..] == read && forall i :: 0 <= i < zeroes ==> Values(text)[i] == 0
  {
    hide DigitOf;
  }

  // ----- The round trips -----

  ghost predicate AllValid(text: string) {
    forall i :: 0 <= i < |text| ==> DigitOf(text[i]) >= 0
  }

  /** Text without spaces or NUL is read as it stands. */
  lemma PlainText(text: string)
    requires AllValid(text)
    ensures CString(text) == text && Trimmed(text) == text && Acceptable(text)
  {
    hide Span;
    SpanIs(text, NotNul, |text|);
    assert text[..|text|] == text;
    SpanIs(text, IsSpace, 0);
    assert text[0..] == text;
    SpanIs(text, NotSpace, |text|);
  }

  /** Encoding keeps the number of leading zeros and the number after them. */
  lemma EncodedParts(vch: seq<nat>)
    requires AllDigits(256, vch)
    ensures AllValid(Encoded(vch)) && Span(Encoded(vch), IsOne) == Span(vch, IsZero)
    ensures Num(58, Values(Encoded(vch))) == Num(256, vch)
  {
    hide Span, Num, DigitsOf;
    var n := Num(256, vch);
    NumOfDigits(58, n);
    TextParts(Span(vch, IsZero), DigitsOf(58, n));
  }

  /** Ones followed by digits without a leading zero fall apart again. */
  lemma TextParts(z: nat, digits: seq<nat>)
    requires AllDigits(58, digits) && Leading(digits)
    ensures var text := Repeat('1', z) + Chars(digits);
            AllValid(text) && Span(text, IsOne) == z && Num(58, Values(text)) == Num(58, digits)
  {
    hide Span, Num, DigitOf, IsSpace;
    var text := Repeat('1', z) + Chars(digits);
    OnesAreDigits(text, z);
    assert forall i :: z <= i < |text| ==> text[i] == Char(digits[i - z]);
    SpanIs(text, IsOne, z);
    assert Values(text)[z..] == digits;
    NumSkipZeros(58, Values(text), z);
  }

  /** Decoding the encoding of any bytes gives the bytes. */
  lemma DecodedEncoded(vch: seq<nat>)
    requires AllDigits(256, vch)
    ensures AllValid(Encoded(vch)) && Decoded(Encoded(vch)) == vch
  {
    hide Span, Num, DigitsOf, Encoded;
    EncodedParts(vch);
    var z := Span(vch, IsZero);
    NumSkipZeros(256, vch, z);
    DigitsOfNum(256, vch[z..]);
    assert vch == Repeat(0, z) + vch[z..];
  }

  /** Encoding what a text decodes to gives the text. */
  lemma EncodedDecoded(text: string)
    requires AllValid(text)
    ensures AllDigits(256, Decoded(text)) && Encoded(Decoded(text)) == text
  {
    hide Span, Num, DigitsOf, Chars, Char, DigitOf, Values;
    var n, z := Num(58, Values(text)), Span(text, IsOne);
    NumOfDigits(256, n);
    DecodedParts(z, DigitsOf(256, n));
    TextOfDigits(text, z);
  }

  /** Zero bytes followed by bytes without a leading zero fall apart again. */
  lemma DecodedParts(z: nat, bytes: seq<nat>)
    requires AllDigits(256, bytes) && Leading(bytes)
    ensures var vch := Repeat(0, z) + bytes;
            AllDigits(256, vch) && Span(vch, IsZero) == z && Num(256, vch) == Num(256, bytes)
  {
    hide Span, Num;
    var vch := Repeat(0, z) + bytes;
    SpanIs(vch, IsZero, z);
    assert vch[z..] == bytes;
    NumSkipZeros(256, vch, z);
  }

  /** A text is its leading ones and the digits of its number. */
  lemma TextOfDigits(text: string, z: nat)
    requires AllValid(text) && z == Span(text, IsOne)
    ensures AllDigits(58, DigitsOf(58, Num(58, Values(text))))
    ensures text == Repeat('1', z) + Chars(DigitsOf(58, Num(58, Values(text))))
  {
    hide Span, Num, DigitsOf, DigitOf, IsSpace;
    var digits := Values(text)[z..];
    OnesAreDigits(text, z);
    NumSkipZeros(58, Values(text), z);
    FirstIsNotOne(text, z);
    DigitsOfNum(58, digits);
    forall i | z <= i < |text|
      ensures Char(digits[i - z]) == text[i]
    {
      CharOfDigit(text[i]);
    }
  }

  lemma FirstIsNotOne(text: string, z: nat)
    requires AllValid(text) && z <= |text| && (z < |text| ==> text[z] != '1')
    ensures Leading(Values(text)[z..])
  {
  }

  /** Any bytes survive encoding and decoding, and no carry is ever left over. */
  method RoundTrip(vch: seq<nat>) returns (r: Option<seq<nat>>)
    requires AllDigits(256, vch)
    ensures r == Some(vch)
  {
    hide Encoded, Decoded, CString, Trimmed, Acceptable;
    var text := EncodeBase58(vch);
    DecodedEncoded(vch);
    PlainText(text);
    r := DecodeBase58(text);
  }
}
