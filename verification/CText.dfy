/** The part of C's text conversions that the messages rely on: `%d` and `%8x` (ISO/IEC 9899:2011,
    section 7.21.6.1), `strtol` (section 7.22.1.4) and `atoi` (section 7.22.1.2), for an int of 32
    bits and a long of 64. Bytes are unsigned values; a string is a byte sequence read up to its
    first NUL. */
module CText {

  type Byte = b: int | 0 <= b < 256
  type Bytes = seq<Byte>

  /** The bytes of an ASCII literal. */
  function Ascii(s: string): (b: Bytes)
    requires forall i :: 0 <= i < |s| ==> 0 < s[i] as int < 128
    ensures |b| == |s| && NulFree(b)
    ensures forall i :: 0 <= i < |s| ==> b[i] == s[i] as int
  {
    seq(|s|, i requires 0 <= i < |s| => s[i] as int)
  }

  const NUL: Byte := 0
  const SPACE: Byte := 32
  const MINUS: Byte := 45
  const PLUS: Byte := 43
  const ZERO: Byte := 48
  const LOWER_X: Byte := 120
  const UPPER_X: Byte := 88

  const TWO_32: int := 0x1_0000_0000
  const TWO_31: int := 0x8000_0000
  const LONG_MAX: int := 0x7FFF_FFFF_FFFF_FFFF

  predicate IsInt32(n: int) {
    -TWO_31 <= n < TWO_31
  }

  function ToUnsigned(n: int): (u: nat)
    ensures u < TWO_32
    ensures 0 <= n < TWO_32 ==> u == n
    ensures -TWO_32 <= n < 0 ==> u == n + TWO_32
  {
    n % TWO_32
  }

  function ToInt32(n: int): (r: int)
    ensures IsInt32(r) && (r - n) % TWO_32 == 0
  {
    var u := n % TWO_32;
    if u < TWO_31 then u else u - TWO_32
  }

  /** A plain char is signed. */
  function SignedChar(b: Byte): int {
    if b < 128 then b else b - 256
  }

  predicate NulFree(s: Bytes) {
    NUL !in s
  }

  function CString(s: Bytes): (r: Bytes)
    ensures NulFree(r) && r <= s
    ensures |r| < |s| ==> s[|r|] == NUL
  {
    if s == [] || s[0] == NUL then [] else [s[0]] + CString(s[1..])
  }

  lemma {:induction false} CStringOfNulFree(a: Bytes, b: Bytes)
    requires NulFree(a)
    ensures CString(a + b) == a + CString(b)
  {
    if a == [] {
      assert a + b == b;
    } else {
      assert a[0] in a;
      assert (a + b)[1..] == a[1..] + b;
      CStringOfNulFree(a[1..], b);
    }
  }

  const LF: Byte := 10
  const CR: Byte := 13

  predicate EndsInLineEnd(s: Bytes) {
    s != [] && s[|s| - 1] in {LF, CR}
  }

  /** Strips one line feed, then one carriage return, off the end. */
  function TrimLineEnd(s: Bytes): (r: Bytes)
    ensures r <= s && (r == s <==> !EndsInLineEnd(s))
  {
    var t := if s != [] && s[|s| - 1] == LF then s[..|s| - 1] else s;
    if t != [] && t[|t| - 1] == CR then t[..|t| - 1] else t
  }

  lemma {:induction false} CStringBound(a: Bytes, b: Bytes)
    ensures |CString(a + b)| <= |a| + |CString(b)|
  {
    if a == [] {
      assert a + b == b;
    } else if a[0] != NUL {
      assert (a + b)[1..] == a[1..] + b;
      CStringBound(a[1..], b);
    }
  }

  // ---------------------------------------------------------------- numerals

  type Base = b: int | b == 10 || b == 16 witness 10

  function Digit(d: nat): Byte
    requires d < 16
  {
    if d < 10 then ZERO + d else 87 + d
  }

  /** 99 for a byte that is no digit in any base. */
  function DigitValue(c: Byte): nat {
    if 48 <= c <= 57 then c - 48 else if 97 <= c <= 122 then c - 87 else if 65 <= c <= 90 then c - 55 else 99
  }

  function Digits(u: nat, base: Base): (s: Bytes)
    ensures |s| >= 1 && NulFree(s)
    ensures forall c :: c in s ==> DigitValue(c) < base
    ensures s[0] == ZERO ==> u == 0 && s == [ZERO]
  {
    if u < base then [Digit(u)] else Digits(u / base, base) + [Digit(u % base)]
  }

  function Accumulate(s: Bytes, base: Base, acc: nat): nat {
    if s != [] && DigitValue(s[0]) < base then Accumulate(s[1..], base, acc * base + DigitValue(s[0])) else acc
  }

  lemma AccumulateOne(d: nat, base: Base, rest: Bytes, acc: nat)
    requires d < base
    ensures Accumulate([Digit(d)] + rest, base, acc) == Accumulate(rest, base, acc * base + d)
  {
    assert ([Digit(d)] + rest)[1..] == rest;
    assert DigitValue(Digit(d)) == d;
  }

  lemma QuotientAndRemainder(u: nat, base: Base)
    ensures u == (u / base) * base + u % base
    ensures u >= base ==> u / base < u
  {
  }

  lemma {:induction false} AccumulateDigits(u: nat, base: Base, rest: Bytes)
    ensures Accumulate(Digits(u, base) + rest, base, 0) == Accumulate(rest, base, u)
    decreases u
  {
    if u < base {
      AccumulateOne(u, base, rest, 0);
    } else {
      QuotientAndRemainder(u, base);
      var front, last := Digits(u / base, base), [Digit(u % base)];
      Reassociate(front, last, rest);
      AccumulateDigits(u / base, base, last + rest);
      AccumulateOne(u % base, base, rest, u / base);
    }
  }

  lemma Reassociate(a: Bytes, b: Bytes, c: Bytes)
    ensures (a + b) + c == a + (b + c)
  {
  }

  function Pow16(k: nat): nat {
    if k == 0 then 1 else 16 * Pow16(k - 1)
  }

  function Pow10(k: nat): (p: nat)
    ensures p >= 1
  {
    if k == 0 then 1 else 10 * Pow10(k - 1)
  }

  lemma {:induction false} DecimalWidth(u: nat, k: nat)
    requires 0 < k && u < Pow10(k)
    ensures |Digits(u, 10)| <= k
    decreases k
  {
    if u >= 10 {
      DecimalWidth(u / 10, k - 1);
    }
  }

  lemma {:induction false} HexWidth(u: nat, k: nat)
    requires 0 < k && u < Pow16(k)
    ensures |Digits(u, 16)| <= k
  {
    if u >= 16 {
      HexWidth(u / 16, k - 1);
    }
  }

  lemma AnyIntFitsEight(n: int)
    ensures |Digits(ToUnsigned(n), 16)| <= 8
  {
    assert Pow16(8) == TWO_32 by {
      assert Pow16(4) == 65536;
      assert Pow16(8) == 65536 * Pow16(4);
    }
    HexWidth(ToUnsigned(n), 8);
  }

  // ---------------------------------------------------------------- printing

  function Repeat(b: Byte, n: nat): (s: Bytes)
    ensures |s| == n && forall i :: 0 <= i < n ==> s[i] == b
  {
    if n == 0 then [] else [b] + Repeat(b, n - 1)
  }

  /** `%8x` of an int. */
  function Hex8(n: int): (s: Bytes)
    requires IsInt32(n)
    ensures |s| == 8 && NulFree(s)
  {
    AnyIntFitsEight(n);
    var digits := Digits(ToUnsigned(n), 16);
    Repeat(SPACE, 8 - |digits|) + digits
  }

  /** `%d` of an int. */
  function Decimal(n: int): (s: Bytes)
    ensures |s| >= 1 && NulFree(s)
  {
    if n < 0 then [MINUS] + Digits(-n, 10) else Digits(n, 10)
  }

  // ---------------------------------------------------------------- reading

  predicate IsSpace(c: Byte) {
    c == SPACE || 9 <= c <= 13
  }

  function SkipSpaces(s: Bytes): Bytes {
    if s != [] && IsSpace(s[0]) then SkipSpaces(s[1..]) else s
  }

  function SkipPrefix(s: Bytes, base: Base): Bytes {
    if base == 16 && |s| >= 3 && s[0] == ZERO && s[1] in {LOWER_X, UPPER_X} && DigitValue(s[2]) < 16 then s[2..] else s
  }

  function Clamp(n: int): int {
    if n > LONG_MAX then LONG_MAX else if n < -LONG_MAX - 1 then -LONG_MAX - 1 else n
  }

  function Strtol(s: Bytes, base: Base): int {
    var t := SkipSpaces(s);
    if t != [] && t[0] == MINUS then Clamp(0 - Accumulate(SkipPrefix(t[1..], base), base, 0))
    else if t != [] && t[0] == PLUS then Clamp(Accumulate(SkipPrefix(t[1..], base), base, 0))
    else Clamp(Accumulate(SkipPrefix(t, base), base, 0))
  }

  function Atoi(s: Bytes): int {
    ToInt32(Strtol(s, 10))
  }

  // ---------------------------------------------------------------- the forms that are read

  function Lower(s: Bytes): (r: Bytes)
    ensures |r| == |s|
  {
    seq(|s|, i requires 0 <= i < |s| => if 65 <= s[i] <= 90 then s[i] + 32 else s[i])
  }

  lemma {:induction false} AccumulateIgnoresCase(s: Bytes, base: Base, acc: nat)
    ensures Accumulate(Lower(s), base, acc) == Accumulate(s, base, acc)
    decreases |s|
  {
    if s != [] {
      assert Lower(s)[1..] == Lower(s[1..]);
      assert DigitValue(Lower(s)[0]) == DigitValue(s[0]);
      if DigitValue(s[0]) < base {
        AccumulateIgnoresCase(s[1..], base, acc * base + DigitValue(s[0]));
      }
    }
  }

  /** Upper-case digits, and an upper-case prefix, are read like lower-case ones. */
  lemma {:induction false} StrtolIgnoresCase(s: Bytes, base: Base)
    ensures Strtol(Lower(s), base) == Strtol(s, base)
    decreases |s|
  {
    if s != [] && IsSpace(s[0]) {
      assert Lower(s)[1..] == Lower(s[1..]);
      StrtolIgnoresCase(s[1..], base);
    } else if s != [] && s[0] in {MINUS, PLUS} {
      assert Lower(s)[1..] == Lower(s[1..]);
      NumeralIgnoresCase(s[1..], base);
    } else {
      NumeralIgnoresCase(s, base);
    }
  }

  lemma NumeralIgnoresCase(s: Bytes, base: Base)
    ensures Accumulate(SkipPrefix(Lower(s), base), base, 0) == Accumulate(SkipPrefix(s, base), base, 0)
  {
    if SkipPrefix(s, base) == s {
      AccumulateIgnoresCase(s, base, 0);
    } else {
      assert Lower(s)[2..] == Lower(s[2..]);
      AccumulateIgnoresCase(s[2..], base, 0);
    }
  }

  /** White space in front is skipped: blank, tab, line feed, vertical tab, form feed, carriage return. */
  lemma SpaceIsSkipped(c: Byte, s: Bytes, base: Base)
    requires c == 32 || 9 <= c <= 13
    ensures Strtol([c] + s, base) == Strtol(s, base)
  {
    assert ([c] + s)[1..] == s;
  }

  /** A numeral is read as its value, up to the largest long; with '-' in front as the negative value, down
      to the smallest. */
  lemma NumeralIsRead(s: Bytes, base: Base)
    requires s != [] && DigitValue(s[0]) < base && SkipPrefix(s, base) == s
    ensures var value: int := Accumulate(s, base, 0);
            && Strtol(s, base) == (if value <= 0x7FFF_FFFF_FFFF_FFFF then value else 0x7FFF_FFFF_FFFF_FFFF)
            && Strtol([45] + s, base) == (if value <= 0x8000_0000_0000_0000 then -value else -0x8000_0000_0000_0000)
  {
    assert ([45] + s)[1..] == s;
  }

  /** A sign in front of a digit: '+' changes nothing, '-' negates, both up to the range of a long. */
  lemma SignIsRead(s: Bytes, base: Base)
    requires s != [] && DigitValue(s[0]) < base
    ensures Strtol([43] + s, base) == Strtol(s, base)
    ensures -0x8000_0000_0000_0000 < Strtol(s, base) < 0x7FFF_FFFF_FFFF_FFFF ==>
              Strtol([45] + s, base) == -Strtol(s, base)
    ensures 0 <= Strtol(s, base) <= 0x7FFF_FFFF_FFFF_FFFF
    ensures -0x8000_0000_0000_0000 <= Strtol([45] + s, base) <= 0
  {
    assert ([43] + s)[1..] == s && ([45] + s)[1..] == s;
    assert !IsSpace(s[0]) && s[0] !in {MINUS, PLUS};
  }

  /** What the digit characters are worth, and that nothing else is a digit. */
  lemma DigitsInCharacters(c: Byte)
    ensures DigitValue(c) < 10 <==> '0' as int <= c <= '9' as int
    ensures DigitValue(c) < 10 ==> DigitValue(c) == c - '0' as int
    ensures 10 <= DigitValue(c) < 16 <==> 'a' as int <= c <= 'f' as int || 'A' as int <= c <= 'F' as int
    ensures 'a' as int <= c <= 'f' as int ==> DigitValue(c) == c - 'a' as int + 10
    ensures 'A' as int <= c <= 'F' as int ==> DigitValue(c) == c - 'A' as int + 10
  {
  }

  /** What is printed in base 16 consists of decimal digits and small letters up to 'f'. */
  lemma {:induction false} PrintedInLowerCase(u: nat)
    ensures forall c :: c in Digits(u, 16) ==> '0' as int <= c <= '9' as int || 'a' as int <= c <= 'f' as int
    decreases u
  {
    if u >= 16 {
      PrintedInLowerCase(u / 16);
    }
  }

  // ---------------------------------------------------------------- round trips

  lemma {:induction false} SkipPadding(n: nat, s: Bytes)
    ensures SkipSpaces(Repeat(SPACE, n) + s) == SkipSpaces(s)
  {
    if n == 0 {
      assert Repeat(SPACE, 0) + s == s;
    } else {
      assert (Repeat(SPACE, n) + s)[1..] == Repeat(SPACE, n - 1) + s;
      SkipPadding(n - 1, s);
    }
  }

  predicate CompletesPrefix(rest: Bytes) {
    |rest| >= 2 && rest[0] in {LOWER_X, UPPER_X} && DigitValue(rest[1]) < 16
  }

  /** The bytes after the eight do not spoil the number: no further hex digit comes first, and if they
      complete a lone zero to a `0x` prefix, the number behind it is zero as well. */
  predicate Stops(n: int, rest: Bytes) {
    rest == [] ||
    (DigitValue(rest[0]) >= 16 &&
     (n == 0 && CompletesPrefix(rest) ==> ToInt32(Clamp(Accumulate(rest[1..], 16, 0))) == 0))
  }

  /** `strtol` in base 16, cut to an int, inverts `%8x` for every 32-bit int, negative ones too. */
  lemma StrtolInvertsHex8(n: int, rest: Bytes)
    requires IsInt32(n) && Stops(n, rest)
    ensures ToInt32(Strtol(Hex8(n) + rest, 16)) == n
  {
    if n == 0 && CompletesPrefix(rest) {
      ZeroWithPrefix(rest);
    } else {
      HexIsReadThrough(n, rest);
      AccumulateDigits(ToUnsigned(n), 16, rest);
      BackToInt32(n);
    }
  }

  /** Where no prefix is completed, the eight characters and whatever digits follow make one number. */
  lemma HexIsReadThrough(n: int, rest: Bytes)
    requires IsInt32(n) && !(n == 0 && CompletesPrefix(rest))
    ensures Strtol(Hex8(n) + rest, 16) == Clamp(Accumulate(Digits(ToUnsigned(n), 16) + rest, 16, 0))
  {
    var digits := Digits(ToUnsigned(n), 16);
    AnyIntFitsEight(n);
    Reassociate(Repeat(SPACE, 8 - |digits|), digits, rest);
    assert digits[0] in digits;
    NoPrefix(digits, n, rest);
    StrtolOfHexNumeral(8 - |digits|, digits + rest);
  }

  lemma ZeroWithPrefix(rest: Bytes)
    requires CompletesPrefix(rest)
    ensures Strtol(Hex8(0) + rest, 16) == Clamp(Accumulate(rest[1..], 16, 0))
  {
    assert Digits(0, 16) == [ZERO];
    Reassociate(Repeat(SPACE, 7), [ZERO], rest);
    SkipPadding(7, [ZERO] + rest);
    assert SkipSpaces([ZERO] + rest) == [ZERO] + rest;
    assert ([ZERO] + rest)[2..] == rest[1..];
  }

  /** The exact condition on what follows: every 32-bit int is read back right exactly if the bytes
      behind the eight stop the scan. */
  lemma StrtolInvertsHex8Iff(rest: Bytes)
    ensures (forall n :: IsInt32(n) ==> ToInt32(Strtol(Hex8(n) + rest, 16)) == n) <==> Stops(0, rest)
  {
    if Stops(0, rest) {
      forall n | IsInt32(n) ensures ToInt32(Strtol(Hex8(n) + rest, 16)) == n {
        StrtolInvertsHex8(n, rest);
      }
    } else if DigitValue(rest[0]) < 16 {
      ExtraDigitMisreads(rest);
    } else {
      ZeroWithPrefix(rest);
      assert IsInt32(0);
    }
  }

  /** A further digit shifts 0 and 1 to numbers of the same parity. */
  lemma ExtraDigitMisreads(rest: Bytes)
    requires rest != [] && DigitValue(rest[0]) < 16
    ensures ToInt32(Strtol(Hex8(0) + rest, 16)) != 0 || ToInt32(Strtol(Hex8(1) + rest, 16)) != 1
  {
    HexIsReadThrough(0, rest);
    HexIsReadThrough(1, rest);
    AccumulateDigits(0, 16, rest);
    AccumulateDigits(1, 16, rest);
    SameParity(rest[1..], DigitValue(rest[0]), 16 + DigitValue(rest[0]));
    ParityDecides(Accumulate(rest, 16, 0), Accumulate(rest, 16, 1));
  }

  lemma {:induction false} SameParity(s: Bytes, a: nat, b: nat)
    requires a % 2 == b % 2
    ensures Accumulate(s, 16, a) % 2 == Accumulate(s, 16, b) % 2
  {
    if s != [] && DigitValue(s[0]) < 16 {
      ShiftedParity(a, DigitValue(s[0]));
      ShiftedParity(b, DigitValue(s[0]));
      SameParity(s[1..], a * 16 + DigitValue(s[0]), b * 16 + DigitValue(s[0]));
    }
  }

  lemma ShiftedParity(a: nat, d: nat)
    ensures (a * 16 + d) % 2 == d % 2
  {
    assert a * 16 + d == 2 * (8 * a) + d;
  }

  /** Cutting to an int keeps the parity, and a number too long for a long is read as -1. */
  lemma ParityDecides(a: nat, b: nat)
    requires a % 2 == b % 2
    ensures ToInt32(Clamp(a)) != 0 || ToInt32(Clamp(b)) != 1
  {
    CutKeepsParity(Clamp(a));
    CutKeepsParity(Clamp(b));
  }

  lemma CutKeepsParity(n: nat)
    ensures ToInt32(n) % 2 == n % 2
    ensures n == LONG_MAX ==> ToInt32(n) == -1
  {
    var q := n / TWO_32;
    assert n == TWO_32 * q + n % TWO_32;
  }

  lemma BackToInt32(n: int)
    requires IsInt32(n)
    ensures ToInt32(ToUnsigned(n)) == n
    ensures n >= 0 ==> ToUnsigned(n) == n
  {
  }

  lemma NoPrefix(digits: Bytes, n: int, rest: Bytes)
    requires digits != [] && DigitValue(digits[0]) < 16 && !(n == 0 && CompletesPrefix(rest))
    requires digits[0] == ZERO ==> digits == [ZERO] && n == 0
    ensures SkipPrefix(digits + rest, 16) == digits + rest
  {
    if digits[0] == ZERO && |rest| >= 2 {
      assert (digits + rest)[1] == rest[0] && (digits + rest)[2] == rest[1];
    }
  }

  lemma StrtolOfHexNumeral(padding: nat, numeral: Bytes)
    requires numeral != [] && DigitValue(numeral[0]) < 16 && SkipPrefix(numeral, 16) == numeral
    ensures Strtol(Repeat(SPACE, padding) + numeral, 16) == Clamp(Accumulate(numeral, 16, 0))
  {
    SkipPadding(padding, numeral);
    assert SkipSpaces(numeral) == numeral;
  }

  /** The second half of `Stops` is needed: after a zero, `x` and a digit are read as a prefix. */
  lemma ZeroFollowedByPrefixMisreads()
    ensures Strtol(Hex8(0) + ['x' as int, '1' as int], 16) == 1
  {
    var t := [ZERO, LOWER_X, ZERO + 1];
    assert Hex8(0) + [LOWER_X, ZERO + 1] == Repeat(SPACE, 7) + t;
    SkipPadding(7, t);
    assert SkipPrefix(t, 16) == [ZERO + 1];
    assert Accumulate([ZERO + 1], 16, 0) == Accumulate([], 16, 1);
  }

  lemma StrtolOfNumeral(numeral: Bytes)
    requires numeral != [] && DigitValue(numeral[0]) < 10
    ensures Strtol(numeral, 10) == Clamp(Accumulate(numeral, 10, 0))
    ensures Strtol([MINUS] + numeral, 10) == Clamp(0 - Accumulate(numeral, 10, 0))
  {
    assert ([MINUS] + numeral)[1..] == numeral;
  }

  lemma ToInt32Keeps(n: int)
    requires IsInt32(n)
    ensures ToInt32(n) == n
  {
  }

  lemma AtoiOfNumeral(numeral: Bytes)
    requires numeral != [] && DigitValue(numeral[0]) < 10
    requires IsInt32(Accumulate(numeral, 10, 0))
    ensures Atoi(numeral) == Accumulate(numeral, 10, 0)
  {
    var value := Accumulate(numeral, 10, 0);
    StrtolOfNumeral(numeral);
    ToInt32Keeps(value);
  }

  lemma AtoiInvertsDecimal(n: int, rest: Bytes)
    requires IsInt32(n) && (rest == [] || DigitValue(rest[0]) >= 10)
    ensures Atoi(Decimal(n) + rest) == n
  {
    var m := if n < 0 then -n else n;
    var digits := Digits(m, 10);
    assert digits[0] in digits;
    assert (digits + rest)[0] == digits[0];
    AccumulateDigits(m, 10, rest);
    StrtolOfNumeral(digits + rest);
    Reassociate([MINUS], digits, rest);
    ToInt32Keeps(n);
  }

  lemma AtoiOfDecimal(n: int)
    requires IsInt32(n)
    ensures Atoi(Decimal(n)) == n
  {
    AtoiInvertsDecimal(n, []);
    assert Decimal(n) + [] == Decimal(n);
  }
}
