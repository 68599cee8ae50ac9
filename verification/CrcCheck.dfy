/** Which of the checksums with this polynomial it is: where the register starts, and the check value. */
module CrcCheck {
  import opened Bytes
  import opened BitString
  import opened Crc16
  import opened CrcOrder

  function Full(n: nat): (s: seq<bool>)
    ensures |s| == n
  {
    seq(n, _ => true)
  }

  /** The register starts with all bits on. */
  lemma StartsFull(p: seq<byte>)
    ensures Bits(Crc(p), 16) == Clocks(Full(16), BitsOf(p))
  {
    hide Bits, From, Clocks;
    FromIsClocks(INITIAL, p);
    assert Pow2(16) == 0x1_0000 by { assert Pow2(8) == 0x100; Pow2Add(8, 8); }
    BitsOfOnes(16);
  }

  // ---- Four bits at a time ----

  /** One bit of the register after four message bits. */
  predicate FourClockBit(s: Register, m: seq<bool>, i: nat)
    requires |m| == 4
  {
    (i < 12 && s[i + 4]) !=
    ((i < 4 && s[i] != m[i]) != ((7 <= i < 11 && s[i - 7] != m[i - 7]) != (12 <= i < 16 && s[i - 12] != m[i - 12])))
  }

  predicate BitAfterTwo(s: Register, a: bool, b: bool, i: nat) {
    (i < 14 && s[i + 2]) != (((s[0] != a) && InPolynomial(i + 1)) != ((s[1] != b) && InPolynomial(i)))
  }

  lemma TwoClocks(s: Register, a: bool, b: bool)
    ensures forall i: nat | i < 16 :: Clock(Clock(s, a), b)[i] == BitAfterTwo(s, a, b, i)
  {
    var u := Clock(s, a);
    var t := Clock(u, b);
    assert u[0] == s[1];
    forall i: nat | i < 16 ensures t[i] == BitAfterTwo(s, a, b, i) {
      if i < 15 { assert u[i + 1] == ((i + 1 < 15 && s[i + 2]) != ((s[0] != a) && InPolynomial(i + 1))); }
    }
  }

  lemma TwoAndTwo(s: Register, t: Register, m: seq<bool>, i: nat)
    requires |m| == 4 && i < 16 && forall k: nat | k < 16 :: t[k] == BitAfterTwo(s, m[0], m[1], k)
    ensures BitAfterTwo(t, m[2], m[3], i) == FourClockBit(s, m, i)
  {
    assert t[0] == s[2] && t[1] == s[3];
    if i < 14 { assert t[i + 2] == BitAfterTwo(s, m[0], m[1], i + 2); }
  }

  lemma FourClocks(s: Register, m: seq<bool>)
    requires |m| == 4
    ensures forall i: nat | i < 16 :: Clocks(s, m)[i] == FourClockBit(s, m, i)
  {
    FourTurns(s, m[0], m[1], m[2], m[3]);
    assert m == [m[0], m[1], m[2], m[3]];
    var t := Clock(Clock(s, m[0]), m[1]);
    TwoClocks(s, m[0], m[1]);
    TwoClocks(t, m[2], m[3]);
    hide Clock, Clocks, FourClockBit, BitAfterTwo;
    forall i: nat | i < 16 ensures Clocks(s, m)[i] == FourClockBit(s, m, i) {
      TwoAndTwo(s, t, m, i);
    }
  }

  lemma FourTurns(s: Register, a: bool, b: bool, c: bool, d: bool)
    ensures Clocks(s, [a, b, c, d]) == Clock(Clock(Clock(Clock(s, a), b), c), d)
  {
    hide Clock, Clocks;
    assert [a, b, c, d] == [a] + ([b] + ([c] + ([d] + [])));
    FirstThenRest(s, a, [b] + ([c] + ([d] + [])));
    FirstThenRest(Clock(s, a), b, [c] + ([d] + []));
    FirstThenRest(Clock(Clock(s, a), b), c, [d] + []);
    FirstThenRest(Clock(Clock(Clock(s, a), b), c), d, []);
    LastClock(Clock(Clock(Clock(Clock(s, a), b), c), d));
  }

  // ---- In hexadecimal ----

  predicate DigitAfter(s: Register, m: nat, i: nat, d: nat) {
    [FourClockBit(s, Digit(m), i), FourClockBit(s, Digit(m), i + 1),
     FourClockBit(s, Digit(m), i + 2), FourClockBit(s, Digit(m), i + 3)] == Digit(d)
  }

  lemma DigitAfterAt(s: Register, m: nat, i: nat, d: nat, k: nat)
    requires DigitAfter(s, m, i, d) && k < 4
    ensures FourClockBit(s, Digit(m), i + k) == Digit(d)[k]
  {
    hide FourClockBit, Digit;
  }

  lemma DigitFed(s: Register, m: nat, a: nat, b: nat, c: nat, d: nat)
    requires DigitAfter(s, m, 0, a) && DigitAfter(s, m, 4, b) && DigitAfter(s, m, 8, c) && DigitAfter(s, m, 12, d)
    ensures Clocks(s, Digit(m)) == Hex(a, b, c, d)
  {
    FourClocks(s, Digit(m));
    hide Clocks, FourClockBit, Digit, DigitAfter;
    var t := Hex(a, b, c, d);
    forall i: nat | i < 16 ensures Clocks(s, Digit(m))[i] == t[i] {
      DigitAfterAt(s, m, i / 4 * 4, if i < 4 then a else if i < 8 then b else if i < 12 then c else d, i % 4);
    }
  }

  lemma BitsOfDigit(d: nat)
    requires d < 16
    ensures Bits(d, 4) == Digit(d)
  {
    assert Bits(d / 8, 1) == Bits(d / 16, 0) + [d / 8 % 2 == 1];
    assert Bits(d / 4, 2) == Bits(d / 8, 1) + [d / 4 % 2 == 1];
    assert Bits(d / 2, 3) == Bits(d / 4, 2) + [d / 2 % 2 == 1];
  }

  lemma SixteenIsPower()
    ensures Pow2(4) == 16
  {
  }

  lemma Sixteens(h: nat, q: nat)
    requires q == 16
    ensures h * q == 16 * h
  {
  }

  lemma BitsOfByte(h: nat, l: nat)
    requires h < 16 && l < 16
    ensures Bits(16 * h + l, 8) == Digit(h) + Digit(l)
  {
    hide Bits, Digit, Pow2;
    SixteenIsPower();
    Sixteens(h, Pow2(4));
    BitsJoin(h, l, 4, 4);
    BitsOfDigit(h);
    BitsOfDigit(l);
  }

  /** A byte, and the rest of the message after it. */
  lemma ByteFed(s: Register, h: nat, l: nat, t: Register, rest: seq<byte>)
    requires h < 16 && l < 16 && Clocks(Clocks(s, Digit(h)), Digit(l)) == t
    ensures Clocks(s, BitsOf([16 * h + l] + rest)) == Clocks(t, BitsOf(rest))
  {
    hide Clocks, Digit, Bits;
    BitsOfByte(h, l);
    ClocksSplit(s, Digit(h), Digit(l));
    var p: seq<byte> := [16 * h + l] + rest;
    assert p[0] == 16 * h + l && p[1..] == rest;
    ClocksSplit(s, Bits(16 * h + l, 8), BitsOf(rest));
  }

  lemma Check12(rest: seq<byte>)
    ensures Clocks(Hex(0xF, 0xF, 0xF, 0xF), BitsOf([0x31, 0x32] + rest)) == Clocks(Hex(3, 0xD, 0xB, 0xA), BitsOf(rest))
  {
    hide Clocks, BitsOf;
    DigitFed(Hex(0xF, 0xF, 0xF, 0xF), 3, 3, 0xE, 7, 0xC);
    DigitFed(Hex(3, 0xE, 7, 0xC), 1, 0xC, 7, 8, 2);
    ByteFed(Hex(0xF, 0xF, 0xF, 0xF), 3, 1, Hex(0xC, 7, 8, 2), [0x32] + rest);
    DigitFed(Hex(0xC, 7, 8, 2), 3, 8, 9, 0xC, 0xF);
    DigitFed(Hex(8, 9, 0xC, 0xF), 2, 3, 0xD, 0xB, 0xA);
    ByteFed(Hex(0xC, 7, 8, 2), 3, 2, Hex(3, 0xD, 0xB, 0xA), rest);
    assert [0x31, 0x32] + rest == [0x31] + ([0x32] + rest);
  }

  lemma Check34(rest: seq<byte>)
    ensures Clocks(Hex(3, 0xD, 0xB, 0xA), BitsOf([0x33, 0x34] + rest)) == Clocks(Hex(5, 3, 4, 9), BitsOf(rest))
  {
    hide Clocks, BitsOf;
    DigitFed(Hex(3, 0xD, 0xB, 0xA), 3, 0xD, 0xB, 0xA, 0);
    DigitFed(Hex(0xD, 0xB, 0xA, 0), 3, 5, 0xB, 0xC, 0xE);
    ByteFed(Hex(3, 0xD, 0xB, 0xA), 3, 3, Hex(5, 0xB, 0xC, 0xE), [0x34] + rest);
    DigitFed(Hex(5, 0xB, 0xC, 0xE), 3, 0xD, 0xC, 2, 6);
    DigitFed(Hex(0xD, 0xC, 2, 6), 4, 5, 3, 4, 9);
    ByteFed(Hex(5, 0xB, 0xC, 0xE), 3, 4, Hex(5, 3, 4, 9), rest);
    assert [0x33, 0x34] + rest == [0x33] + ([0x34] + rest);
  }

  lemma Check56(rest: seq<byte>)
    ensures Clocks(Hex(5, 3, 4, 9), BitsOf([0x35, 0x36] + rest)) == Clocks(Hex(2, 0xE, 0xF, 4), BitsOf(rest))
  {
    hide Clocks, BitsOf;
    DigitFed(Hex(5, 3, 4, 9), 3, 5, 4, 5, 6);
    DigitFed(Hex(5, 4, 5, 6), 5, 4, 5, 6, 0);
    ByteFed(Hex(5, 3, 4, 9), 3, 5, Hex(4, 5, 6, 0), [0x36] + rest);
    DigitFed(Hex(4, 5, 6, 0), 3, 2, 6, 0xE, 7);
    DigitFed(Hex(2, 6, 0xE, 7), 6, 2, 0xE, 0xF, 4);
    ByteFed(Hex(4, 5, 6, 0), 3, 6, Hex(2, 0xE, 0xF, 4), rest);
    assert [0x35, 0x36] + rest == [0x35] + ([0x36] + rest);
  }

  lemma Check78(rest: seq<byte>)
    ensures Clocks(Hex(2, 0xE, 0xF, 4), BitsOf([0x37, 0x38] + rest)) == Clocks(Hex(0xA, 1, 2, 0xB), BitsOf(rest))
  {
    hide Clocks, BitsOf;
    DigitFed(Hex(2, 0xE, 0xF, 4), 3, 0xF, 0xF, 6, 1);
    DigitFed(Hex(0xF, 0xF, 6, 1), 7, 7, 7, 1, 8);
    ByteFed(Hex(2, 0xE, 0xF, 4), 3, 7, Hex(7, 7, 1, 8), [0x38] + rest);
    DigitFed(Hex(7, 7, 1, 8), 3, 3, 1, 0, 4);
    DigitFed(Hex(3, 1, 0, 4), 8, 0xA, 1, 2, 0xB);
    ByteFed(Hex(7, 7, 1, 8), 3, 8, Hex(0xA, 1, 2, 0xB), rest);
    assert [0x37, 0x38] + rest == [0x37] + ([0x38] + rest);
  }

  lemma Check9(rest: seq<byte>)
    ensures Clocks(Hex(0xA, 1, 2, 0xB), BitsOf([0x39] + rest)) == Clocks(Hex(2, 9, 0xB, 1), BitsOf(rest))
  {
    hide Clocks, BitsOf;
    DigitFed(Hex(0xA, 1, 2, 0xB), 3, 8, 3, 9, 9);
    DigitFed(Hex(8, 3, 9, 9), 9, 2, 9, 0xB, 1);
    ByteFed(Hex(0xA, 1, 2, 0xB), 3, 9, Hex(2, 9, 0xB, 1), rest);
  }

  const CHECK: seq<byte> := [0x31, 0x32, 0x33, 0x34, 0x35, 0x36, 0x37, 0x38, 0x39]

  /** The check value: "123456789" gives 0x29B1. */
  lemma CheckValue()
    ensures Crc(CHECK) == 0x29B1
  {
    hide Bits, From, Clocks, BitsOf;
    StartsFull(CHECK);
    FullIsHex();
    var r9 := [0x39] + [];
    var r7 := [0x37, 0x38] + r9;
    var r5 := [0x35, 0x36] + r7;
    var r3 := [0x33, 0x34] + r5;
    assert CHECK == [0x31, 0x32] + r3;
    Check12(r3);
    Check34(r5);
    Check56(r7);
    Check78(r9);
    Check9([]);
    Ends(Hex(2, 9, 0xB, 1));
    WordDigits();
    SameBits(Crc(CHECK), 0x29B1);
  }

  lemma FullIsHex()
    ensures Full(16) == Hex(0xF, 0xF, 0xF, 0xF)
  {
  }

  lemma Ends(s: Register)
    ensures Clocks(s, BitsOf([])) == s
  {
    LastClock(s);
  }

  lemma WordDigits()
    ensures Bits(0x29B1, 16) == Hex(2, 9, 0xB, 1)
  {
    hide Bits;
    assert Pow2(8) == 0x100;
    BitsJoin(0x29, 0xB1, 8, 8);
    BitsOfByte(2, 9);
    BitsOfByte(0xB, 1);
    assert Bits(0x29, 8) == Bits(16 * 2 + 9, 8) && Bits(0xB1, 8) == Bits(16 * 0xB + 1, 8);
  }

  /** What the start value is for: a zero byte put in front of a message does not go unnoticed. */
  lemma LeadingZeroNoticed(p: seq<byte>)
    ensures Crc([0] + p) != Crc(p)
  {
    hide Bits, From, Clocks, BitsOf;
    StartsFull([0] + p);
    StartsFull(p);
    FullIsHex();
    DigitFed(Hex(0xF, 0xF, 0xF, 0xF), 0, 0, 0xE, 1, 0xF);
    DigitFed(Hex(0, 0xE, 1, 0xF), 0, 0xE, 1, 0xF, 0);
    ByteFed(Hex(0xF, 0xF, 0xF, 0xF), 0, 0, Hex(0xE, 1, 0xF, 0), p);
    assert Hex(0xE, 1, 0xF, 0)[3] == Digit(0xE)[3];
    ClocksInjective(Hex(0xE, 1, 0xF, 0), Hex(0xF, 0xF, 0xF, 0xF), BitsOf(p));
  }
}
