/** The CRC of ACU-RRU frames (tools/rru_proto_check.c, rru_crc16): 16 bits, polynomial 0x1021, initial
    value 0xFFFF, most significant bit first.

    The C loops work on a uint16_t. Its bits, most significant first, form a shift register that is clocked
    once for each message bit; what the checksum detects is proved on the register. */
module Crc16 {
  import opened Bytes
  import opened BitString

  const INITIAL: u16 := 0xFFFF
  const POLYNOMIAL: u16 := 0x1021

  // ---- As computed ----

  function XorWord(a: u16, b: u16): u16 {
    assert Pow2(8) == 0x100 && Pow2(16) == 0x1_0000 by { Pow2Add(8, 8); }
    XorBound(a, b, 16);
    Xor(a, b)
  }

  /** `crc << 1`, with the polynomial folded in when the top bit falls out. */
  function ShiftOne(crc: u16): u16 {
    if crc >= 0x8000 then XorWord(2 * crc - 0x1_0000, POLYNOMIAL) else 2 * crc
  }

  function Shift(crc: u16, n: nat): u16
    decreases n
  {
    if n == 0 then crc else Shift(ShiftOne(crc), n - 1)
  }

  function AddByte(crc: u16, p: byte): u16 {
    Shift(XorWord(crc, p as int * 0x100), 8)
  }

  function From(crc: u16, p: seq<byte>): u16
    decreases |p|
  {
    if p == [] then crc else From(AddByte(crc, p[0]), p[1..])
  }

  function Crc(p: seq<byte>): u16 {
    From(INITIAL, p)
  }

  method ComputeCrc(p: seq<byte>) returns (crc: u16)
    ensures crc == Crc(p)
  {
    hide XorWord;
    crc := INITIAL;
    for i := 0 to |p|
      invariant From(crc, p[i..]) == Crc(p)
    {
      ghost var next := AddByte(crc, p[i]);
      crc := XorWord(crc, p[i] as int * 0x100);
      for b := 0 to 8
        invariant Shift(crc, 8 - b) == next
      {
        crc := if crc >= 0x8000 then XorWord(2 * crc - 0x1_0000, POLYNOMIAL) else 2 * crc;
      }
      assert p[i..][1..] == p[i + 1..];
    }
  }

  // ---- As a register of bits ----

  type Register = s: seq<bool> | |s| == 16 witness seq(16, _ => false)

  function XorBits(a: seq<bool>, b: seq<bool>): (s: seq<bool>)
    requires |a| == |b|
    ensures |s| == |a|
    ensures forall i | 0 <= i < |s| :: s[i] == (a[i] != b[i])
  {
    seq(|a|, i requires 0 <= i < |a| => a[i] != b[i])
  }

  /** 0x1021: the terms x^12, x^5 and 1. */
  predicate InPolynomial(i: nat) {
    i == 3 || i == 10 || i == 15
  }

  /** One message bit goes in at the top; what falls out folds the polynomial in. */
  function Clock(s: Register, bit: bool): (t: Register)
    ensures forall i: nat | i < 16 :: t[i] == ((i < 15 && s[i + 1]) != ((s[0] != bit) && InPolynomial(i)))
  {
    seq(16, i requires 0 <= i < 16 => (i < 15 && s[i + 1]) != ((s[0] != bit) && InPolynomial(i)))
  }

  function Clocks(s: Register, m: seq<bool>): Register
    decreases |m|
  {
    if m == [] then s else Clocks(Clock(s, m[0]), m[1..])
  }

  lemma {:induction false} ClocksSplit(s: Register, a: seq<bool>, b: seq<bool>)
    ensures Clocks(s, a + b) == Clocks(Clocks(s, a), b)
    decreases |a|
  {
    if a == [] {
      assert a + b == b;
    } else {
      assert (a + b)[1..] == a[1..] + b;
      ClocksSplit(Clock(s, a[0]), a[1..], b);
    }
  }

  /** Two different registers stay different under the same message: the polynomial has the term 1. */
  lemma ClockInjective(s: Register, t: Register, bit: bool)
    requires Clock(s, bit) == Clock(t, bit)
    ensures s == t
  {
    var c, d := Clock(s, bit), Clock(t, bit);
    assert c[15] == (s[0] != bit) && d[15] == (t[0] != bit);
    forall i | 1 <= i < 16 ensures s[i] == t[i] {
      assert c[i - 1] == d[i - 1];
    }
  }

  lemma {:induction false} ClocksInjective(s: Register, t: Register, m: seq<bool>)
    requires s != t
    ensures Clocks(s, m) != Clocks(t, m)
    decreases |m|
  {
    if m != [] {
      if Clock(s, m[0]) == Clock(t, m[0]) { ClockInjective(s, t, m[0]); }
      ClocksInjective(Clock(s, m[0]), Clock(t, m[0]), m[1..]);
    }
  }

  /** Up to 16 bits at the top of an otherwise clear register. */
  function AtTop(e: seq<bool>): (s: Register)
    requires |e| <= 16
  {
    e + Off(16 - |e|)
  }

  lemma TopBit(s: Register, e: seq<bool>)
    requires 1 <= |e| <= 16
    ensures Clock(XorBits(s, AtTop(e)), false) == XorBits(Clock(s, e[0]), AtTop(e[1..]))
  {
    var l, r := Clock(XorBits(s, AtTop(e)), false), XorBits(Clock(s, e[0]), AtTop(e[1..]));
    forall i: nat | i < 16 ensures l[i] == r[i] {
      if i < 15 { assert AtTop(e)[i + 1] == AtTop(e[1..])[i]; }
    }
  }

  /** Clocking bits in one at a time is the same as folding them all in at once and then clocking. */
  lemma {:induction false} Preload(s: Register, e: seq<bool>)
    requires |e| <= 16
    ensures Clocks(s, e) == Clocks(XorBits(s, AtTop(e)), Off(|e|))
    decreases |e|
  {
    if e == [] {
      assert XorBits(s, AtTop(e)) == s;
    } else {
      TopBit(s, e);
      Preload(Clock(s, e[0]), e[1..]);
      assert Off(|e|)[1..] == Off(|e| - 1) && !Off(|e|)[0];
    }
  }

  // ---- What it detects ----

  /** Messages that differ somewhere, but only within 16 consecutive bits, end in different registers. */
  lemma {:induction false} BurstDetected(s: Register, m: seq<bool>, m': seq<bool>, j: nat)
    requires |m| == |m'| && m != m'
    requires forall i | 0 <= i < |m| && m[i] != m'[i] :: j <= i < j + 16
    ensures Clocks(s, m) != Clocks(s, m')
    decreases |m|
  {
    if j > 0 {
      assert m[0] == m'[0];
      assert m == [m[0]] + m[1..] && m' == [m'[0]] + m'[1..];
      BurstDetected(Clock(s, m[0]), m[1..], m'[1..], j - 1);
    } else {
      var k := if |m| < 16 then |m| else 16;
      assert m == m[..k] + m[k..] && m' == m'[..k] + m'[k..];
      assert m[k..] == m'[k..];
      WindowDetected(s, m[..k], m'[..k]);
      ClocksSplit(s, m[..k], m[k..]);
      ClocksSplit(s, m'[..k], m'[k..]);
      ClocksInjective(Clocks(s, m[..k]), Clocks(s, m'[..k]), m[k..]);
    }
  }

  lemma WindowDetected(s: Register, e: seq<bool>, e': seq<bool>)
    requires |e| == |e'| <= 16 && e != e'
    ensures Clocks(s, e) != Clocks(s, e')
  {
    Preload(s, e);
    Preload(s, e');
    var t, t' := XorBits(s, AtTop(e)), XorBits(s, AtTop(e'));
    var i :| 0 <= i < |e| && e[i] != e'[i];
    assert t[i] != t'[i];
    ClocksInjective(t, t', Off(|e|));
  }

  predicate Parity(s: seq<bool>) {
    s != [] && Parity(s[..|s| - 1]) != s[|s| - 1]
  }

  lemma {:induction false} ParityXor(a: seq<bool>, b: seq<bool>)
    requires |a| == |b|
    ensures Parity(XorBits(a, b)) == (Parity(a) != Parity(b))
  {
    if a != [] {
      var n := |a| - 1;
      assert XorBits(a, b)[..n] == XorBits(a[..n], b[..n]);
      ParityXor(a[..n], b[..n]);
    }
  }

  lemma {:induction false} ParityConcat(a: seq<bool>, b: seq<bool>)
    ensures Parity(a + b) == (Parity(a) != Parity(b))
  {
    if b == [] {
      assert a + b == a;
    } else {
      var n := |b| - 1;
      assert (a + b)[..|a + b| - 1] == a + b[..n];
      ParityConcat(a, b[..n]);
    }
  }

  function PolynomialIf(on: bool): (s: Register)
    ensures forall i: nat | i < 16 :: s[i] == (on && InPolynomial(i))
  {
    seq(16, i requires 0 <= i < 16 => on && InPolynomial(i))
  }

  /** It has three terms below x^16. */
  lemma PolynomialParity(on: bool)
    ensures Parity(PolynomialIf(on)) == on
  {
    var p := PolynomialIf(on);
    assert p[..4] == Off(3) + [on] && p[4..11] == Off(6) + [on] && p[11..] == Off(4) + [on];
    OffParity(3);
    OffParity(6);
    OffParity(4);
    ParityLast(Off(3), on);
    ParityLast(Off(6), on);
    ParityLast(Off(4), on);
    ParityConcat(p[..4], p[4..11]);
    ParityConcat(p[..4] + p[4..11], p[11..]);
    assert p == p[..4] + p[4..11] + p[11..];
  }

  lemma ParityLast(s: seq<bool>, b: bool)
    ensures Parity(s + [b]) == (Parity(s) != b)
  {
    assert (s + [b])[..|s|] == s;
  }

  lemma ClockParity(s: Register, bit: bool)
    ensures Parity(Clock(s, bit)) == (Parity(s) != bit)
  {
    var shifted, p := s[1..] + [false], PolynomialIf(s[0] != bit);
    assert Clock(s, bit) == XorBits(shifted, p);
    ParityXor(shifted, p);
    PolynomialParity(s[0] != bit);
    ParityLast(s[1..], false);
    ParityConcat([s[0]], s[1..]);
    ParityLast([], s[0]);
    assert s == [s[0]] + s[1..] && [] + [s[0]] == [s[0]];
  }

  lemma {:induction false} OffParity(n: nat)
    ensures !Parity(Off(n))
  {
    if n > 0 {
      assert Off(n)[..n - 1] == Off(n - 1);
      OffParity(n - 1);
    }
  }

  lemma {:induction false} ClocksParity(s: Register, m: seq<bool>)
    ensures Parity(Clocks(s, m)) == (Parity(s) != Parity(m))
    decreases |m|
  {
    if m != [] {
      ClockParity(s, m[0]);
      ClocksParity(Clock(s, m[0]), m[1..]);
      ParityConcat([m[0]], m[1..]);
      assert m == [m[0]] + m[1..];
    }
  }

  /** Any odd number of altered bits ends in a different register. */
  lemma OddErrorsDetected(s: Register, m: seq<bool>, m': seq<bool>)
    requires |m| == |m'| && Parity(XorBits(m, m'))
    ensures Clocks(s, m) != Clocks(s, m')
  {
    ParityXor(m, m');
    ClocksParity(s, m);
    ClocksParity(s, m');
  }

  lemma ClockFlips(s: Register)
    ensures XorBits(Clock(s, true), PolynomialIf(true)) == XorBits(Clock(s, false), Off(16))
  {
    var l, r := XorBits(Clock(s, true), PolynomialIf(true)), XorBits(Clock(s, false), Off(16));
    forall i: nat | i < 16 ensures l[i] == r[i] {
      assert Clock(s, true)[i] == (Clock(s, false)[i] != InPolynomial(i));
    }
  }

  lemma FirstThenRest(s: Register, b: bool, m: seq<bool>)
    ensures Clocks(s, [b] + m) == Clocks(Clock(s, b), m)
  {
    assert ([b] + m)[1..] == m;
  }

  /** Sixteen is the limit: the polynomial itself, 17 bits long, goes unnoticed wherever it strikes. */
  lemma SeventeenBitsCanPass(s: Register, tail: seq<bool>)
    ensures Clocks(s, [true] + PolynomialIf(true) + tail) == Clocks(s, [false] + Off(16) + tail)
  {
    hide Clock, InPolynomial, PolynomialIf, Clocks;
    var p := PolynomialIf(true);
    FirstThenRest(s, true, p);
    FirstThenRest(s, false, Off(16));
    Preload(Clock(s, true), p);
    Preload(Clock(s, false), Off(16));
    assert AtTop(p) == p && AtTop(Off(16)) == Off(16);
    ClockFlips(s);
    ClocksSplit(s, [true] + p, tail);
    ClocksSplit(s, [false] + Off(16), tail);
  }

  // ---- The register is what is computed ----

  lemma {:induction false} BitsOfXor(a: nat, b: nat, n: nat)
    ensures Bits(Xor(a, b), n) == XorBits(Bits(a, n), Bits(b, n))
  {
    if n > 0 {
      XorHalves(a, b);
      BitsOfXor(a / 2, b / 2, n - 1);
      SumParity(a, b);
    }
  }

  lemma SumParity(a: nat, b: nat)
    ensures ((a + b) % 2 == 1) == ((a % 2 == 1) != (b % 2 == 1))
  {
  }

  lemma OneAndTwo()
    ensures Bits(1, 4) == Off(3) + [true] && Bits(2, 4) == Off(2) + [true, false]
  {
    BitsOfZero(3);
    BitsOfZero(2);
    assert Bits(1, 3) == Bits(0, 2) + [true];
  }

  lemma BitsOfPolynomial()
    ensures Bits(POLYNOMIAL, 16) == PolynomialIf(true)
  {
    hide Bits;
    assert Pow2(4) == 0x10;
    BitsJoin(1, 0, 4, 4);
    BitsJoin(0x10, 2, 8, 4);
    BitsJoin(0x102, 1, 12, 4);
    BitsOfZero(4);
    OneAndTwo();
  }

  lemma DoubledBits(x: nat, n: nat)
    ensures Bits(2 * x, n + 1) == Bits(x, n) + [false]
  {
  }

  /** One turn of the inner loop is one clock of the register. */
  lemma ShiftIsClock(crc: u16)
    ensures Bits(ShiftOne(crc), 16) == Clock(Bits(crc, 16), false)
  {
    hide Bits, Xor;
    var high, low := crc / 0x8000, crc % 0x8000;
    HighBit(crc);
    DoubledBits(low, 15);
    if crc >= 0x8000 {
      BitsOfXor(2 * low, POLYNOMIAL, 16);
      BitsOfPolynomial();
    }
  }

  lemma HighBit(crc: u16)
    ensures Bits(crc, 16) == [crc >= 0x8000] + Bits(crc % 0x8000, 15)
  {
    assert Pow2(15) == 0x8000 by { assert Pow2(7) == 0x80 && Pow2(8) == 0x100; Pow2Add(7, 8); }
    BitsJoin(crc / 0x8000, crc % 0x8000, 1, 15);
    assert Bits(crc / 0x8000, 1) == Bits(crc / 0x8000 / 2, 0) + [crc / 0x8000 % 2 == 1];
  }

  lemma {:induction false} ShiftIsClocks(crc: u16, n: nat)
    ensures Bits(Shift(crc, n), 16) == Clocks(Bits(crc, 16), Off(n))
    decreases n
  {
    hide Bits, ShiftOne;
    if n > 0 {
      ShiftIsClock(crc);
      ShiftIsClocks(ShiftOne(crc), n - 1);
      assert Off(n)[1..] == Off(n - 1) && !Off(n)[0];
    }
  }

  /** A byte of the C loop is eight message bits. */
  lemma ByteIsClocks(crc: u16, p: byte)
    ensures Bits(AddByte(crc, p), 16) == Clocks(Bits(crc, 16), Bits(p, 8))
  {
    hide Bits, Xor, Shift;
    BitsOfXor(crc, p as int * 0x100, 16);
    BitsJoin(p, 0, 8, 8);
    BitsOfZero(8);
    assert Pow2(8) == 0x100;
    assert Bits(p as int * 0x100, 16) == AtTop(Bits(p, 8));
    ShiftIsClocks(XorWord(crc, p as int * 0x100), 8);
    Preload(Bits(crc, 16), Bits(p, 8));
  }

  lemma {:induction false} FromIsClocks(crc: u16, p: seq<byte>)
    ensures Bits(From(crc, p), 16) == Clocks(Bits(crc, 16), BitsOf(p))
    decreases |p|
  {
    hide Bits, AddByte;
    if p != [] {
      ByteIsClocks(crc, p[0]);
      FromIsClocks(AddByte(crc, p[0]), p[1..]);
      ClocksSplit(Bits(crc, 16), Bits(p[0], 8), BitsOf(p[1..]));
    }
  }

  lemma {:induction false} FromSplit(crc: u16, a: seq<byte>, b: seq<byte>)
    ensures From(crc, a + b) == From(From(crc, a), b)
    decreases |a|
  {
    hide AddByte;
    if a == [] {
      assert a + b == b;
    } else {
      assert (a + b)[1..] == a[1..] + b;
      FromSplit(AddByte(crc, a[0]), a[1..], b);
    }
  }

  lemma {:induction false} ClearStaysClear(n: nat)
    ensures Clocks(Off(16), Off(n)) == Off(16)
  {
    if n > 0 {
      assert Clock(Off(16), false) == Off(16) && Off(n)[1..] == Off(n - 1);
      ClearStaysClear(n - 1);
    }
  }

  lemma XorClear(s: Register, e: Register)
    ensures XorBits(s, e) == Off(16) <==> s == e
  {
    if s != e {
      var i :| 0 <= i < 16 && s[i] != e[i];
      assert XorBits(s, e)[i];
    }
  }

  /** Clocking a word into a register clears it exactly when it is the register's own value. */
  lemma OwnValueClears(s: Register, e: Register)
    ensures Clocks(s, e) == Off(16) <==> s == e
  {
    hide Clocks, Clock, XorBits;
    Preload(s, e);
    assert AtTop(e) == e;
    ClearStaysClear(16);
    XorClear(s, e);
    if s != e { ClocksInjective(XorBits(s, e), Off(16), Off(16)); }
  }

  lemma SameBits(x: u16, y: u16)
    ensures Bits(x, 16) == Bits(y, 16) <==> x == y
  {
    hide Bits;
    assert Pow2(16) == 0x1_0000 by { assert Pow2(8) == 0x100; Pow2Add(8, 8); }
    if Bits(x, 16) == Bits(y, 16) { BitsInjective(x, y, 16); }
  }

  /** Running the checksum over its own value gives zero, and over any other value does not. */
  lemma Residue(crc: u16, got: u16)
    ensures From(crc, Be16(got)) == 0 <==> got == crc
  {
    hide Bits, From, Clocks;
    FromIsClocks(crc, Be16(got));
    BitsOfWord(got);
    OwnValueClears(Bits(crc, 16), Bits(got, 16));
    SameBits(crc, got);
    BitsOfZero(16);
    SameBits(From(crc, Be16(got)), 0);
  }

  // ---- What it detects, in bytes ----

  ghost predicate WithinBurst(m: seq<bool>, m': seq<bool>, j: nat)
    requires |m| == |m'|
  {
    forall i | 0 <= i < |m| && m[i] != m'[i] :: j <= i < j + 16
  }

  /** Altered, either within 16 consecutive bits or in an odd number of bits. */
  ghost predicate Detectable(p: seq<byte>, p': seq<byte>) {
    && |p| == |p'| && p != p'
    && ((exists j: nat :: WithinBurst(BitsOf(p), BitsOf(p'), j)) || Parity(XorBits(BitsOf(p), BitsOf(p'))))
  }

  /** Every detectable alteration changes the checksum, whatever the register held before. */
  lemma AlterationDetected(crc: u16, p: seq<byte>, p': seq<byte>)
    requires Detectable(p, p')
    ensures From(crc, p) != From(crc, p')
  {
    hide Bits, From;
    FromIsClocks(crc, p);
    FromIsClocks(crc, p');
    var m, m' := BitsOf(p), BitsOf(p');
    if m == m' { BitsOfInjective(p, p'); }
    if Parity(XorBits(m, m')) {
      OddErrorsDetected(Bits(crc, 16), m, m');
    } else {
      var j: nat :| WithinBurst(m, m', j);
      BurstDetected(Bits(crc, 16), m, m', j);
    }
  }

  /** One altered byte, or two next to each other, is always detectable. */
  lemma TwoBytesDetectable(p: seq<byte>, p': seq<byte>, k: nat)
    requires |p| == |p'| && p != p'
    requires forall i | 0 <= i < |p| && p[i] != p'[i] :: i == k || i == k + 1
    ensures Detectable(p, p')
  {
    forall i | 0 <= i < 8 * |p| && BitsOf(p)[i] != BitsOf(p')[i] ensures 8 * k <= i < 8 * k + 16 {
      BitOfByte(p, i);
      BitOfByte(p', i);
      assert p[i / 8] != p'[i / 8];
    }
    assert WithinBurst(BitsOf(p), BitsOf(p'), 8 * k);
  }
}
