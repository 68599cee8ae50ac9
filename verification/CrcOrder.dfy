/** How far apart two altered bits may lie for the CRC to notice them. Clocking the register multiplies it by
    x, modulo the polynomial; two altered bits go unnoticed when their distance is a multiple of the order
    of x, which is 32,767 = 7 * 31 * 151. */
module CrcOrder {
  import opened Bytes
  import opened BitString
  import opened Crc16

  // ---- The register is linear ----

  lemma ClockLinear(s: Register, t: Register, a: bool, b: bool)
    ensures XorBits(Clock(s, a), Clock(t, b)) == Clock(XorBits(s, t), a != b)
  {
    var l, r := XorBits(Clock(s, a), Clock(t, b)), Clock(XorBits(s, t), a != b);
    forall i: nat | i < 16 ensures l[i] == r[i] {
    }
  }

  /** The registers of two messages differ as their difference alone would leave a clear register. */
  lemma {:induction false} ClocksLinear(s: Register, t: Register, m: seq<bool>, m': seq<bool>)
    requires |m| == |m'|
    ensures XorBits(Clocks(s, m), Clocks(t, m')) == Clocks(XorBits(s, t), XorBits(m, m'))
    decreases |m|
  {
    if m != [] {
      hide Clock;
      ClockLinear(s, t, m[0], m'[0]);
      ClocksLinear(Clock(s, m[0]), Clock(t, m'[0]), m[1..], m'[1..]);
      assert XorBits(m, m')[1..] == XorBits(m[1..], m'[1..]);
    }
  }

  // ---- Powers of x ----

  function Times(s: Register): Register { Clock(s, false) }

  /** x^n, modulo the polynomial. */
  function Power(n: nat): Register {
    if n == 0 then Off(15) + [true] else Times(Power(n - 1))
  }

  lemma {:induction false} PowerClocks(m: nat, n: nat)
    ensures Clocks(Power(m), Off(n)) == Power(m + n)
    decreases n
  {
    hide Power, Times, Clocks;
    if n == 0 {
      assert Off(0) == [];
      LastClock(Power(m));
    } else {
      TimesIsClock(Power(m), n);
      PowerNext(m);
      PowerClocks(m + 1, n - 1);
    }
  }

  lemma LastClock(s: Register)
    ensures Clocks(s, []) == s
  {
  }

  lemma TimesIsClock(s: Register, n: nat)
    requires n > 0
    ensures Clocks(s, Off(n)) == Clocks(Times(s), Off(n - 1))
  {
    hide Clock;
    assert Off(n)[1..] == Off(n - 1);
  }

  lemma PowerNext(n: nat)
    ensures Power(n + 1) == Times(Power(n))
  {
    hide Times;
  }

  /** The bits of the square of a register: x^k becomes x^2k, modulo the polynomial. */
  predicate SquareBit(s: Register, i: nat) {
    match i
    case 0 => s[2]
    case 1 => s[2] != (s[4] != (s[6] != s[8]))
    case 2 => s[3]
    case 3 => s[3] != (s[5] != (s[7] != s[9]))
    case 4 => s[0] != (s[2] != s[4])
    case 5 => s[0] != (s[2] != s[10])
    case 6 => s[1] != (s[3] != s[5])
    case 7 => s[0] != (s[1] != (s[3] != s[11]))
    case 8 => s[0] != (s[2] != (s[4] != s[6]))
    case 9 => s[0] != (s[1] != (s[2] != (s[4] != s[12])))
    case 10 => s[1] != (s[3] != (s[5] != s[7]))
    case 11 => s[1] != (s[3] != (s[5] != s[13]))
    case 12 => s[0]
    case 13 => s[0] != (s[2] != (s[4] != (s[6] != s[14])))
    case 14 => s[1]
    case _ => s[1] != (s[3] != (s[5] != (s[7] != s[15])))
  }

  function Square(s: Register): (t: Register)
    ensures forall i: nat | i < 16 :: t[i] == SquareBit(s, i)
  {
    seq(16, i requires 0 <= i < 16 => SquareBit(s, i))
  }

  predicate TwiceBit(w: Register, i: nat) {
    (i < 14 && w[i + 2]) != ((w[0] && InPolynomial(i + 1)) != (w[1] && InPolynomial(i)))
  }

  lemma TwiceBits(w: Register)
    ensures forall i: nat | i < 16 :: Times(Times(w))[i] == TwiceBit(w, i)
  {
    forall i: nat | i < 16 ensures Times(Times(w))[i] == TwiceBit(w, i) {
      assert Times(w)[0] == w[1];
      if i < 15 { assert Times(w)[i + 1] == ((i + 1 < 15 && w[i + 2]) != (w[0] && InPolynomial(i + 1))); }
    }
  }

  lemma SquareTimesAt(s: Register, i: nat)
    requires i < 16
    ensures SquareBit(Times(s), i) == TwiceBit(Square(s), i)
  {
  }

  lemma SquareTimes(s: Register)
    ensures Square(Times(s)) == Times(Times(Square(s)))
  {
    var l, r := Square(Times(s)), Times(Times(Square(s)));
    TwiceBits(Square(s));
    hide Times, Square, SquareBit, TwiceBit;
    forall i: nat | i < 16 ensures l[i] == r[i] {
      SquareTimesAt(s, i);
    }
  }

  lemma {:induction false} PowerSquare(n: nat)
    ensures Power(2 * n) == Square(Power(n))
  {
    if n > 0 {
      hide Clock, Square;
      PowerSquare(n - 1);
      SquareTimes(Power(n - 1));
    }
  }

  // ---- Some powers ----

  function FourBits(s: Register, i: nat): (t: seq<bool>)
    ensures |t| == 4
  {
    [SquareBit(s, i), SquareBit(s, i + 1), SquareBit(s, i + 2), SquareBit(s, i + 3)]
  }

  predicate TimesBit(s: Register, i: nat) {
    (i < 15 && s[i + 1]) != (s[0] && InPolynomial(i))
  }

  function FourShifted(s: Register, i: nat): (t: seq<bool>)
    ensures |t| == 4
  {
    [TimesBit(s, i), TimesBit(s, i + 1), TimesBit(s, i + 2), TimesBit(s, i + 3)]
  }

  lemma FourShiftedAt(s: Register, i: nat, k: nat)
    requires k < 4 && i <= 12
    ensures FourShifted(s, i)[k] == Times(s)[i + k]
  {
  }

  lemma FourBitsAt(s: Register, i: nat, k: nat)
    requires k < 4 && i <= 12
    ensures FourBits(s, i)[k] == Square(s)[i + k]
  {
    hide SquareBit;
  }

  /** Four bits, as a hexadecimal digit. */
  function Digit(d: nat): (s: seq<bool>)
    ensures |s| == 4
  {
    [d % 16 >= 8, d % 8 >= 4, d % 4 >= 2, d % 2 == 1]
  }

  function Hex(a: nat, b: nat, c: nat, d: nat): Register {
    Digit(a) + Digit(b) + Digit(c) + Digit(d)
  }

  lemma {:induction false} LowPower(n: nat, t: Register)
    requires n < 16 && forall i: nat | i < 16 :: t[i] == (i == 15 - n)
    ensures Power(n) == t
  {
    if n > 0 {
      var s: Register := seq(16, i requires 0 <= i < 16 => i == 16 - n);
      LowPower(n - 1, s);
    }
  }

  lemma Stepped(n: nat, s: Register, a: nat, b: nat, c: nat, d: nat)
    requires Power(n) == s
    requires FourShifted(s, 0) == Digit(a) && FourShifted(s, 4) == Digit(b)
    requires FourShifted(s, 8) == Digit(c) && FourShifted(s, 12) == Digit(d)
    ensures Power(n + 1) == Hex(a, b, c, d)
  {
    hide Power, Times, FourShifted, Digit;
    PowerNext(n);
    var t := Hex(a, b, c, d);
    forall i: nat | i < 16 ensures Times(s)[i] == t[i] {
      FourShiftedAt(s, i / 4 * 4, i % 4);
    }
  }

  lemma Doubled(n: nat, s: Register, a: nat, b: nat, c: nat, d: nat)
    requires Power(n) == s
    requires FourBits(s, 0) == Digit(a) && FourBits(s, 4) == Digit(b)
    requires FourBits(s, 8) == Digit(c) && FourBits(s, 12) == Digit(d)
    ensures Power(2 * n) == Hex(a, b, c, d)
  {
    PowerSquare(n);
    hide Square, FourBits, Power, Digit;
    var t := Hex(a, b, c, d);
    forall i: nat | i < 16 ensures Square(s)[i] == t[i] {
      FourBitsAt(s, i / 4 * 4, i % 4);
    }
  }

  lemma PowerAt32()
    ensures Power(32) == Hex(3, 7, 3, 0)
  {
    hide Power;
    LowPower(8, Hex(0, 1, 0, 0));
    Doubled(8, Hex(0, 1, 0, 0), 1, 0, 2, 1);
    Doubled(16, Hex(1, 0, 2, 1), 3, 7, 3, 0);
  }

  lemma PowerAt128()
    ensures Power(128) == Hex(0xA, 0xE, 0xF, 0xC)
  {
    hide Power;
    PowerAt32();
    Doubled(32, Hex(3, 7, 3, 0), 0xB, 8, 6, 1);
    Doubled(64, Hex(0xB, 8, 6, 1), 0xA, 0xE, 0xF, 0xC);
  }

  lemma PowerAt512()
    ensures Power(512) == Hex(1, 3, 0xF, 0xC)
  {
    hide Power;
    PowerAt128();
    Doubled(128, Hex(0xA, 0xE, 0xF, 0xC), 8, 0xE, 2, 9);
    Doubled(256, Hex(8, 0xE, 2, 9), 1, 3, 0xF, 0xC);
  }

  lemma PowerAt2048()
    ensures Power(2048) == Hex(0xF, 0xD, 5, 0)
  {
    hide Power;
    PowerAt512();
    Doubled(512, Hex(1, 3, 0xF, 0xC), 3, 6, 0xC, 4);
    Doubled(1024, Hex(3, 6, 0xC, 4), 0xF, 0xD, 5, 0);
  }

  lemma PowerAt32768()
    ensures Power(32768) == Hex(0, 0, 0, 2)
  {
    hide Power;
    PowerAt2048();
    Doubled(2048, Hex(0xF, 0xD, 5, 0), 0xA, 0xA, 9, 0xE);
    Doubled(4096, Hex(0xA, 0xA, 9, 0xE), 8, 8, 1, 0xC);
    Doubled(8192, Hex(8, 8, 1, 0xC), 4, 4, 5, 8);
    Doubled(16384, Hex(4, 4, 5, 8), 0, 0, 0, 2);
  }

  lemma PowerAt54()
    ensures Power(54) == Hex(1, 1, 6, 8)
  {
    hide Power;
    LowPower(13, Hex(2, 0, 0, 0));
    Doubled(13, Hex(2, 0, 0, 0), 0xC, 0xC, 0xC, 4);
    Stepped(26, Hex(0xC, 0xC, 0xC, 4), 8, 9, 0xA, 9);
    Doubled(27, Hex(8, 9, 0xA, 9), 1, 1, 6, 8);
  }

  lemma PowerAt216()
    ensures Power(216) == Hex(0xA, 0xC, 6, 1)
  {
    hide Power;
    PowerAt54();
    Doubled(54, Hex(1, 1, 6, 8), 3, 7, 5, 0);
    Doubled(108, Hex(3, 7, 5, 0), 0xA, 0xC, 6, 1);
  }

  lemma PowerAt132()
    ensures Power(132) == Hex(4, 0xE, 8, 0xA)
  {
    hide Power;
    PowerAt32();
    Stepped(32, Hex(3, 7, 3, 0), 6, 0xE, 6, 0);
    Doubled(33, Hex(6, 0xE, 6, 0), 0xC, 1, 0xC, 6);
    Doubled(66, Hex(0xC, 1, 0xC, 6), 4, 0xE, 8, 0xA);
  }

  lemma PowerAt1056()
    ensures Power(1056) == Hex(0xF, 1, 4, 7)
  {
    hide Power;
    PowerAt132();
    Doubled(132, Hex(4, 0xE, 8, 0xA), 5, 9, 4, 6);
    Doubled(264, Hex(5, 9, 4, 6), 7, 8, 0xB, 3);
    Doubled(528, Hex(7, 8, 0xB, 3), 0xF, 1, 4, 7);
  }

  lemma PowerAt73()
    ensures Power(73) == Hex(8, 0xF, 0xA, 6)
  {
    hide Power;
    LowPower(9, Hex(0, 2, 0, 0));
    Doubled(9, Hex(0, 2, 0, 0), 4, 0, 8, 4);
    Doubled(18, Hex(4, 0, 8, 4), 4, 3, 6, 3);
    Doubled(36, Hex(4, 3, 6, 3), 4, 7, 0xD, 3);
    Stepped(72, Hex(4, 7, 0xD, 3), 8, 0xF, 0xA, 6);
  }

  lemma PowerAt585()
    ensures Power(585) == Hex(4, 5, 0, 0)
  {
    hide Power;
    PowerAt73();
    Doubled(73, Hex(8, 0xF, 0xA, 6), 4, 3, 8, 8);
    Doubled(146, Hex(4, 3, 8, 8), 1, 3, 9, 6);
    Doubled(292, Hex(1, 3, 9, 6), 2, 2, 8, 0);
    Stepped(584, Hex(2, 2, 8, 0), 4, 5, 0, 0);
  }

  lemma PowerAt4680()
    ensures Power(4680) == Hex(1, 6, 2, 1)
  {
    hide Power;
    PowerAt585();
    Doubled(585, Hex(4, 5, 0, 0), 0, 1, 6, 3);
    Doubled(1170, Hex(0, 1, 6, 3), 0, 4, 2, 4);
    Doubled(2340, Hex(0, 4, 2, 4), 1, 6, 2, 1);
  }

  lemma NotOneNext(n: nat, s: Register, i: nat)
    requires Power(n) == s && i < 15 && TimesBit(s, i)
    ensures Power(n + 1) != Power(0)
  {
    assert Times(s)[i] && !Power(0)[i];
  }

  lemma NotOne()
    ensures Power(217) != Power(0) && Power(1057) != Power(0) && Power(4681) != Power(0)
  {
    hide Power;
    PowerAt216();
    PowerAt1056();
    PowerAt4680();
    NotOneNext(216, Hex(0xA, 0xC, 6, 1), 1);
    NotOneNext(1056, Hex(0xF, 1, 4, 7), 0);
    NotOneNext(4680, Hex(1, 6, 2, 1), 2);
  }

  // ---- The order of x ----

  const ORDER := 32767

  lemma OffClocksInjective(s: Register, t: Register, n: nat)
    ensures Clocks(s, Off(n)) == Clocks(t, Off(n)) <==> s == t
  {
    if s != t { ClocksInjective(s, t, Off(n)); }
  }

  lemma EqualShift(m: nat, n: nat, k: nat)
    ensures Power(m + k) == Power(n + k) <==> Power(m) == Power(n)
  {
    PowerClocks(m, k);
    PowerClocks(n, k);
    OffClocksInjective(Power(m), Power(n), k);
  }

  predicate IsOne(n: nat) { Power(n) == Power(0) }

  lemma OneSum(m: nat, n: nat)
    requires IsOne(n)
    ensures IsOne(m + n) <==> IsOne(m)
  {
    EqualShift(n, 0, m);
  }

  lemma {:induction false} OneMultiple(k: nat, n: nat)
    requires IsOne(n)
    ensures IsOne(k * n)
  {
    if k > 0 {
      OneMultiple(k - 1, n);
      OneSum(n, (k - 1) * n);
      hide IsOne;
      assert k * n == n + (k - 1) * n;
    }
  }

  /** Whole multiples of a vanishing exponent can be left away. */
  lemma OneRest(m: nat, k: nat, n: nat, total: nat)
    requires IsOne(n) && total == m + k * n
    ensures IsOne(total) <==> IsOne(m)
  {
    OneMultiple(k, n);
    OneSum(m, k * n);
    hide IsOne;
  }

  predicate Prime(p: nat) {
    p > 1 && forall q: nat | 1 < q < p :: p % q != 0
  }

  lemma PrimeRest(p: nat, r: nat)
    requires Prime(p) && 1 < r < p
    ensures 0 < p % r < r
  {
  }

  /** If x^(c r) is 1 for some r short of the prime p, and x^(c p) is, then x^c is. */
  lemma {:induction false} Descend(p: nat, c: nat, r: nat, cp: nat, cr: nat)
    requires Prime(p) && 0 < r < p && cp == c * p && cr == c * r && IsOne(cp) && IsOne(cr)
    ensures IsOne(c)
    decreases r
  {
    hide IsOne, Prime;
    if r > 1 {
      PrimeRest(p, r);
      Divided(c, p, r);
      var rest := c * (p % r);
      OneRest(rest, p / r, cr, cp);
      Descend(p, c, p % r, cp, rest);
    }
  }

  lemma Divided(c: nat, p: nat, r: nat)
    requires r > 0
    ensures c * p == c * (p % r) + p / r * (c * r)
  {
    assert p == p / r * r + p % r;
  }

  lemma PrimeDivides(p: nat, c: nat, n: nat)
    requires Prime(p) && IsOne(c * p) && !IsOne(c) && IsOne(n)
    ensures n % p == 0
  {
    hide IsOne;
    if n % p != 0 {
      Divided(c, n, p);
      OneMultiple(c, n);
      OneRest(c * (n % p), n / p, c * p, c * n);
      Descend(p, c, n % p, c * p, c * (n % p));
    }
  }

  lemma Primes()
    ensures Prime(7) && Prime(31) && Prime(151)
  {
  }

  lemma By217(n: nat, a: nat, b: nat)
    requires n == 7 * a && n == 31 * b
    ensures n == 217 * (9 * b - 2 * a)
  {
  }

  lemma ByOrder(n: nat, a: int, b: nat)
    requires n == 217 * a && n == 151 * b
    ensures n == ORDER * (23 * a - 16 * b)
  {
  }

  lemma MultipleOf(n: nat, k: int)
    requires n == ORDER * k
    ensures n % ORDER == 0
  {
  }

  lemma Coprimes(n: nat)
    requires n % 7 == 0 && n % 31 == 0 && n % 151 == 0
    ensures n % ORDER == 0
  {
    var a, b, c := n / 7, n / 31, n / 151;
    By217(n, a, b);
    ByOrder(n, 9 * b - 2 * a, c);
    MultipleOf(n, 23 * (9 * b - 2 * a) - 16 * c);
  }

  lemma OneAtOrder()
    ensures IsOne(ORDER) && !IsOne(217) && !IsOne(1057) && !IsOne(4681)
  {
    hide Power;
    PowerAt32768();
    LowPower(1, Hex(0, 0, 0, 2));
    EqualShift(ORDER, 0, 1);
    NotOne();
  }

  /** x^n is 1 exactly at the multiples of 32,767. */
  lemma OrderIs(n: nat)
    ensures IsOne(n) <==> n % ORDER == 0
  {
    hide IsOne, Prime;
    OneAtOrder();
    if IsOne(n) {
      Primes();
      PrimeDivides(7, 4681, n);
      PrimeDivides(31, 1057, n);
      PrimeDivides(151, 217, n);
      Coprimes(n);
    } else if n % ORDER == 0 {
      OneMultiple(n / ORDER, ORDER);
    }
  }

  // ---- Two altered bits ----

  /** Where two messages of equal length differ: at the bits i and j and nowhere else. */
  ghost predicate OnlyAt(e: seq<bool>, i: nat, j: nat) {
    i < j < |e| && forall k | 0 <= k < |e| :: e[k] <==> k == i || k == j
  }

  lemma PolynomialIsPower(n: nat)
    requires n == 15
    ensures Power(n + 1) == PolynomialIf(true)
  {
    hide Power;
    LowPower(n, [true] + Off(15));
    PowerNext(n);
  }

  lemma Marked(s: Register)
    ensures Clock(s, true) == XorBits(Times(s), PolynomialIf(true))
    ensures Clock(Off(16), true) == PolynomialIf(true)
  {
  }

  /** A clear register that meets two bits d apart. */
  lemma TwoMarks(d: nat)
    requires d > 0
    ensures Clocks(Off(16), [true] + Off(d - 1) + [true]) == XorBits(Power(16 + d), PolynomialIf(true))
  {
    hide Power, Clock, Times;
    var m := Off(d - 1);
    FirstThenRest(Off(16), true, m);
    ClocksSplit(Off(16), [true] + m, [true]);
    Marked(Off(16));
    PolynomialIsPower(15);
    PowerClocks(16, d - 1);
    PowerNext(15 + d);
    Marked(Power(15 + d));
    FirstThenRest(Power(15 + d), true, []);
    hide Clocks;
    LastClock(Clock(Power(15 + d), true));
    assert [true] + [] == [true];
  }

  lemma ClearPrefix(n: nat, m: seq<bool>)
    ensures Clocks(Off(16), Off(n) + m) == Clocks(Off(16), m)
  {
    ClearStaysClear(n);
    ClocksSplit(Off(16), Off(n), m);
  }

  lemma ClearSuffix(m: seq<bool>, n: nat)
    ensures Clocks(Off(16), m + Off(n)) == Off(16) <==> Clocks(Off(16), m) == Off(16)
  {
    ClearStaysClear(n);
    ClocksSplit(Off(16), m, Off(n));
    OffClocksInjective(Clocks(Off(16), m), Off(16), n);
  }

  lemma PatternClears(e: seq<bool>, i: nat, j: nat)
    requires OnlyAt(e, i, j)
    ensures Clocks(Off(16), e) == Off(16) <==> (j - i) % ORDER == 0
  {
    hide Clocks, Power;
    var d := j - i;
    var marks := [true] + Off(d - 1) + [true];
    assert e == Off(i) + (marks + Off(|e| - j - 1));
    ClearPrefix(i, marks + Off(|e| - j - 1));
    ClearSuffix(marks, |e| - j - 1);
    TwoMarks(d);
    PolynomialIsPower(15);
    XorClear(Power(16 + d), PolynomialIf(true));
    EqualShift(d, 0, 16);
    OrderIs(d);
  }

  lemma DifferenceDecides(s: Register, m: seq<bool>, m': seq<bool>)
    requires |m| == |m'|
    ensures Clocks(s, m) == Clocks(s, m') <==> Clocks(Off(16), XorBits(m, m')) == Off(16)
  {
    hide Clocks;
    ClocksLinear(s, s, m, m');
    XorClear(s, s);
    XorClear(Clocks(s, m), Clocks(s, m'));
  }

  /** Two altered bits, however far apart, go unnoticed if and only if their distance is a multiple of 32,767. */
  lemma TwoBitsPass(s: Register, m: seq<bool>, m': seq<bool>, i: nat, j: nat)
    requires |m| == |m'| && OnlyAt(XorBits(m, m'), i, j)
    ensures Clocks(s, m) == Clocks(s, m') <==> (j - i) % ORDER == 0
  {
    DifferenceDecides(s, m, m');
    PatternClears(XorBits(m, m'), i, j);
  }

  // ---- Up to three altered bits ----

  function Ones(e: seq<bool>): nat {
    if e == [] then 0 else Ones(e[..|e| - 1]) + if e[|e| - 1] then 1 else 0
  }

  lemma {:induction false} ParityOfOnes(e: seq<bool>)
    ensures Parity(e) == (Ones(e) % 2 == 1)
  {
    if e != [] { ParityOfOnes(e[..|e| - 1]); }
  }

  lemma {:induction false} NoOnes(e: seq<bool>)
    requires Ones(e) == 0
    ensures forall k | 0 <= k < |e| :: !e[k]
  {
    if e != [] { NoOnes(e[..|e| - 1]); }
  }

  lemma {:induction false} SingleOne(e: seq<bool>) returns (i: nat)
    requires Ones(e) == 1
    ensures i < |e| && forall k | 0 <= k < |e| :: e[k] <==> k == i
  {
    var n := |e| - 1;
    if e[n] {
      NoOnes(e[..n]);
      i := n;
    } else {
      i := SingleOne(e[..n]);
    }
  }

  lemma {:induction false} TwoOnes(e: seq<bool>) returns (i: nat, j: nat)
    requires Ones(e) == 2
    ensures OnlyAt(e, i, j)
  {
    var n := |e| - 1;
    if e[n] {
      i := SingleOne(e[..n]);
      j := n;
    } else {
      i, j := TwoOnes(e[..n]);
    }
  }

  lemma Nearer(i: nat, j: nat)
    requires i < j < ORDER
    ensures (j - i) % ORDER != 0
  {
  }

  /** In messages of up to 32,767 bits every alteration of one, two or three bits is noticed. */
  lemma ThreeBitsDetected(s: Register, m: seq<bool>, m': seq<bool>)
    requires |m| == |m'| <= ORDER && 1 <= Ones(XorBits(m, m')) <= 3
    ensures Clocks(s, m) != Clocks(s, m')
  {
    var e := XorBits(m, m');
    hide Clocks, Ones, XorBits;
    ParityOfOnes(e);
    if Ones(e) == 2 {
      var i, j := TwoOnes(e);
      Nearer(i, j);
      TwoBitsPass(s, m, m', i, j);
    } else {
      OddErrorsDetected(s, m, m');
    }
  }

  /** So it is in byte runs of up to 4,095 bytes. */
  lemma ThreeBitsChange(crc: u16, p: seq<byte>, p': seq<byte>)
    requires |p| == |p'| && 8 * |p| <= ORDER && 1 <= Ones(XorBits(BitsOf(p), BitsOf(p'))) <= 3
    ensures From(crc, p) != From(crc, p')
  {
    hide Bits, From, Clocks, Ones;
    FromIsClocks(crc, p);
    FromIsClocks(crc, p');
    ThreeBitsDetected(Bits(crc, 16), BitsOf(p), BitsOf(p'));
  }
}
