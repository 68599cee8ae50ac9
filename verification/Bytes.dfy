/** Bytes, big-endian fields and bitwise exclusive-or.

    The C code works on `uint8_t`, `uint16_t` and `uint32_t` values. They are modelled as bounded
    integers; big-endian packing is division and remainder, and `^` is `Xor`, defined bit by bit.
 */
module Bytes {

  type byte = x: int | 0 <= x < 0x100
  type u16 = x: int | 0 <= x < 0x1_0000
  type u32 = x: int | 0 <= x < 0x1_0000_0000

  function Pow2(n: nat): (p: nat)
    ensures p > 0
  {
    if n == 0 then 1 else 2 * Pow2(n - 1)
  }

  lemma Twice(a: nat, b: nat)
    ensures 2 * (a * b) == (2 * a) * b
  {
  }

  lemma {:induction false} Pow2Add(m: nat, n: nat)
    ensures Pow2(m + n) == Pow2(m) * Pow2(n)
  {
    if m > 0 {
      Pow2Add(m - 1, n);
      Twice(Pow2(m - 1), Pow2(n));
    }
  }

  // ---- Exclusive-or ----

  /** `a ^ b` on unsigned values of any width. */
  function Xor(a: nat, b: nat): nat
    decreases a + b
  {
    if a == 0 && b == 0 then 0 else 2 * Xor(a / 2, b / 2) + (a + b) % 2
  }

  /** One unfolding, stated as quotient and remainder by two. */
  lemma XorHalves(a: nat, b: nat)
    ensures Xor(a, b) / 2 == Xor(a / 2, b / 2)
    ensures Xor(a, b) % 2 == (a + b) % 2
  {
  }

  lemma {:induction false} XorBound(a: nat, b: nat, k: nat)
    requires a < Pow2(k) && b < Pow2(k)
    ensures Xor(a, b) < Pow2(k)
  {
    if k > 0 {
      XorBound(a / 2, b / 2, k - 1);
      XorHalves(a, b);
    }
  }

  lemma SameParity(a: nat, b: nat, d: nat)
    requires (a + b) % 2 == (a + d) % 2 && b / 2 == d / 2
    ensures b == d
  {
  }

  /** An operand is determined by the other one and the result. */
  lemma {:induction false} XorCancels(a: nat, b: nat, d: nat)
    requires Xor(a, b) == Xor(a, d)
    ensures b == d
    decreases b + d
  {
    if b + d > 0 {
      XorHalves(a, b);
      XorHalves(a, d);
      XorCancels(a / 2, b / 2, d / 2);
      SameParity(a, b, d);
    }
  }

  lemma {:induction false} XorCommutes(a: nat, b: nat)
    ensures Xor(a, b) == Xor(b, a)
    decreases a + b
  {
    if a + b > 0 { XorCommutes(a / 2, b / 2); }
  }

  function XorByte(a: byte, b: byte): byte {
    assert Pow2(8) == 0x100;
    XorBound(a, b, 8);
    Xor(a, b)
  }

  // ---- Exclusive-or over a run of bytes ----

  lemma XorZero(a: byte, b: byte)
    ensures XorByte(a, b) == 0 <==> a == b
  {
    XorSelf(a);
    if XorByte(a, b) == 0 { XorCancels(a, b, a); }
  }

  lemma {:induction false} XorSelf(a: nat)
    ensures Xor(a, a) == 0
  {
    if a > 0 { XorSelf(a / 2); }
  }

  /** The running checksum of the C loops `for (...) x ^= p[i]`. */
  function XorAll(s: seq<byte>): byte {
    if |s| == 0 then 0 else XorByte(XorAll(s[..|s| - 1]), s[|s| - 1])
  }

  /** Altering exactly one byte changes the checksum. */
  lemma {:induction false} XorAllDetects(s: seq<byte>, t: seq<byte>, i: nat)
    requires i < |s| == |t| && s[i] != t[i]
    requires forall j | 0 <= j < |s| && j != i :: s[j] == t[j]
    ensures XorAll(s) != XorAll(t)
  {
    var n := |s| - 1;
    if i == n { assert s[..n] == t[..n]; } else { XorAllDetects(s[..n], t[..n], i); }
    if XorAll(s) == XorAll(t) {
      if i == n {
        XorCancels(XorAll(s[..n]), s[n], t[n]);
      } else {
        XorCommutes(XorAll(s[..n]), s[n]);
        XorCommutes(XorAll(t[..n]), t[n]);
        XorCancels(s[n], XorAll(s[..n]), XorAll(t[..n]));
      }
    }
  }

  lemma {:induction false} XorAssociates(a: nat, b: nat, c: nat)
    ensures Xor(Xor(a, b), c) == Xor(a, Xor(b, c))
    decreases a + b + c
  {
    if a + b + c > 0 {
      XorAssociates(a / 2, b / 2, c / 2);
      hide Xor;
      XorHalves(a, b);
      XorHalves(b, c);
      XorHalves(Xor(a, b), c);
      XorHalves(a, Xor(b, c));
      SumParities(a, b, c, Xor(a, b), Xor(b, c));
      SameHalves(Xor(Xor(a, b), c), Xor(a, Xor(b, c)));
    }
  }

  lemma SumParities(a: nat, b: nat, c: nat, p: nat, q: nat)
    requires p % 2 == (a + b) % 2 && q % 2 == (b + c) % 2
    ensures (p + c) % 2 == (a + q) % 2
  {
  }

  lemma SameHalves(x: nat, y: nat)
    requires x / 2 == y / 2 && x % 2 == y % 2
    ensures x == y
  {
  }

  lemma {:induction false} XorWithZero(a: nat)
    ensures Xor(a, 0) == a
  {
    if a > 0 { XorWithZero(a / 2); }
  }

  /** The checksum of a byte is the byte, and that of a run is the exclusive-or of those of its parts. */
  lemma {:induction false} XorAllJoins(s: seq<byte>, t: seq<byte>, b: byte)
    ensures XorAll([b]) == b
    ensures XorAll(s + t) == XorByte(XorAll(s), XorAll(t))
    decreases |t|
  {
    assert [b][..0] == [];
    XorCommutes(0, b);
    XorWithZero(b);
    if t == [] {
      assert s + t == s;
      XorWithZero(XorAll(s));
    } else {
      var n := |t| - 1;
      assert (s + t)[..|s + t| - 1] == s + t[..n];
      XorAllJoins(s, t[..n], b);
      XorAssociates(XorAll(s), XorAll(t[..n]), t[n]);
    }
  }

  method ComputeXor(p: seq<byte>, from: nat, to: nat) returns (x: byte)
    requires from <= to <= |p|
    ensures x == XorAll(p[from..to])
  {
    x := 0;
    for i := from to to
      invariant x == XorAll(p[from..i])
    {
      assert p[from..i + 1][..i - from] == p[from..i];
      x := XorByte(x, p[i]);
    }
  }

  // ---- Big-endian fields ----

  function Be16(x: u16): (s: seq<byte>)
    ensures |s| == 2
  {
    [x / 0x100, x % 0x100]
  }

  function FromBe16(s: seq<byte>): u16
    requires |s| == 2
  {
    s[0] as int * 0x100 + s[1]
  }

  /** The low three bytes of a `uint32_t`. */
  function Be24(x: u32): (s: seq<byte>)
    ensures |s| == 3
  {
    [x / 0x1_0000 % 0x100] + Be16(x % 0x1_0000)
  }

  function FromBe24(s: seq<byte>): (x: u32)
    requires |s| == 3
  {
    s[0] as int * 0x1_0000 + FromBe16(s[1..])
  }

  function Be32(x: u32): (s: seq<byte>)
    ensures |s| == 4
  {
    Be16(x / 0x1_0000) + Be16(x % 0x1_0000)
  }

  function FromBe32(s: seq<byte>): u32
    requires |s| == 4
  {
    FromBe16(s[..2]) as int * 0x1_0000 + FromBe16(s[2..])
  }

  lemma Be16RoundTrip(x: u16, s: seq<byte>)
    requires |s| == 2
    ensures FromBe16(Be16(x)) == x
    ensures Be16(FromBe16(s)) == s
  {
  }

  lemma Low24(x: u32)
    ensures x / 0x1_0000 % 0x100 * 0x1_0000 + x % 0x1_0000 == x % 0x100_0000
  {
    var q, r := x / 0x1_0000, x % 0x1_0000;
    QuotientUnique(0x100_0000, q / 0x100, q % 0x100 * 0x1_0000 + r, x / 0x100_0000, x % 0x100_0000);
  }

  lemma Joined16(high: nat, low: u16)
    ensures (high * 0x1_0000 + low) / 0x1_0000 == high && (high * 0x1_0000 + low) % 0x1_0000 == low
  {
  }

  lemma Be24RoundTrip(x: u32, s: seq<byte>)
    requires |s| == 3
    ensures FromBe24(Be24(x)) == x % 0x100_0000
    ensures FromBe24(s) < 0x100_0000 && Be24(FromBe24(s)) == s
  {
    Be16RoundTrip(x % 0x1_0000, s[1..]);
    assert Be24(x)[1..] == Be16(x % 0x1_0000);
    Low24(x);
    Joined16(s[0], FromBe16(s[1..]));
    assert s == [s[0]] + s[1..];
  }

  lemma Be32RoundTrip(x: u32, s: seq<byte>)
    requires |s| == 4
    ensures FromBe32(Be32(x)) == x
    ensures Be32(FromBe32(s)) == s
  {
    Be16RoundTrip(x / 0x1_0000, s[..2]);
    Be16RoundTrip(x % 0x1_0000, s[2..]);
    assert Be32(x)[..2] == Be16(x / 0x1_0000) && Be32(x)[2..] == Be16(x % 0x1_0000);
    Joined16(FromBe16(s[..2]), FromBe16(s[2..]));
    assert s == s[..2] + s[2..];
  }

  // ---- Quotients ----

  lemma ProductBound(d: int, n: int)
    requires n > 0
    ensures d >= 1 ==> d * n >= n
    ensures d <= -1 ==> d * n <= -n
  {
    if d >= 1 {
      assert (d - 1) * n >= 0;
    } else if d <= -1 {
      assert (-d - 1) * n >= 0;
    }
  }

  lemma QuotientUnique(n: int, q: int, r: int, q': int, r': int)
    requires q * n + r == q' * n + r' && 0 <= r < n && 0 <= r' < n
    ensures q == q' && r == r'
  {
    assert (q - q') * n == q * n - q' * n;
    ProductBound(q - q', n);
  }

  lemma DivAdd(x: int, d: int, k: int)
    requires d > 0
    ensures (x + k * d) / d == x / d + k
  {
    assert (x / d + k) * d == x / d * d + k * d;
    QuotientUnique(d, x / d + k, x % d, (x + k * d) / d, (x + k * d) % d);
  }

  lemma EvenAdd(x: int, d: int, k: int)
    requires d > 0 && k % 2 == 0
    ensures (x + k * d) / d % 2 == x / d % 2
  {
    DivAdd(x, d, k);
  }

  // ---- Flag bits of a uint16_t ----

  const BITS: set<int> := {0x1, 0x2, 0x4, 0x8, 0x10, 0x20, 0x40, 0x80,
                           0x100, 0x200, 0x400, 0x800, 0x1000, 0x2000, 0x4000, 0x8000}

  predicate HasBit(x: u16, bit: u16)
    requires bit > 0
  {
    x / bit % 2 == 1
  }

  /** A higher bit is an even number of lower ones. */
  lemma EvenShare(bit: u16, d: u16) returns (k: int)
    requires bit in {0x10, 0x8000} && d in BITS && d < bit
    ensures bit == k * d && k % 2 == 0
  {
    k := bit / d;
    if d == 0x1 {} else if d == 0x2 {} else if d == 0x4 {} else if d == 0x8 {} else if d == 0x10 {}
    else if d == 0x20 {} else if d == 0x40 {} else if d == 0x80 {} else if d == 0x100 {}
    else if d == 0x200 {} else if d == 0x400 {} else if d == 0x800 {} else if d == 0x1000 {}
    else if d == 0x2000 {} else if d == 0x4000 {}
  }

  /** The bits above 0x10 do not depend on the low five. */
  lemma HighBits(x: u16, q: int, low: int, d: u16)
    requires x == 0x20 * q + low && 0 <= low < 0x20
    requires d in BITS && d >= 0x20
    ensures x / d == q / (d / 0x20)
  {
    if d == 0x20 {} else if d == 0x40 {} else if d == 0x80 {} else if d == 0x100 {}
    else if d == 0x200 {} else if d == 0x400 {} else if d == 0x800 {} else if d == 0x1000 {}
    else if d == 0x2000 {} else if d == 0x4000 {}
  }

  // ---- uint16_t arithmetic wraps ----

  function Succ16(a: u16): u16 {
    if a == 0xFFFF then 0 else a + 1
  }

  function Pred16(a: u16): u16 {
    if a == 0 then 0xFFFF else a - 1
  }

  function Sub16(a: u16, b: u16): u16 {
    if a >= b then a - b else a - b + 0x1_0000
  }

  // ---- Byte runs ----

  function Zeros(n: nat): (s: seq<byte>)
    ensures |s| == n
    ensures forall i | 0 <= i < n :: s[i] == 0
  {
    seq(n, _ => 0)
  }

  predicate AllZero(s: seq<byte>) {
    forall i | 0 <= i < |s| :: s[i] == 0
  }

  lemma SliceOfSlice(s: seq<byte>, i: nat, j: nat, k: nat, l: nat)
    requires i <= j <= |s| && k <= l <= j - i
    ensures s[i..j][k..l] == s[i + k..i + l]
  {
    var t := s[i..j];
    assert forall x | 0 <= x < j - i :: t[x] == s[i + x];
  }

  function Concat(parts: seq<seq<byte>>): seq<byte> {
    if parts == [] then [] else parts[0] + Concat(parts[1..])
  }

  lemma Associative(a: seq<byte>, b: seq<byte>, c: seq<byte>)
    ensures a + (b + c) == (a + b) + c
  {
  }

  lemma {:induction false} ConcatAppend(a: seq<seq<byte>>, b: seq<seq<byte>>)
    ensures Concat(a + b) == Concat(a) + Concat(b)
  {
    if a == [] {
      assert a + b == b;
    } else {
      ConcatAppend(a[1..], b);
      assert (a + b)[1..] == a[1..] + b;
      Associative(a[0], Concat(a[1..]), Concat(b));
    }
  }

  lemma ConcatLast(a: seq<seq<byte>>, p: seq<byte>)
    ensures Concat(a + [p]) == Concat(a) + p
  {
    ConcatAppend(a, [p]);
    assert Concat([p]) == p + Concat([]);
  }

  // ---- Writing into buffers ----

  /** memcpy into dst at off. */
  method Blit(dst: array<byte>, off: nat, src: seq<byte>)
    requires off + |src| <= dst.Length
    modifies dst
    ensures forall k | 0 <= k < dst.Length ::
      dst[k] == if off <= k < off + |src| then src[k - off] else old(dst[k])
  {
    for i := 0 to |src|
      invariant forall k | 0 <= k < dst.Length ::
        dst[k] == if off <= k < off + i then src[k - off] else old(dst[k])
    {
      dst[off + i] := src[i];
    }
  }

  /** memcpy onto the end of what has been written so far. */
  method Append(dst: array<byte>, off: nat, src: seq<byte>)
    requires off + |src| <= dst.Length
    modifies dst
    ensures dst[..off + |src|] == old(dst[..off]) + src
  {
    Blit(dst, off, src);
  }

  /** memmove of dst[from..to] to the front, lowest byte first. */
  method MoveToFront(dst: array<byte>, from: nat, to: nat)
    requires from <= to <= dst.Length
    modifies dst
    ensures dst[..to - from] == old(dst[from..to])
  {
    for i := 0 to to - from
      invariant forall k | 0 <= k < i :: dst[k] == old(dst[from + k])
      invariant forall k | i <= k < dst.Length :: dst[k] == old(dst[k])
    {
      dst[i] := dst[from + i];
    }
  }
}
