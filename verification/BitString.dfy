/** Numbers and byte runs as strings of bits, most significant bit first. */
module BitString {
  import opened Bytes

  /** The n low bits of x, most significant first. */
  function Bits(x: nat, n: nat): (s: seq<bool>)
    ensures |s| == n
  {
    if n == 0 then [] else Bits(x / 2, n - 1) + [x % 2 == 1]
  }

  function Off(n: nat): (s: seq<bool>)
    ensures |s| == n
  {
    seq(n, _ => false)
  }

  lemma {:induction false} BitsInjective(a: nat, b: nat, n: nat)
    requires a < Pow2(n) && b < Pow2(n) && Bits(a, n) == Bits(b, n)
    ensures a == b
  {
    if n > 0 {
      var s, t := Bits(a, n), Bits(b, n);
      assert s[..n - 1] == Bits(a / 2, n - 1) && t[..n - 1] == Bits(b / 2, n - 1);
      assert s[n - 1] == (a % 2 == 1) && t[n - 1] == (b % 2 == 1);
      BitsInjective(a / 2, b / 2, n - 1);
    }
  }

  /** The bits above the n lowest, then the n lowest. */
  lemma {:induction false} BitsJoin(high: nat, low: nat, m: nat, n: nat)
    requires low < Pow2(n)
    ensures Bits(high * Pow2(n) + low, m + n) == Bits(high, m) + Bits(low, n)
  {
    if n > 0 {
      var x := high * Pow2(n) + low;
      BitsJoin(high, low / 2, m, n - 1);
      HalfOf(x, high, low, n);
      hide Pow2;
      assert Bits(x, m + n) == Bits(x / 2, m + (n - 1)) + [x % 2 == 1];
    }
  }

  lemma HalfOf(x: nat, high: nat, low: nat, n: nat)
    requires n > 0 && x == high * Pow2(n) + low
    ensures x / 2 == high * Pow2(n - 1) + low / 2 && x % 2 == low % 2
  {
    assert high * Pow2(n) == 2 * (high * Pow2(n - 1));
  }

  lemma {:induction false} BitsOfZero(n: nat)
    ensures Bits(0, n) == Off(n)
  {
    if n > 0 { BitsOfZero(n - 1); }
  }

  lemma {:induction false} BitsOfOnes(n: nat)
    ensures Bits(Pow2(n) - 1, n) == seq(n, _ => true)
  {
    if n > 0 {
      assert (Pow2(n) - 1) / 2 == Pow2(n - 1) - 1 && (Pow2(n) - 1) % 2 == 1;
      BitsOfOnes(n - 1);
    }
  }

  /** `(x >> k) & 1` */
  lemma {:induction false} BitValue(x: nat, n: nat, i: nat)
    requires i < n
    ensures Bits(x, n)[i] == (x / Pow2(n - 1 - i) % 2 == 1)
  {
    if i < n - 1 {
      BitValue(x / 2, n - 1, i);
      HalfFirst(x, Pow2(n - 2 - i));
    }
  }

  lemma HalfFirst(x: nat, d: nat)
    requires d > 0
    ensures x / 2 / d == x / (2 * d)
  {
    var q, r := x / 2 / d, x / 2 % d;
    assert x == (2 * q) * d + 2 * r + x % 2;
    assert q * (2 * d) == (2 * q) * d;
    QuotientUnique(2 * d, q, 2 * r + x % 2, x / (2 * d), x % (2 * d));
  }

  // ---- Byte runs ----

  function BitsOf(p: seq<byte>): (s: seq<bool>)
    ensures |s| == 8 * |p|
  {
    if p == [] then [] else Bits(p[0], 8) + BitsOf(p[1..])
  }

  lemma {:induction false} BitsOfInjective(p: seq<byte>, p': seq<byte>)
    requires |p| == |p'| && BitsOf(p) == BitsOf(p')
    ensures p == p'
  {
    if p != [] {
      assert BitsOf(p)[..8] == Bits(p[0], 8) && BitsOf(p')[..8] == Bits(p'[0], 8);
      assert BitsOf(p)[8..] == BitsOf(p[1..]) && BitsOf(p')[8..] == BitsOf(p'[1..]);
      assert Pow2(8) == 0x100;
      BitsInjective(p[0], p'[0], 8);
      BitsOfInjective(p[1..], p'[1..]);
      assert p == [p[0]] + p[1..] && p' == [p'[0]] + p'[1..];
    }
  }

  lemma {:induction false} BitOfByte(p: seq<byte>, i: nat)
    requires i < 8 * |p|
    ensures BitsOf(p)[i] == Bits(p[i / 8], 8)[i % 8]
  {
    if i >= 8 {
      BitOfByte(p[1..], i - 8);
      assert (i - 8) / 8 == i / 8 - 1 && (i - 8) % 8 == i % 8;
    }
  }

  lemma BitsOfWord(x: u16)
    ensures BitsOf(Be16(x)) == Bits(x, 16)
  {
    hide Bits;
    assert Pow2(8) == 0x100;
    BitsJoin(x / 0x100, x % 0x100, 8, 8);
    assert Be16(x)[1..] == [x % 0x100] && [x % 0x100][1..] == [];
    assert BitsOf([x % 0x100]) == Bits(x % 0x100, 8) + BitsOf([]);
  }
}
