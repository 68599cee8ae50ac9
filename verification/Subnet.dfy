/** IPv4 prefixes (section 3.1 of RFC 4632) as acud checks them bit by bit (acud/discover.c) and as
    acu-netcfg checks them by dividing by the block size (deploy/acu-netcfg). */
module Subnet {
  import opened Bytes
  import opened BitString

  type Address = s: seq<byte> | |s| == 4 witness [0, 0, 0, 0]

  const PREFIX_MIN := 8
  const PREFIX_MAX := 30

  function Value(a: Address): u32 { FromBe32(a) }

  /** The netmask of a prefix: p ones, then zeros. */
  function Mask(p: nat): nat
    requires p <= 32
  {
    Pow2Grows(32 - p, 32);
    Pow2(32) - Pow2(32 - p)
  }

  /** The block-division test: both addresses lie in the same block of 2^(32-p). */
  predicate SameBlock(a: Address, b: Address, p: nat)
    requires p <= 32
  {
    var k := Pow2(32 - p);
    Value(a) / k * k == Value(b) / k * k
  }

  // ---- Powers ----

  lemma {:induction false} Pow2Grows(a: nat, b: nat)
    requires a <= b
    ensures Pow2(a) <= Pow2(b)
  {
    if a < b { Pow2Grows(a, b - 1); }
  }

  lemma FullRange()
    ensures Pow2(8) == 0x100 && Pow2(16) == 0x1_0000 && Pow2(32) == 0x1_0000_0000
  {
    assert Pow2(8) == 0x100;
    Pow2Add(8, 8);
    Pow2Add(16, 16);
  }

  // ---- Addresses as bits ----

  lemma BitsOfAddress(a: Address)
    ensures BitsOf(a) == Bits(Value(a), 32)
  {
    hide Bits;
    FullRange();
    var high, low := FromBe16(a[..2]), FromBe16(a[2..]);
    BitsJoin(high, low, 16, 16);
    BitsOfWord(high);
    BitsOfWord(low);
    Be16RoundTrip(0, a[..2]);
    Be16RoundTrip(0, a[2..]);
    BitsOfConcat(a[..2], a[2..]);
    assert a == a[..2] + a[2..];
  }

  lemma {:induction false} BitsOfConcat(p: seq<byte>, q: seq<byte>)
    ensures BitsOf(p + q) == BitsOf(p) + BitsOf(q)
  {
    hide Bits;
    if p == [] {
      assert p + q == q;
    } else {
      assert (p + q)[1..] == p[1..] + q;
      BitsOfConcat(p[1..], q);
    }
  }

  /** `(a[i / 8] >> (7 - i % 8)) & 1` */
  function BitAt(a: Address, i: nat): bool
    requires i < 32
  {
    a[i / 8] / Pow2(7 - i % 8) % 2 == 1
  }

  lemma BitAtIsBit(a: Address, i: nat)
    requires i < 32
    ensures BitAt(a, i) == Bits(Value(a), 32)[i]
  {
    hide Bits;
    BitsOfAddress(a);
    BitOfByte(a, i);
    BitValue(a[i / 8], 8, i % 8);
  }

  /** The first p bits agree exactly when the blocks do. */
  lemma PrefixIsBlock(a: Address, b: Address, p: nat)
    requires p <= 32
    ensures SameBlock(a, b, p) <==> Bits(Value(a), 32)[..p] == Bits(Value(b), 32)[..p]
  {
    hide Bits, Value, Pow2;
    Quotient(Value(a), p, Pow2(32 - p));
    Quotient(Value(b), p, Pow2(32 - p));
    SameQuotient(Value(a) / Pow2(32 - p), Value(b) / Pow2(32 - p), Pow2(32 - p), p);
  }

  lemma SameQuotient(qa: nat, qb: nat, k: nat, p: nat)
    requires k > 0 && qa < Pow2(p) && qb < Pow2(p)
    ensures qa * k == qb * k <==> Bits(qa, p) == Bits(qb, p)
  {
    hide Bits, Pow2;
    if qa * k == qb * k { QuotientUnique(k, qa, 0, qb, 0); }
    if Bits(qa, p) == Bits(qb, p) { BitsInjective(qa, qb, p); }
  }

  lemma Quotient(x: u32, p: nat, k: nat)
    requires p <= 32 && k == Pow2(32 - p) && k > 0
    ensures Bits(x, 32)[..p] == Bits(x / k, p)
    ensures x / k < Pow2(p)
  {
    hide Bits, Pow2;
    FullRange();
    Pow2Add(p, 32 - p);
    QuotientBound(x, k, Pow2(p));
    Halves(x, k);
    HighPart(x, x / k, x % k, p, 32 - p);
  }

  lemma HighPart(x: nat, q: nat, r: nat, p: nat, n: nat)
    requires x == q * Pow2(n) + r && r < Pow2(n)
    ensures Bits(x, p + n)[..p] == Bits(q, p)
  {
    hide Bits, Pow2;
    BitsJoin(q, r, p, n);
  }

  lemma Halves(x: nat, k: nat)
    requires k > 0
    ensures x == x / k * k + x % k && 0 <= x % k < k
  {
  }

  lemma QuotientBound(x: nat, k: nat, n: nat)
    requires k > 0 && x < n * k
    ensures x / k < n
  {
    ProductBound(x / k - n, k);
    assert (x / k - n) * k == x / k * k - n * k;
  }

  method SameSubnet(a: Address, b: Address, prefix: int) returns (same: bool)
    requires prefix <= 32
    ensures same <==> prefix <= 0 || SameBlock(a, b, prefix)
  {
    hide Bits, Value;
    var i := 0;
    ghost var x, y := Bits(Value(a), 32), Bits(Value(b), 32);
    while i < prefix
      invariant 0 <= i && (0 <= prefix ==> i <= prefix)
      invariant i <= 32 && x[..i] == y[..i]
    {
      BitAtIsBit(a, i);
      BitAtIsBit(b, i);
      var octet, bit := i / 8, 7 - i % 8;
      if a[octet] / Pow2(bit) % 2 != b[octet] / Pow2(bit) % 2 {
        PrefixIsBlock(a, b, prefix);
        assert x[..prefix][i] != y[..prefix][i];
        return false;
      }
      assert x[..i + 1] == x[..i] + [x[i]] && y[..i + 1] == y[..i] + [y[i]];
      i := i + 1;
    }
    if prefix > 0 { PrefixIsBlock(a, b, prefix); }
    same := true;
  }

  // ---- Netmasks ----

  lemma MaskFactors(p: nat)
    requires p <= 32
    ensures Mask(p) == (Pow2(p) - 1) * Pow2(32 - p)
  {
    hide Pow2;
    Pow2Add(p, 32 - p);
    assert (Pow2(p) - 1) * Pow2(32 - p) == Pow2(p) * Pow2(32 - p) - Pow2(32 - p);
  }

  lemma MaskBits(p: nat)
    requires p <= 32
    ensures Bits(Mask(p), 32) == seq(32, i => i < p)
  {
    hide Bits, Pow2;
    MaskFactors(p);
    BitsJoin(Pow2(p) - 1, 0, p, 32 - p);
    BitsOfOnes(p);
    BitsOfZero(32 - p);
  }

  /** A value with exactly `bits` leading ones is a netmask exactly when nothing follows them. */
  lemma LeadingOnes(m: u32, bits: nat, p: nat)
    requires bits <= 32 && p <= 32
    requires forall i | 0 <= i < bits :: Bits(m, 32)[i]
    requires bits < 32 ==> !Bits(m, 32)[bits]
    ensures m == Mask(p) <==> p == bits && m % Pow2(32 - bits) == 0
  {
    hide Bits, Pow2;
    MaskBits(p);
    var k := Pow2(32 - bits);
    MaskFactors(bits);
    if p == bits && m % k == 0 {
      Quotient(m, bits, k);
      Halves(m, k);
      BitsOfOnes(bits);
      assert Bits(m / k, bits) == seq(bits, _ => true);
      BitsInjective(m / k, Pow2(bits) - 1, bits);
    } else if m == Mask(p) {
      assert forall i | 0 <= i < 32 :: Bits(m, 32)[i] == (i < p);
      assert bits < 32 ==> Bits(m, 32)[bits] == (bits < p);
      assert p < 32 ==> !Bits(m, 32)[p];
      QuotientUnique(k, Pow2(bits) - 1, 0, m / k, m % k);
    }
  }

  method NetmaskToPrefix(mask: Address) returns (p: int)
    ensures -1 <= p <= 32
    ensures forall q: nat | q <= 32 :: p == q <==> Value(mask) == Mask(q)
  {
    hide Bits, Value, Mask;
    var m := Value(mask);
    var bits := 0;
    while bits < 32 && m / Pow2(31 - bits) % 2 == 1
      invariant 0 <= bits <= 32
      invariant forall i | 0 <= i < bits :: Bits(m, 32)[i]
    {
      BitValue(m, 32, bits);
      bits := bits + 1;
    }
    if bits < 32 { BitValue(m, 32, bits); }
    forall q: nat | q <= 32 ensures m == Mask(q) <==> q == bits && m % Pow2(32 - bits) == 0 {
      LeadingOnes(m, bits, q);
    }
    var rest := if bits == 32 then 0 else m % Pow2(32 - bits);
    p := if rest == 0 then bits else -1;
  }

  // ---- A SETT request ----

  datatype Reason = ZeroAddress | Broadcast | NotContiguous | PrefixRange | GatewayIsAddress | GatewayOutside
  datatype Verdict = Accepted(prefix: nat) | Rejected(reason: Reason)

  const ZERO: Address := [0, 0, 0, 0]
  const BROADCAST: Address := [255, 255, 255, 255]

  /** What acu-netcfg demands of an address, a prefix and a gateway once they are well-formed. */
  predicate ShellAccepts(ip: Address, prefix: nat, gw: Address) {
    PREFIX_MIN <= prefix <= PREFIX_MAX && ip != gw && SameBlock(ip, gw, prefix)
  }

  predicate Acceptable(ip: Address, mask: Address, gw: Address, prefix: nat) {
    ip != ZERO && ip != BROADCAST && prefix <= 32 && Value(mask) == Mask(prefix) && ShellAccepts(ip, prefix, gw)
  }

  /** In numbers: the address is not all zeros or all ones, the mask is 2^32 - 2^(32-p) for a prefix from 8 to 30,
      and address and gateway are different addresses of one block of 2^(32-p). */
  lemma AcceptableMeans(ip: Address, mask: Address, gw: Address, p: nat)
    ensures Acceptable(ip, mask, gw, p) <==>
      && ip != [0, 0, 0, 0] && ip != [255, 255, 255, 255] && ip != gw && 8 <= p <= 30
      && Value(mask) == Pow2(32) - Pow2(32 - p)
      && Value(ip) / Pow2(32 - p) == Value(gw) / Pow2(32 - p)
  {
    hide Value, Pow2;
    if p <= 32 { SameBlockNumber(Value(ip), Value(gw), Pow2(32 - p)); }
  }

  lemma SameBlockNumber(a: nat, b: nat, k: nat)
    requires k > 0
    ensures a / k * k == b / k * k <==> a / k == b / k
  {
    var q, r := a / k, b / k;
    if q < r {
      assert r * k == q * k + (r - q) * k;
    } else if r < q {
      assert q * k == r * k + (q - r) * k;
    }
  }

  /** acud lets a request through exactly when its mask is that of a prefix for which acu-netcfg lets it
      through too, and the address is neither all zeros nor all ones. */
  method SettValidate(ip: Address, mask: Address, gw: Address) returns (v: Verdict)
    ensures v.Accepted? <==> exists p: nat :: Acceptable(ip, mask, gw, p)
    ensures v.Accepted? ==> Acceptable(ip, mask, gw, v.prefix)
    ensures v == Rejected(ZeroAddress) <==> ip == ZERO
    ensures v == Rejected(Broadcast) <==> ip == BROADCAST
    ensures ip != ZERO && ip != BROADCAST ==>
      (v == Rejected(NotContiguous) <==> forall q: nat | q <= 32 :: Value(mask) != Mask(q))
    ensures ip != ZERO && ip != BROADCAST ==> forall q: nat | q <= 32 && Value(mask) == Mask(q) ::
      v == if q < PREFIX_MIN || q > PREFIX_MAX then Rejected(PrefixRange)
           else if ip == gw then Rejected(GatewayIsAddress)
           else if !SameBlock(ip, gw, q) then Rejected(GatewayOutside) else Accepted(q)
  {
    hide Value, Mask, SameBlock;
    if ip[0] == 0 && ip[1] == 0 && ip[2] == 0 && ip[3] == 0 { return Rejected(ZeroAddress); }
    if ip[0] == 255 && ip[1] == 255 && ip[2] == 255 && ip[3] == 255 { return Rejected(Broadcast); }
    var prefix := NetmaskToPrefix(mask);
    if prefix < 0 { return Rejected(NotContiguous); }
    assert Value(mask) == Mask(prefix);
    if prefix < PREFIX_MIN || prefix > PREFIX_MAX { return Rejected(PrefixRange); }
    if ip == gw { return Rejected(GatewayIsAddress); }
    var same := SameSubnet(ip, gw, prefix);
    if !same { return Rejected(GatewayOutside); }
    assert Acceptable(ip, mask, gw, prefix);
    v := Accepted(prefix);
  }
}
