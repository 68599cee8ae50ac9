/** IDTi V2 packets (acud/protocol.c): a 44-byte header with an XOR checksum over its first 31 bytes, the
    data, and a two-byte tail. */
module IdtiPacket {
  import opened Bytes
  import opened Options

  const STX := 0x02
  const ETX := 0x03
  const PACKET_CHECKSUM_FIXED := 0x08
  const PROTOCOL_VERSION_V2 := 2
  const HEADER_LEN: nat := 44
  const MAX_DATA_LEN: nat := 65489

  const FOPT_REQUEST_ACK := 0x8000
  const FOPT_CHECK_PACKET := 0x0010

  type Dest = s: seq<byte> | |s| == 8 witness [0, 0, 0, 0, 0, 0, 0, 0]
  type Src = s: seq<byte> | |s| == 5 witness [0, 0, 0, 0, 0]

  /** The fields that a caller of the builder chooses. */
  datatype Fields = Fields(
    frameOption: u16, dest: Dest, src: Src, frameIndex: u32, password: u32,
    command: byte, subCommand: byte, obj: byte, startItem: byte, endItem: byte,
    dataCurrent: u16, dataEnd: u16, dataTotal: u16, dataOneLen: u16)

  datatype Header = Header(packetLength: u16, version: byte, fields: Fields, dataLen: nat)

  function TailLen(frameOption: u16): nat {
    if HasBit(frameOption, FOPT_CHECK_PACKET) then 4 else 2
  }

  function FieldsAt(buf: seq<byte>): Fields
    requires |buf| >= HEADER_LEN
  {
    Fields(FromBe16(buf[4..6]), buf[7..15], buf[15..20], FromBe32(buf[20..24]), FromBe32(buf[24..28]),
           buf[29], buf[30], buf[33], buf[34], buf[35],
           FromBe16(buf[36..38]), FromBe16(buf[38..40]), FromBe16(buf[40..42]), FromBe16(buf[42..44]))
  }

  /** What the parser accepts, and what it reads. */
  function Parse(buf: seq<byte>): (h: Option<Header>)
    ensures h.Some? ==>
      |buf| >= HEADER_LEN
      && h.value.packetLength == HEADER_LEN + h.value.dataLen + TailLen(h.value.fields.frameOption)
  {
    if |buf| < HEADER_LEN || buf[0] != STX || buf[6] != HEADER_LEN || XorAll(buf[..31]) != buf[31] then None
    else
      var f := FieldsAt(buf);
      var n := FromBe16(buf[1..3]);
      if n < HEADER_LEN + TailLen(f.frameOption) then None
      else Some(Header(n, buf[3], f, n - HEADER_LEN - TailLen(f.frameOption)))
  }

  method HeaderParse(buf: seq<byte>) returns (h: Option<Header>)
    ensures h == Parse(buf)
  {
    if |buf| < HEADER_LEN { return None; }
    if buf[0] != STX { return None; }
    if buf[6] != HEADER_LEN { return None; }
    var checksum := ComputeXor(buf, 0, 31);
    assert buf[0..31] == buf[..31];
    if checksum != buf[31] { return None; }
    var packetLength := FromBe16(buf[1..3]);
    var f := FieldsAt(buf);
    var tailLen := if HasBit(f.frameOption, FOPT_CHECK_PACKET) then 4 else 2;
    if packetLength < HEADER_LEN + tailLen { return None; }
    h := Some(Header(packetLength, buf[3], f, packetLength - HEADER_LEN - tailLen));
  }

  /** Whose packets are accepted: 44 bytes or more, STX first, header length 44, first 32 bytes that add up to
      zero, and room for a tail of four bytes when the sender's check bit is on and of two otherwise. */
  lemma AcceptedHeaders(buf: seq<byte>)
    ensures Parse(buf).Some? <==>
      && |buf| >= 44 && buf[0] == 0x02 && buf[6] == 44 && XorAll(buf[..32]) == 0
      && FromBe16(buf[1..3]) >= (if HasBit(FromBe16(buf[4..6]), 0x0010) then 48 else 46)
  {
    if |buf| >= 44 {
      assert buf[..32][..31] == buf[..31];
      XorZero(XorAll(buf[..31]), buf[31]);
    }
  }

  /** The data is what the packet length leaves between the 44 header bytes and the tail. */
  lemma DataLength(buf: seq<byte>)
    requires Parse(buf).Some?
    ensures var h := Parse(buf).value;
      && h.packetLength == FromBe16(buf[1..3]) && h.fields.frameOption == FromBe16(buf[4..6])
      && h.dataLen == h.packetLength - (if HasBit(h.fields.frameOption, 0x0010) then 48 else 46)
  {
  }

  /** Only the header bytes are looked at. */
  lemma ParseLooksAtHeader(a: seq<byte>, b: seq<byte>)
    requires |a| >= HEADER_LEN
    ensures Parse(a + b) == Parse(a)
  {
    var s := a + b;
    assert s[..31] == a[..31] && s[1..3] == a[1..3] && s[4..6] == a[4..6] && s[7..15] == a[7..15];
    assert s[15..20] == a[15..20] && s[20..24] == a[20..24] && s[24..28] == a[24..28];
    assert s[36..38] == a[36..38] && s[38..40] == a[38..40] && s[40..42] == a[40..42] && s[42..44] == a[42..44];
  }

  // ---- Frame option ----

  /** (x | REQUEST_ACK) & ~CHECK_PACKET */
  function SentOption(x: u16): u16 {
    ClearCheck(SetAck(x))
  }

  function SetAck(x: u16): u16 {
    if HasBit(x, FOPT_REQUEST_ACK) then x else x + FOPT_REQUEST_ACK
  }

  function ClearCheck(x: u16): u16 {
    if HasBit(x, FOPT_CHECK_PACKET) then x - FOPT_CHECK_PACKET else x
  }

  lemma AckBits(x: u16, d: u16)
    requires d in BITS
    ensures HasBit(SetAck(x), d) <==> d == FOPT_REQUEST_ACK || HasBit(x, d)
  {
    if d < FOPT_REQUEST_ACK {
      var k := EvenShare(FOPT_REQUEST_ACK, d);
      EvenAdd(x, d, k);
    }
  }

  lemma ClearedLow(x: u16, d: u16)
    requires HasBit(x, FOPT_CHECK_PACKET) && d in BITS && d < FOPT_CHECK_PACKET
    ensures HasBit(x - FOPT_CHECK_PACKET, d) <==> HasBit(x, d)
  {
    var k := EvenShare(FOPT_CHECK_PACKET, d);
    EvenAdd(x, d, -k);
  }

  lemma ClearedHigh(x: u16, d: u16)
    requires HasBit(x, FOPT_CHECK_PACKET) && d in BITS && d > FOPT_CHECK_PACKET
    ensures x >= FOPT_CHECK_PACKET && (HasBit(x - FOPT_CHECK_PACKET, d) <==> HasBit(x, d))
  {
    HighBits(x, x / 0x20, x % 0x20, d);
    HighBits(x - FOPT_CHECK_PACKET, x / 0x20, x % 0x20 - FOPT_CHECK_PACKET, d);
  }

  lemma CheckBits(x: u16, d: u16)
    requires d in BITS
    ensures HasBit(ClearCheck(x), d) <==> d != FOPT_CHECK_PACKET && HasBit(x, d)
  {
    if HasBit(x, FOPT_CHECK_PACKET) {
      if d < FOPT_CHECK_PACKET {
        ClearedLow(x, d);
      } else if d > FOPT_CHECK_PACKET {
        ClearedHigh(x, d);
      }
    }
  }

  /** The acknowledge bit is on, the check bit is off, every other bit is as it was. */
  lemma SentOptionBits(x: u16, d: u16)
    requires d in BITS
    ensures HasBit(SentOption(x), d) <==> d == FOPT_REQUEST_ACK || (d != FOPT_CHECK_PACKET && HasBit(x, d))
  {
    AckBits(x, d);
    CheckBits(SetAck(x), d);
  }

  /** For each of the sixteen bits. */
  lemma EveryOptionBit(x: u16, k: nat)
    requires k < 16
    ensures Pow2(k) < 0x1_0000
    ensures HasBit(SentOption(x), Pow2(k)) <==> k == 15 || (k != 4 && HasBit(x, Pow2(k)))
  {
    PowerIsBit(k);
    SentOptionBits(x, Pow2(k));
  }

  lemma PowerIsBit(k: nat)
    requires k < 16
    ensures Pow2(k) in BITS && (Pow2(k) == 0x8000 <==> k == 15) && (Pow2(k) == 0x10 <==> k == 4)
  {
    assert Pow2(7) == 0x80;
    if k > 7 {
      Pow2Add(7, k - 7);
      assert Pow2(k) == 0x80 * Pow2(k - 7);
    }
  }

  // ---- Building ----

  /** STX to the frame option and the header length. */
  function StartBytes(f: Fields, total: u16): (s: seq<byte>)
    ensures |s| == 7
  {
    [STX] + Be16(total) + [PROTOCOL_VERSION_V2] + Be16(SentOption(f.frameOption)) + [HEADER_LEN]
  }

  /** The first 31 bytes: STX to SubCommand. */
  function HeadBytes(f: Fields, total: u16): (s: seq<byte>)
    ensures |s| == 31
  {
    StartBytes(f, total) + f.dest + f.src + Be32(f.frameIndex) + Be32(f.password) + [0, f.command, f.subCommand]
  }

  function BlockBytes(f: Fields): (s: seq<byte>)
    ensures |s| == 12
  {
    [0, f.obj, f.startItem, f.endItem] + Be16(f.dataCurrent) + Be16(f.dataEnd) + Be16(f.dataTotal) + Be16(f.dataOneLen)
  }

  function HeaderBytes(f: Fields, total: u16): (s: seq<byte>)
    ensures |s| == HEADER_LEN
  {
    HeadBytes(f, total) + [XorAll(HeadBytes(f, total))] + BlockBytes(f)
  }

  function Packet(f: Fields, data: seq<byte>): (p: seq<byte>)
    requires |data| <= MAX_DATA_LEN
    ensures |p| == HEADER_LEN + |data| + 2
  {
    HeaderBytes(f, HEADER_LEN + |data| + 2) + data + [PACKET_CHECKSUM_FIXED, ETX]
  }

  method WriteStart(out: array<byte>, f: Fields, total: u16)
    requires out.Length >= HEADER_LEN
    modifies out
    ensures out[..7] == StartBytes(f, total)
  {
    var option := f.frameOption;
    if !HasBit(option, FOPT_REQUEST_ACK) { option := option + FOPT_REQUEST_ACK; }
    if HasBit(option, FOPT_CHECK_PACKET) { option := option - FOPT_CHECK_PACKET; }
    assert option == SentOption(f.frameOption);
    hide HasBit, SentOption, Be16;
    out[0] := STX;
    Append(out, 1, Be16(total));
    out[3] := PROTOCOL_VERSION_V2;
    Append(out, 4, Be16(option));
    out[6] := HEADER_LEN;
  }

  method WriteHead(out: array<byte>, f: Fields, total: u16)
    requires out.Length >= HEADER_LEN
    modifies out
    ensures out[..31] == HeadBytes(f, total)
  {
    hide StartBytes, Be32;
    WriteStart(out, f, total);
    Append(out, 7, f.dest);
    Append(out, 15, f.src);
    Append(out, 20, Be32(f.frameIndex));
    Append(out, 24, Be32(f.password));
    Append(out, 28, [0, f.command, f.subCommand]);
  }

  method WriteBlock(out: array<byte>, f: Fields)
    requires out.Length >= HEADER_LEN
    modifies out
    ensures out[..HEADER_LEN] == old(out[..32]) + BlockBytes(f)
  {
    Append(out, 32, [0, f.obj, f.startItem, f.endItem]);
    Append(out, 36, Be16(f.dataCurrent));
    Append(out, 38, Be16(f.dataEnd));
    Append(out, 40, Be16(f.dataTotal));
    Append(out, 42, Be16(f.dataOneLen));
  }

  /** Writes the packet at the start of out and returns its length, or -1 when it does not fit. */
  method BuildPacket(out: array<byte>, f: Fields, data: seq<byte>) returns (n: int)
    modifies out
    ensures n == -1 <==> |data| > MAX_DATA_LEN || HEADER_LEN + |data| + 2 > out.Length
    ensures n == -1 ==> out[..] == old(out[..])
    ensures n != -1 ==> 0 <= n <= out.Length && out[..n] == Packet(f, data)
  {
    var total := HEADER_LEN + |data| + 2;
    if total > out.Length || total > 0xFFFF { return -1; }
    WriteHead(out, f, total);
    var checksum := ComputeXor(out[..], 0, 31);
    assert out[..][0..31] == out[..31];
    Append(out, 31, [checksum]);
    WriteBlock(out, f);
    Append(out, HEADER_LEN, data);
    Append(out, HEADER_LEN + |data|, [PACKET_CHECKSUM_FIXED, ETX]);
    n := total;
  }

  lemma HeadSlices(f: Fields, total: u16)
    ensures var s := HeadBytes(f, total);
      && s[0] == STX && s[1..3] == Be16(total) && s[3] == PROTOCOL_VERSION_V2
      && s[4..6] == Be16(SentOption(f.frameOption)) && s[6] == HEADER_LEN
      && s[7..15] == f.dest && s[15..20] == f.src && s[20..24] == Be32(f.frameIndex) && s[24..28] == Be32(f.password)
      && s[28] == 0 && s[29] == f.command && s[30] == f.subCommand
  {
    hide Be16, Be32, SentOption;
    var s, t := HeadBytes(f, total), StartBytes(f, total);
    assert s[..7] == t;
    assert s[1..3] == t[1..3] && s[4..6] == t[4..6] && s[0] == t[0] && s[3] == t[3] && s[6] == t[6];
  }

  lemma BlockSlices(f: Fields)
    ensures var s := BlockBytes(f);
      && s[0] == 0 && s[1] == f.obj && s[2] == f.startItem && s[3] == f.endItem
      && s[4..6] == Be16(f.dataCurrent) && s[6..8] == Be16(f.dataEnd)
      && s[8..10] == Be16(f.dataTotal) && s[10..12] == Be16(f.dataOneLen)
  {
    hide Be16;
  }

  lemma HeaderSlices(f: Fields, total: u16)
    ensures var s := HeaderBytes(f, total);
      && s[0] == STX && s[1..3] == Be16(total) && s[3] == PROTOCOL_VERSION_V2
      && s[4..6] == Be16(SentOption(f.frameOption)) && s[6] == HEADER_LEN
      && s[7..15] == f.dest && s[15..20] == f.src && s[20..24] == Be32(f.frameIndex) && s[24..28] == Be32(f.password)
      && s[28] == 0 && s[29] == f.command && s[30] == f.subCommand
      && s[..31] == HeadBytes(f, total) && s[31] == XorAll(HeadBytes(f, total))
      && s[32] == 0 && s[33] == f.obj && s[34] == f.startItem && s[35] == f.endItem
      && s[36..38] == Be16(f.dataCurrent) && s[38..40] == Be16(f.dataEnd)
      && s[40..42] == Be16(f.dataTotal) && s[42..44] == Be16(f.dataOneLen)
  {
    HeadSlices(f, total);
    BlockSlices(f);
    hide HeadBytes, BlockBytes, Be16, Be32, SentOption, XorAll;
    var s, head, block := HeaderBytes(f, total), HeadBytes(f, total), BlockBytes(f);
    assert s[..31] == head;
    InFront(s, head);
    Behind(s, block);
  }

  lemma InFront(s: seq<byte>, head: seq<byte>)
    requires |head| == 31 && |s| == 44 && s[..31] == head
    ensures s[1..3] == head[1..3] && s[4..6] == head[4..6] && s[7..15] == head[7..15] && s[15..20] == head[15..20]
    ensures s[20..24] == head[20..24] && s[24..28] == head[24..28] && forall i | 0 <= i < 31 :: s[i] == head[i]
  {
  }

  lemma Behind(s: seq<byte>, block: seq<byte>)
    requires |block| == 12 && |s| == 44 && s[32..] == block
    ensures s[36..38] == block[4..6] && s[38..40] == block[6..8]
    ensures s[40..42] == block[8..10] && s[42..44] == block[10..12]
    ensures forall i | 0 <= i < 12 :: s[32 + i] == block[i]
  {
  }

  /** Where everything stands in a built packet. */
  lemma PacketLayout(f: Fields, data: seq<byte>)
    requires |data| <= MAX_DATA_LEN
    ensures var p := Packet(f, data);
      && |p| == |data| + 46 <= 0xFFFF
      && p[0] == 0x02 && p[1..3] == Be16(|p|) && p[3] == 2 && p[4..6] == Be16(SentOption(f.frameOption)) && p[6] == 44
      && p[7..15] == f.dest && p[15..20] == f.src && p[20..24] == Be32(f.frameIndex) && p[24..28] == Be32(f.password)
      && p[28] == 0 && p[29] == f.command && p[30] == f.subCommand && XorAll(p[..32]) == 0
      && p[32] == 0 && p[33] == f.obj && p[34] == f.startItem && p[35] == f.endItem
      && p[36..38] == Be16(f.dataCurrent) && p[38..40] == Be16(f.dataEnd)
      && p[40..42] == Be16(f.dataTotal) && p[42..44] == Be16(f.dataOneLen)
      && p[44..44 + |data|] == data && p[44 + |data|..] == [0x08, 0x03]
  {
    var total := HEADER_LEN + |data| + 2;
    var head := HeaderBytes(f, total);
    var p := Packet(f, data);
    HeaderSlices(f, total);
    assert p == head + (data + [0x08, 0x03]);
    assert p[..32][..31] == head[..31];
    XorZero(XorAll(head[..31]), head[31]);
    hide HeaderBytes, Be16, Be32;
    HeaderInPacket(p, head);
  }

  lemma HeaderInPacket(p: seq<byte>, head: seq<byte>)
    requires |head| == 44 && |p| >= 44 && p[..44] == head
    ensures p[1..3] == head[1..3] && p[4..6] == head[4..6] && p[7..15] == head[7..15] && p[15..20] == head[15..20]
    ensures p[20..24] == head[20..24] && p[24..28] == head[24..28] && p[36..38] == head[36..38]
    ensures p[38..40] == head[38..40] && p[40..42] == head[40..42] && p[42..44] == head[42..44]
    ensures forall i | 0 <= i < 44 :: p[i] == head[i]
  {
  }

  lemma FieldsRoundTrip(f: Fields, total: u16)
    ensures FieldsAt(HeaderBytes(f, total)) == f.(frameOption := SentOption(f.frameOption))
    ensures FromBe16(HeaderBytes(f, total)[1..3]) == total
  {
    HeaderSlices(f, total);
    var s := HeaderBytes(f, total);
    Be16RoundTrip(total, s[1..3]);
    Be16RoundTrip(SentOption(f.frameOption), s[1..3]);
    Be32RoundTrip(f.frameIndex, s[20..24]);
    Be32RoundTrip(f.password, s[20..24]);
    Be16RoundTrip(f.dataCurrent, s[1..3]);
    Be16RoundTrip(f.dataEnd, s[1..3]);
    Be16RoundTrip(f.dataTotal, s[1..3]);
    Be16RoundTrip(f.dataOneLen, s[1..3]);
  }

  /** Building then parsing returns every field, with only the two option bits forced, and the data. */
  lemma PacketRoundTrip(f: Fields, data: seq<byte>)
    requires |data| <= MAX_DATA_LEN
    ensures var p := Packet(f, data);
      && Parse(p) == Some(Header(|p|, PROTOCOL_VERSION_V2, f.(frameOption := SentOption(f.frameOption)), |data|))
      && p[HEADER_LEN..HEADER_LEN + |data|] == data
  {
    var total := HEADER_LEN + |data| + 2;
    var head := HeaderBytes(f, total);
    ParseLooksAtHeader(head, data + [PACKET_CHECKSUM_FIXED, ETX]);
    assert Packet(f, data) == head + (data + [PACKET_CHECKSUM_FIXED, ETX]);
    HeaderSlices(f, total);
    FieldsRoundTrip(f, total);
    SentOptionBits(f.frameOption, FOPT_CHECK_PACKET);
  }

  /** The header checksum catches any single altered byte among the first 32. */
  lemma AlteredHeaderRejected(buf: seq<byte>, i: nat, b: byte)
    requires Parse(buf).Some? && i <= 31 && b != buf[i]
    ensures Parse(buf[i := b]) == None
  {
    if i == 31 {
      assert buf[i := b][..31] == buf[..31];
    } else {
      assert buf[i := b][..31] == buf[..31][i := b];
      XorAllDetects(buf[..31], buf[..31][i := b], i);
    }
  }
}
