/** Frames between the ACU and the RRU (tools/rru_proto_check.c): STX, a two-byte length, SEQ, TYPE and
    payload, CRC-16, ETX. The parser takes one byte at a time and has no timeout. */
module RruFrame {
  import opened Bytes
  import opened BitString
  import opened Crc16
  import opened CrcOrder

  const STX := 0x02
  const ETX := 0x03
  const MAX_PAYLOAD: nat := 255
  const FRAME_MAX: nat := 1 + 2 + 2 + MAX_PAYLOAD + 2 + 1

  datatype Content = Content(seqNo: byte, kind: byte, payload: seq<byte>)

  predicate Sendable(c: Content) { |c.payload| <= MAX_PAYLOAD }

  // ---- Building ----

  function Body(c: Content): (b: seq<byte>)
    ensures |b| == 2 + |c.payload|
  {
    [c.seqNo, c.kind] + c.payload
  }

  function Sealed(body: seq<byte>): (s: seq<byte>)
    ensures |s| == |body| + 2
  {
    body + Be16(Crc(body))
  }

  function Frame(c: Content): (f: seq<byte>)
    requires Sendable(c)
    ensures |f| == 8 + |c.payload| <= FRAME_MAX
  {
    [STX] + Be16(|Body(c)|) + Sealed(Body(c)) + [ETX]
  }

  method Build(out: array<byte>, c: Content) returns (n: nat)
    requires Sendable(c) && out.Length == FRAME_MAX
    modifies out
    ensures n <= out.Length && out[..n] == Frame(c)
  {
    hide Crc, Be16;
    var body := 2 + |c.payload|;
    out[0] := STX;
    Append(out, 1, Be16(body));
    Append(out, 3, [c.seqNo, c.kind]);
    Append(out, 5, c.payload);
    assert out[3..3 + body] == Body(c);
    var crc := ComputeCrc(out[3..3 + body]);
    Append(out, 3 + body, Be16(crc));
    Append(out, 3 + body + 2, [ETX]);
    n := 3 + body + 3;
  }

  // ---- Parsing ----

  function BodyLen(s: seq<byte>): nat
    requires |s| >= 3
  {
    FromBe16(s[1..3])
  }

  predicate LengthOk(n: nat) { 2 <= n <= 2 + MAX_PAYLOAD }

  predicate FrameOk(f: seq<byte>)
    requires |f| >= 8 && |f| == BodyLen(f) + 6
  {
    f[|f| - 1] == ETX && FromBe16(f[|f| - 3..|f| - 1]) == Crc(f[3..|f| - 3])
  }

  /** What the parser holds between two bytes. */
  predicate Holding(s: seq<byte>) {
    (|s| > 0 ==> s[0] == STX) && (|s| >= 3 ==> LengthOk(BodyLen(s)) && |s| < BodyLen(s) + 6)
  }

  /** The bytes held after one more byte, and the frame it completed. */
  function Step(s: seq<byte>, b: byte): (r: (seq<byte>, seq<seq<byte>>))
    requires Holding(s)
    ensures Holding(r.0) && |r.0| < FRAME_MAX
  {
    var t := s + [b];
    assert |s| >= 3 ==> t[1..3] == s[1..3];
    if s == [] then (if b == STX then t else [], [])
    else if |t| < 3 then (t, [])
    else if |t| == 3 && !LengthOk(BodyLen(t)) then ([], [])
    else if |t| < BodyLen(t) + 6 then (t, [])
    else ([], if FrameOk(t) then [t] else [])
  }

  /** A run of bytes: the bytes held at the end, and the frames accepted on the way. */
  function Feed(s: seq<byte>, bytes: seq<byte>): (r: (seq<byte>, seq<seq<byte>>))
    requires Holding(s)
    ensures Holding(r.0)
    decreases |bytes|
  {
    if bytes == [] then (s, [])
    else
      var (s1, out) := Step(s, bytes[0]);
      var (s2, more) := Feed(s1, bytes[1..]);
      (s2, out + more)
  }

  class RruRx {
    const buf: array<byte>
    var len: nat
    var want: nat

    ghost predicate Valid()
      reads this, buf
    {
      && buf.Length == FRAME_MAX && len <= FRAME_MAX
      && Holding(buf[..len])
      && (len >= 3 ==> want == BodyLen(buf[..len]) + 6)
      && (0 < len < 3 ==> want == 0)
    }

    constructor ()
      ensures Valid() && len == 0 && fresh(buf)
    {
      buf := new byte[FRAME_MAX](_ => 0);
      len, want := 0, 0;
    }

    /** Takes one byte; on true the frame is at the start of the buffer. */
    method RxByte(b: byte) returns (ok: bool)
      requires Valid()
      modifies this, buf
      ensures Valid()
      ensures var (held, frames) := Step(old(buf[..len]), b);
        buf[..len] == held && ok == (frames != []) && (ok ==> want <= FRAME_MAX && frames == [buf[..want]])
    {
      ghost var t := buf[..len] + [b];
      if len == 0 {
        if b != STX { return false; }
        buf[0] := b;
        len, want := 1, 0;
        return false;
      }
      buf[len] := b;
      len := len + 1;
      assert buf[..len] == t;
      if len == 3 {
        var body := FromBe16(buf[1..3]);
        assert t[1..3] == buf[1..3];
        if body < 2 || body > 2 + MAX_PAYLOAD {
          len := 0;
          return false;
        }
        want := 3 + body + 3;
      }
      if want == 0 || len < want { return false; }
      ok := Judge();
      assert buf[..want] == t;
      len := 0;
    }

    method Judge() returns (ok: bool)
      requires buf.Length == FRAME_MAX && 8 <= want <= FRAME_MAX
      requires want == BodyLen(buf[..want]) + 6
      ensures ok == FrameOk(buf[..want])
    {
      var body := want - 6;
      var got := FromBe16(buf[3 + body..3 + body + 2]);
      var crc := ComputeCrc(buf[3..3 + body]);
      ghost var f := buf[..want];
      assert f[3..3 + body] == buf[3..3 + body] && f[3 + body..3 + body + 2] == buf[3 + body..3 + body + 2];
      ok := buf[want - 1] == ETX && got == crc;
    }
  }

  // ---- Runs of bytes ----

  lemma {:induction false} FeedSplits(s: seq<byte>, a: seq<byte>, b: seq<byte>)
    requires Holding(s)
    ensures var (held, out) := Feed(s, a);
      Feed(s, a + b) == (Feed(held, b).0, out + Feed(held, b).1)
    decreases |a|
  {
    hide Crc;
    if a == [] {
      assert a + b == b && [] + Feed(s, b).1 == Feed(s, b).1;
    } else {
      assert (a + b)[1..] == a[1..] + b;
      var (s1, out) := Step(s, a[0]);
      FeedSplits(s1, a[1..], b);
      var more, rest := Feed(s1, a[1..]).1, Feed(Feed(s1, a[1..]).0, b).1;
      assert out + (more + rest) == (out + more) + rest;
    }
  }

  lemma FeedOne(s: seq<byte>, b: byte)
    requires Holding(s)
    ensures Feed(s, [b]) == Step(s, b)
  {
    hide Crc;
    assert [b][1..] == [];
    assert Step(s, b).1 + [] == Step(s, b).1;
  }

  /** As long as its length field says, whatever else is in it. */
  predicate Shaped(f: seq<byte>) {
    |f| >= 8 && f[0] == STX && LengthOk(BodyLen(f)) && |f| == BodyLen(f) + 6
  }

  /** Before its last byte a frame is only gathered. */
  lemma {:induction false} Gathered(f: seq<byte>, k: nat)
    requires Shaped(f) && k < |f|
    ensures Holding(f[..k]) && Feed([], f[..k]) == (f[..k], [])
  {
    hide Crc;
    if k > 0 {
      Gathered(f, k - 1);
      assert f[..k] == f[..k - 1] + [f[k - 1]];
      assert k >= 3 ==> f[..k][1..3] == f[1..3];
      FeedSplits([], f[..k - 1], [f[k - 1]]);
      FeedOne(f[..k - 1], f[k - 1]);
    }
  }

  /** At its last byte it is accepted or dropped, and the parser is idle again. */
  lemma ShapedEnds(f: seq<byte>)
    requires Shaped(f)
    ensures Feed([], f) == ([], if FrameOk(f) then [f] else [])
  {
    hide Crc;
    var n := |f| - 1;
    Gathered(f, n);
    assert f == f[..n] + [f[n]];
    FeedSplits([], f[..n], [f[n]]);
    FeedOne(f[..n], f[n]);
    assert f[..n][1..3] == f[1..3];
    var out := Step(f[..n], f[n]).1;
    assert [] + out == out;
  }

  lemma {:induction false} JunkSkipped(junk: seq<byte>)
    requires STX !in junk
    ensures Feed([], junk) == ([], [])
    decreases |junk|
  {
    hide Crc;
    if junk != [] {
      JunkSkipped(junk[1..]);
      var more := Feed([], junk[1..]).1;
      assert [] + more == more;
    }
  }

  function Good(pieces: seq<seq<byte>>): seq<seq<byte>> {
    if pieces == [] then []
    else (if Shaped(pieces[0]) && FrameOk(pieces[0]) then [pieces[0]] else []) + Good(pieces[1..])
  }

  /** Any mixture of junk without STX, damaged frames of the right length and intact frames: exactly the
      intact ones come out, in order, and the parser ends idle. */
  lemma {:induction false} ExactlyIntactFrames(pieces: seq<seq<byte>>)
    requires forall i | 0 <= i < |pieces| :: Shaped(pieces[i]) || STX !in pieces[i]
    ensures Feed([], Concat(pieces)) == ([], Good(pieces))
  {
    hide Crc, FrameOk;
    if pieces != [] {
      var p := pieces[0];
      FeedSplits([], p, Concat(pieces[1..]));
      if Shaped(p) { ShapedEnds(p); } else { JunkSkipped(p); }
      ExactlyIntactFrames(pieces[1..]);
    }
  }

  /** However it got there, the parser is idle again within the longest frame. */
  lemma {:induction false} IdleAgain(s: seq<byte>, bytes: seq<byte>) returns (k: nat)
    requires Holding(s) && |s| <= 263 <= |s| + |bytes|
    ensures k <= |bytes| && |s| + k <= 263 && Feed(s, bytes[..k]).0 == []
    decreases FRAME_MAX - |s|
  {
    hide Crc, FrameOk;
    if s == [] {
      k := 0;
    } else {
      var s1 := Step(s, bytes[0]).0;
      if s1 == [] {
        FeedOne(s, bytes[0]);
        assert bytes[..1] == [bytes[0]];
        k := 1;
      } else {
        var k1 := IdleAgain(s1, bytes[1..]);
        k := k1 + 1;
        assert bytes[..k][1..] == bytes[1..][..k1];
      }
    }
  }

  // ---- Building and parsing ----

  function ContentOf(f: seq<byte>): Content
    requires |f| >= 8
  {
    Content(f[3], f[4], f[5..|f| - 3])
  }

  lemma FrameSlices(c: Content)
    requires Sendable(c)
    ensures var f := Frame(c); var n := |f|;
      && f[0] == STX && f[1..3] == Be16(|Body(c)|) && f[3..n - 3] == Body(c) && f[3..n - 1] == Sealed(Body(c))
      && f[n - 3..n - 1] == Be16(Crc(Body(c))) && f[n - 1] == ETX && f[5..n - 3] == c.payload
  {
    hide Crc;
  }

  /** A built frame is accepted, at its last byte, and yields what was sent. */
  lemma FrameRoundTrip(c: Content)
    requires Sendable(c)
    ensures Shaped(Frame(c)) && FrameOk(Frame(c)) && ContentOf(Frame(c)) == c
    ensures Feed([], Frame(c)) == ([], [Frame(c)])
    ensures forall k: nat | k < |Frame(c)| :: Feed([], Frame(c)[..k]) == (Frame(c)[..k], [])
  {
    hide Crc;
    var f := Frame(c);
    FrameSlices(c);
    Be16RoundTrip(|Body(c)|, f[1..3]);
    Be16RoundTrip(Crc(Body(c)), f[1..3]);
    ShapedEnds(f);
    forall k: nat | k < |f| ensures Feed([], f[..k]) == (f[..k], []) { Gathered(f, k); }
  }

  /** Only built frames are intact. */
  lemma IntactIsBuilt(f: seq<byte>)
    requires Shaped(f) && FrameOk(f)
    ensures Sendable(ContentOf(f)) && f == Frame(ContentOf(f))
  {
    hide Crc;
    var n := |f|;
    var body := Body(ContentOf(f));
    assert body == f[3..n - 3];
    Be16RoundTrip(0, f[1..3]);
    Be16RoundTrip(0, f[n - 3..n - 1]);
    assert f == [f[0]] + f[1..3] + (f[3..n - 3] + f[n - 3..n - 1]) + [f[n - 1]];
  }

  lemma {:induction false} AcceptedIsIntact(s: seq<byte>, bytes: seq<byte>)
    requires Holding(s)
    ensures forall i | 0 <= i < |Feed(s, bytes).1| :: Shaped(Feed(s, bytes).1[i]) && FrameOk(Feed(s, bytes).1[i])
    decreases |bytes|
  {
    hide Crc, FrameOk;
    if bytes != [] {
      AcceptedIsIntact(Step(s, bytes[0]).0, bytes[1..]);
    }
  }

  /** From any state and for any bytes, whatever the parser accepts is a frame somebody could have built. */
  lemma AcceptedIsBuilt(s: seq<byte>, bytes: seq<byte>, i: nat)
    requires Holding(s) && i < |Feed(s, bytes).1|
    ensures var f := Feed(s, bytes).1[i]; |f| >= 8 && Sendable(ContentOf(f)) && f == Frame(ContentOf(f))
  {
    AcceptedIsIntact(s, bytes);
    IntactIsBuilt(Feed(s, bytes).1[i]);
  }

  /** Where everything stands in a frame of 8 to 263 bytes, both words with the high byte first. */
  lemma FrameLayout(c: Content)
    requires Sendable(c)
    ensures var f := Frame(c);
      var n := |f|;
      && n == 8 + |c.payload| <= 263
      && f[0] == 0x02 && f[n - 1] == 0x03 && f[1] as int * 0x100 + f[2] == 2 + |c.payload|
      && f[3] == c.seqNo && f[4] == c.kind && f[5..n - 3] == c.payload
      && f[n - 3] as int * 0x100 + f[n - 2] == Crc([c.seqNo, c.kind] + c.payload)
  {
    hide Crc, Be16;
    var f, n := Frame(c), |Frame(c)|;
    FrameSlices(c);
    hide Frame;
    assert f[1..3][0] == f[1] && f[1..3][1] == f[2];
    assert f[n - 3..n - 1][0] == f[n - 3] && f[n - 3..n - 1][1] == f[n - 2];
    HighFirst(|Body(c)|);
    HighFirst(Crc(Body(c)));
  }

  lemma HighFirst(x: u16)
    ensures Be16(x)[0] as int * 0x100 + Be16(x)[1] == x
  {
  }

  // ---- Damage ----

  lemma SealChecks(body: seq<byte>, got: seq<byte>)
    requires |got| == 2
    ensures Crc(body + got) == 0 <==> FromBe16(got) == Crc(body)
  {
    hide From;
    FromSplit(INITIAL, body, got);
    Be16RoundTrip(0, got);
    Residue(Crc(body), FromBe16(got));
  }

  /** Damage from SEQ through the CRC that changes the checksum of those bytes keeps the frame out. */
  lemma ChecksumTells(c: Content, f: seq<byte>)
    requires Sendable(c) && |f| == |Frame(c)| && f[..3] == Frame(c)[..3]
    requires From(INITIAL, Sealed(Body(c))) != From(INITIAL, f[3..|f| - 1])
    ensures Shaped(f) && !FrameOk(f)
  {
    hide From;
    FrameRoundTrip(c);
    FrameSlices(c);
    var n, built := |f|, Frame(c);
    assert f[0] == f[..3][0] && f[1..3] == f[..3][1..] && built[1..3] == built[..3][1..];
    SealChecks(Body(c), Be16(Crc(Body(c))));
    Be16RoundTrip(Crc(Body(c)), f[1..3]);
    SealChecks(f[3..n - 3], f[n - 3..n - 1]);
    assert f[3..n - 1] == f[3..n - 3] + f[n - 3..n - 1];
  }

  /** Damage from SEQ through the CRC that is within 16 consecutive bits, or in an odd number of bits, is
      always noticed, for frames of any length. */
  lemma DamageNoticed(c: Content, f: seq<byte>)
    requires Sendable(c) && |f| == |Frame(c)| && f[..3] == Frame(c)[..3]
    requires Detectable(Sealed(Body(c)), f[3..|f| - 1])
    ensures Shaped(f) && !FrameOk(f)
  {
    hide From, Detectable, FrameOk;
    AlterationDetected(INITIAL, Sealed(Body(c)), f[3..|f| - 1]);
    ChecksumTells(c, f);
  }

  /** So are up to three altered bits there, wherever they lie. */
  lemma ThreeBitsNoticed(c: Content, f: seq<byte>)
    requires Sendable(c) && |f| == |Frame(c)| && f[..3] == Frame(c)[..3]
    requires 1 <= Ones(XorBits(BitsOf(Sealed(Body(c))), BitsOf(f[3..|f| - 1]))) <= 3
    ensures Shaped(f) && !FrameOk(f)
  {
    hide From, Ones, FrameOk;
    ThreeBitsChange(INITIAL, Sealed(Body(c)), f[3..|f| - 1]);
    ChecksumTells(c, f);
  }

  lemma NeighboursDetectable(c: Content, f: seq<byte>, k: nat)
    requires Sendable(c) && |f| == |Frame(c)| && f != Frame(c) && 3 <= k <= |f| - 2
    requires forall i | 0 <= i < |f| && f[i] != Frame(c)[i] :: i == k || (i == k + 1 && i <= |f| - 2)
    ensures f[..3] == Frame(c)[..3] && Detectable(Sealed(Body(c)), f[3..|f| - 1])
  {
    hide Crc;
    FrameSlices(c);
    var n := |f|;
    var was, now := Frame(c)[3..n - 1], f[3..n - 1];
    var i :| 0 <= i < n && f[i] != Frame(c)[i];
    assert was[i - 3] == Frame(c)[i] && now[i - 3] == f[i];
    assert forall j | 0 <= j < |was| :: was[j] == Frame(c)[3 + j] && now[j] == f[3 + j];
    TwoBytesDetectable(was, now, k - 3);
  }

  /** One altered byte, or two neighbours, from SEQ through the CRC: the frame is dropped at its end and
      the next one is accepted. */
  lemma DamagedFrameDropped(c: Content, f: seq<byte>, k: nat, next: Content)
    requires Sendable(c) && Sendable(next) && |f| == |Frame(c)| && f != Frame(c)
    requires 3 <= k <= |f| - 2
    requires forall i | 0 <= i < |f| && f[i] != Frame(c)[i] :: i == k || (i == k + 1 && i <= |f| - 2)
    ensures Feed([], f) == ([], []) && Feed([], f + Frame(next)) == ([], [Frame(next)])
  {
    hide Crc, FrameOk, Frame, Detectable;
    NeighboursDetectable(c, f, k);
    DamageNoticed(c, f);
    ShapedEnds(f);
    FrameRoundTrip(next);
    FeedSplits([], f, Frame(next));
    assert [] + [Frame(next)] == [Frame(next)];
  }
}
