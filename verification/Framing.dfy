/** Receiving packets over TCP (acud/net.c, net_on_client_ready): recv hands over arbitrary pieces of the
    byte stream; complete packets are answered in order and the unfinished end is kept for next time.
    A bad header throws away everything received so far. */
module Framing {
  import opened Bytes
  import opened IdtiPacket

  const RECV_CAP: nat := 65536

  /** The packets taken out of a run of bytes, what is kept, and what a bad header threw away. */
  datatype Scan = Scan(packets: seq<seq<byte>>, rest: seq<byte>, discarded: seq<byte>) {
    function Then(next: Scan): Scan {
      Scan(packets + next.packets, next.rest, discarded + next.discarded)
    }
  }

  /** A complete packet at the front. */
  predicate HasPacket(s: seq<byte>) {
    Parse(s).Some? && |s| >= Parse(s).value.packetLength
  }

  function FirstLen(s: seq<byte>): (n: nat)
    requires HasPacket(s)
    ensures HEADER_LEN < n <= |s|
  {
    Parse(s).value.packetLength
  }

  /** Enough bytes for a header, and not a header. */
  predicate BadHeader(s: seq<byte>) {
    |s| >= HEADER_LEN && Parse(s).None?
  }

  predicate Whole(p: seq<byte>) {
    HasPacket(p) && FirstLen(p) == |p|
  }

  /** The beginning of a packet, with at least one byte still to come. */
  predicate Unfinished(s: seq<byte>) {
    !HasPacket(s) && !BadHeader(s)
  }

  function Drain(s: seq<byte>): Scan
    decreases |s|
  {
    if HasPacket(s) then
      var d := Drain(s[FirstLen(s)..]);
      Scan([s[..FirstLen(s)]] + d.packets, d.rest, d.discarded)
    else if BadHeader(s) then Scan([], [], s)
    else Scan([], s, [])
  }

  /** Successive recv results, each appended to what the previous ones left. */
  function Feed(kept: seq<byte>, pieces: seq<seq<byte>>): Scan
    decreases |pieces|
  {
    if pieces == [] then Scan([], kept, [])
    else
      var first := Drain(kept + pieces[0]);
      first.Then(Feed(first.rest, pieces[1..]))
  }

  // ---- What is taken out is what came in ----

  /** What stands at the front is not changed by what comes after it. */
  lemma FrontStays(a: seq<byte>, b: seq<byte>)
    ensures HasPacket(a) ==> HasPacket(a + b) && FirstLen(a + b) == FirstLen(a)
    ensures BadHeader(a) ==> BadHeader(a + b)
    ensures |a| >= HEADER_LEN && BadHeader(a + b) ==> BadHeader(a)
  {
    if |a| >= HEADER_LEN { ParseLooksAtHeader(a, b); }
    hide Parse;
  }

  lemma FrontIsWhole(s: seq<byte>)
    requires HasPacket(s)
    ensures Whole(s[..FirstLen(s)])
  {
    var n := FirstLen(s);
    ParseLooksAtHeader(s[..n], s[n..]);
    assert s == s[..n] + s[n..];
    hide Parse;
  }

  lemma ShortIsUnfinished(s: seq<byte>)
    requires |s| < HEADER_LEN
    ensures Unfinished(s)
  {
  }

  lemma UnfinishedIsShort(s: seq<byte>)
    requires Unfinished(s)
    ensures |s| < RECV_CAP - 1
  {
  }

  lemma Conserved(s: seq<byte>, d: Scan, n: nat)
    requires n <= |s| && Concat(d.packets) + d.rest + d.discarded == s[n..]
    ensures Concat([s[..n]] + d.packets) + d.rest + d.discarded == s
  {
    var p, c := s[..n], Concat(d.packets);
    assert ([p] + d.packets)[1..] == d.packets;
    assert (p + c) + d.rest + d.discarded == p + (c + d.rest + d.discarded);
    assert s == p + s[n..];
  }

  /** Nothing is lost or reordered. */
  lemma {:induction false} DrainConserves(s: seq<byte>)
    ensures var d := Drain(s); Concat(d.packets) + d.rest + d.discarded == s
    decreases |s|
  {
    hide HasPacket, BadHeader, FirstLen;
    if HasPacket(s) {
      DrainConserves(s[FirstLen(s)..]);
      hide Concat;
      Conserved(s, Drain(s[FirstLen(s)..]), FirstLen(s));
    }
  }

  /** Only whole packets are handed over; what is kept is the start of one packet, so recv always has
      room; what is thrown away starts with a bad header. */
  lemma {:induction false} DrainShape(s: seq<byte>)
    ensures forall i | 0 <= i < |Drain(s).packets| :: Whole(Drain(s).packets[i])
    ensures Unfinished(Drain(s).rest) && |Drain(s).rest| < 65535
    ensures var d := Drain(s); d.discarded != [] ==> d.rest == [] && BadHeader(d.discarded)
    decreases |s|
  {
    ShortIsUnfinished([]);
    hide HasPacket, BadHeader, FirstLen;
    if HasPacket(s) {
      FrontIsWhole(s);
      hide Whole;
      DrainShape(s[FirstLen(s)..]);
    } else if !BadHeader(s) {
      UnfinishedIsShort(s);
    }
  }

  lemma WholeThenMore(p: seq<byte>, tail: seq<byte>)
    requires Whole(p)
    ensures Drain(p + tail) == Scan([p] + Drain(tail).packets, Drain(tail).rest, Drain(tail).discarded)
  {
    FrontStays(p, tail);
    hide HasPacket, BadHeader, FirstLen;
    assert (p + tail)[..|p|] == p && (p + tail)[|p|..] == tail;
  }

  /** A stream of whole packets followed by the start of another is taken apart into exactly those. */
  lemma {:induction false} PacketsComeOut(packets: seq<seq<byte>>, rest: seq<byte>)
    requires forall i | 0 <= i < |packets| :: Whole(packets[i])
    requires Unfinished(rest)
    ensures Drain(Concat(packets) + rest) == Scan(packets, rest, [])
  {
    hide HasPacket, BadHeader, Whole;
    if packets == [] {
      assert Concat(packets) + rest == rest;
    } else {
      hide Drain;
      PacketsComeOut(packets[1..], rest);
      WholeThenMore(packets[0], Concat(packets[1..]) + rest);
      Associative(packets[0], Concat(packets[1..]), rest);
      assert [packets[0]] + packets[1..] == packets;
    }
  }

  // ---- Segmentation ----

  /** Nothing followed the first bad header. */
  predicate NothingAfterBadHeader(s: seq<byte>) {
    |Drain(s).discarded| <= HEADER_LEN
  }

  lemma FirstOff(a: seq<byte>, b: seq<byte>)
    requires HasPacket(a)
    ensures var n := FirstLen(a); var d := Drain(a[n..] + b);
      Drain(a + b) == Scan([a[..n]] + d.packets, d.rest, d.discarded)
  {
    FrontStays(a, b);
    hide HasPacket, BadHeader, FirstLen;
    assert (a + b)[..FirstLen(a)] == a[..FirstLen(a)] && (a + b)[FirstLen(a)..] == a[FirstLen(a)..] + b;
  }

  lemma ThenFirst(p: seq<byte>, d: Scan, next: Scan)
    ensures Scan([p] + d.packets, d.rest, d.discarded).Then(next)
            == Scan([p] + d.Then(next).packets, d.Then(next).rest, d.Then(next).discarded)
  {
    assert [p] + d.packets + next.packets == [p] + (d.packets + next.packets);
  }

  lemma {:induction false} DrainSplits(a: seq<byte>, b: seq<byte>)
    requires NothingAfterBadHeader(a + b)
    ensures Drain(a + b) == Drain(a).Then(Drain(Drain(a).rest + b))
    ensures NothingAfterBadHeader(Drain(a).rest + b)
    decreases |a|
  {
    if HasPacket(a) {
      FirstOff(a, b);
      hide HasPacket, BadHeader, FirstLen;
      var rest := a[FirstLen(a)..];
      DrainSplits(rest, b);
      ThenFirst(a[..FirstLen(a)], Drain(rest), Drain(Drain(rest).rest + b));
    } else if BadHeader(a) {
      BadSplits(a, b);
    } else {
      hide HasPacket, BadHeader;
      NothingFirst(Drain(a + b));
    }
  }

  lemma NothingFirst(d: Scan)
    ensures forall rest :: Scan([], rest, []).Then(d) == d
  {
  }

  lemma BadSplits(a: seq<byte>, b: seq<byte>)
    requires BadHeader(a) && NothingAfterBadHeader(a + b)
    ensures b == [] && a + b == a && Drain(a) == Scan([], [], a) && Drain([]) == Scan([], [], [])
    ensures Drain(a + b) == Drain(a).Then(Drain([] + b)) && NothingAfterBadHeader([] + b)
  {
    FrontStays(a, b);
    assert HasPacket(a + b) ==> !BadHeader(a + b);
    assert |a + b| == |a|;
    assert a + b == a && [] + b == [];
  }

  lemma {:induction false} FeedFollowsDrain(kept: seq<byte>, pieces: seq<seq<byte>>)
    requires Unfinished(kept) && NothingAfterBadHeader(kept + Concat(pieces))
    ensures Feed(kept, pieces) == Drain(kept + Concat(pieces))
    decreases |pieces|
  {
    hide HasPacket, BadHeader;
    if pieces == [] {
      assert kept + Concat(pieces) == kept;
    } else {
      hide Drain, NothingAfterBadHeader, Unfinished;
      var a, b := kept + pieces[0], Concat(pieces[1..]);
      Associative(kept, pieces[0], b);
      DrainSplits(a, b);
      DrainShape(a);
      FeedFollowsDrain(Drain(a).rest, pieces[1..]);
    }
  }

  /** With even one byte after a bad header, that byte is thrown away or kept depending on when it came. */
  lemma {:induction false} LateByteKept(a: seq<byte>, x: byte)
    ensures !NothingAfterBadHeader(a + [x]) ==> Drain(a).rest == [] && Drain(a + [x]).rest == []
    decreases |a|
  {
    if HasPacket(a) {
      FirstOff(a, [x]);
      hide HasPacket, BadHeader, FirstLen;
      LateByteKept(a[FirstLen(a)..], x);
    } else if !BadHeader(a) {
      LastByte(a, x);
    } else {
      FrontStays(a, [x]);
    }
  }

  /** One more byte completes at most one packet, or a header. */
  lemma LastByte(a: seq<byte>, x: byte)
    requires Unfinished(a)
    ensures NothingAfterBadHeader(a + [x])
  {
    var s := a + [x];
    if HasPacket(s) {
      if |a| >= HEADER_LEN { ParseLooksAtHeader(a, [x]); }
      hide Parse;
      assert s[FirstLen(s)..] == [];
      ShortIsUnfinished([]);
      assert Drain([]) == Scan([], [], []);
    } else {
      FrontStays(a, [x]);
      hide Parse;
    }
  }

  lemma CutBeforeLast(a: seq<byte>, x: byte)
    requires Drain(a).rest == []
    ensures Concat([a, [x]]) == a + [x]
    ensures Feed([], [a, [x]]).rest == [x]
  {
    ShortIsUnfinished([x]);
    hide HasPacket, BadHeader;
    assert [a, [x]][1..] == [[x]] && [[x]][1..] == [];
    assert Concat([[x]]) == [x] + Concat([]);
    assert [] + a == a && [] + [x] == [x];
    assert Feed([], [[x]]).rest == Drain([x]).rest;
  }

  /** However the stream is cut, the same packets come out and the same bytes are kept, exactly when
      nothing follows the first bad header. */
  lemma CutsDoNotMatter(s: seq<byte>)
    ensures NothingAfterBadHeader(s) <==> forall pieces | Concat(pieces) == s :: Feed([], pieces) == Drain(s)
  {
    ShortIsUnfinished([]);
    hide HasPacket, BadHeader, Drain, Feed, Concat;
    if NothingAfterBadHeader(s) {
      forall pieces | Concat(pieces) == s ensures Feed([], pieces) == Drain(s) {
        assert [] + Concat(pieces) == s;
        FeedFollowsDrain([], pieces);
      }
    } else {
      var a, x := s[..|s| - 1], s[|s| - 1];
      assert s == a + [x];
      LateByteKept(a, x);
      CutBeforeLast(a, x);
    }
  }

  /** For a stream of valid packets: one call a packet, in order, with exactly its bytes, for every cut. */
  lemma PacketsArriveHoweverCut(packets: seq<seq<byte>>, rest: seq<byte>, pieces: seq<seq<byte>>)
    requires forall i | 0 <= i < |packets| :: Whole(packets[i])
    requires Unfinished(rest) && Concat(pieces) == Concat(packets) + rest
    ensures Feed([], pieces) == Scan(packets, rest, [])
  {
    PacketsComeOut(packets, rest);
    CutsDoNotMatter(Concat(pieces));
  }

  // ---- One scan of the buffer ----

  /** `out` are the packets before byte `at`. */
  ghost predicate Scanned(all: seq<byte>, at: nat, out: seq<seq<byte>>)
    requires at <= |all|
  {
    Drain(all).packets == out + Drain(all[at..]).packets && Drain(all).rest == Drain(all[at..]).rest
  }

  lemma ScanBegins(all: seq<byte>)
    ensures Scanned(all, 0, [])
  {
    assert all[0..] == all && [] + Drain(all).packets == Drain(all).packets;
  }

  lemma ScanAdvances(all: seq<byte>, at: nat, out: seq<seq<byte>>)
    requires at <= |all| && Scanned(all, at, out) && HasPacket(all[at..])
    ensures var n := FirstLen(all[at..]); Scanned(all, at + n, out + [all[at..][..n]])
  {
    hide HasPacket, BadHeader, FirstLen;
    var s := all[at..];
    assert s[FirstLen(s)..] == all[at + FirstLen(s)..];
    var more := Drain(all[at + FirstLen(s)..]).packets;
    assert out + ([s[..FirstLen(s)]] + more) == out + [s[..FirstLen(s)]] + more;
  }

  lemma ScanEnds(all: seq<byte>, at: nat, out: seq<seq<byte>>)
    requires at <= |all| && Scanned(all, at, out) && !HasPacket(all[at..])
    ensures Drain(all).packets == out && Drain(all).rest == if BadHeader(all[at..]) then [] else all[at..]
  {
    hide HasPacket, BadHeader;
    assert out + [] == out;
  }

  // ---- Answers that drop the client ----

  /** None of the first n requests drops the client. */
  predicate NoDrop(drops: seq<bool>, n: nat) {
    forall i | 0 <= i < n && i < |drops| :: !drops[i]
  }

  /** The packets handed over are those up to the first one that drops the client. */
  ghost predicate UpToDrop(drops: seq<bool>, packets: seq<seq<byte>>, before: seq<seq<byte>>, handled: seq<seq<byte>>) {
    exists k: nat ::
      k < |packets| && k < |drops| && drops[k] && NoDrop(drops, k) && handled == before + packets[..k + 1]
  }

  lemma NoneYet(drops: seq<bool>)
    ensures NoDrop(drops, 0)
  {
  }

  lemma OneMore(drops: seq<bool>, n: nat)
    ensures NoDrop(drops, n + 1) <==> NoDrop(drops, n) && !(n < |drops| && drops[n])
  {
  }

  lemma DropFound(drops: seq<bool>, all: seq<byte>, at: nat, out: seq<seq<byte>>, before: seq<seq<byte>>,
                  handled: seq<seq<byte>>)
    requires at <= |all| && Scanned(all, at, out) && out != [] && handled == before + out
    requires var k := |out| - 1; k < |drops| && drops[k] && NoDrop(drops, k)
    ensures !NoDrop(drops, |Drain(all).packets|)
    ensures UpToDrop(drops, Drain(all).packets, before, handled)
  {
    hide Drain;
    var k := |out| - 1;
    assert Drain(all).packets[..k + 1] == out;
  }

  // ---- The connection ----

  datatype Recv = Data(bytes: seq<byte>) | WouldBlock | Closed

  class Connection {
    const buf: array<byte>
    var connected: bool
    var len: nat

    ghost var handled: seq<seq<byte>>   // the packets given to handle_request, in order

    ghost predicate Valid()
      reads this, buf
    {
      buf.Length == RECV_CAP && len <= RECV_CAP && Unfinished(buf[..len])
    }

    constructor ()
      ensures Valid() && connected && len == 0 && handled == [] && fresh(buf)
    {
      buf := new byte[RECV_CAP](_ => 0);
      connected, len, handled := true, 0, [];
    }

    /** The socket is readable. recv never returns more than the room it is given. The i-th request
        answered drops the client when `drops` says so. `recv_len - consumed` stays in range if and only if
        none does; when one does, the client is gone, nothing is held, and the packets up to that one have
        been handed over by the time the difference is taken. */
    method OnReadable(r: Recv, drops: seq<bool>) returns (inRange: bool)
      requires Valid() && connected
      requires r.Data? ==> 0 < |r.bytes| <= 65536 - len
      modifies this, buf
      ensures Valid() && len < RECV_CAP
      ensures r.Closed? ==> inRange && !connected && len == 0 && handled == old(handled)
      ensures r.WouldBlock? ==> inRange && connected && buf[..len] == old(buf[..len]) && handled == old(handled)
      ensures r.Data? ==>
        var d := Drain(old(buf[..len]) + r.bytes);
        && (inRange <==> NoDrop(drops, |d.packets|))
        && (inRange ==> connected && buf[..len] == d.rest && handled == old(handled) + d.packets)
        && (!inRange ==> !connected && len == 0 && UpToDrop(drops, d.packets, old(handled), handled))
    {
      hide Parse;
      match r {
        case Closed => connected, len, inRange := false, 0, true;
        case WouldBlock =>
          DrainShape(buf[..len]);
          inRange := true;
        case Data(bytes) =>
          Append(buf, len, bytes);
          len := len + |bytes|;
          ghost var all := buf[..len];
          var consumed;
          consumed, inRange := HandleComplete(drops);
          if !inRange {
            ShortIsUnfinished([]);
            return;
          }
          DrainShape(all);
          if consumed > 0 {
            MoveToFront(buf, consumed, len);
            len := len - consumed;
          }
      }
    }

    method DropClient()
      modifies this`connected, this`len
      ensures !connected && len == 0
    {
      connected, len := false, 0;
    }

    /** The scan loop: packets before `consumed` have been handed over. */
    method HandleComplete(drops: seq<bool>) returns (consumed: nat, inRange: bool)
      requires buf.Length == RECV_CAP && len <= RECV_CAP && connected
      modifies this`handled, this`connected, this`len
      ensures var d := Drain(old(buf[..len]));
        && (inRange <==> NoDrop(drops, |d.packets|))
        && (inRange ==> connected && len == old(len) && consumed <= len && buf[consumed..len] == d.rest
                        && handled == old(handled) + d.packets)
        && (!inRange ==> !connected && len == 0 && UpToDrop(drops, d.packets, old(handled), handled))
    {
      hide Parse, Drain, Scanned, UpToDrop, NoDrop;
      consumed, inRange := 0, true;
      ghost var all := buf[..len];
      ghost var out: seq<seq<byte>> := [];
      var count := 0;
      ScanBegins(all);
      NoneYet(drops);
      while len - consumed >= HEADER_LEN
        invariant consumed <= len == old(len) && connected && inRange && count == |out|
        invariant handled == old(handled) + out && Scanned(all, consumed, out) && NoDrop(drops, count)
      {
        var pkt := buf[consumed..len];
        assert pkt == all[consumed..];
        var h := HeaderParse(pkt);
        if h.None? {
          ScanEnds(all, consumed, out);
          consumed := len;
          return;
        }
        var n := h.value.packetLength;
        if |pkt| < n { break; }
        ScanAdvances(all, consumed, out);
        handled, out := handled + [pkt[..n]], out + [pkt[..n]];
        consumed := consumed + n;
        OneMore(drops, count);
        if count < |drops| && drops[count] {
          DropFound(drops, all, consumed, out, old(handled), handled);
          DropClient();
          inRange := false;
          return;
        }
        count := count + 1;
      }
      ScanEnds(all, consumed, out);
      assert buf[consumed..len] == all[consumed..];
    }
  }
}
