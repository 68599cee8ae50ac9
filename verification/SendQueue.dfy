/** Sending answers over a non-blocking socket (acud/net.c, net_queue_send and net_flush_send): whatever
    the kernel does not take stays in a buffer, whose sent part is compacted away before the next answer. */
module SendQueue {
  import opened Bytes

  const SEND_CAP: nat := 36724

  /** What one send call returns: a number of bytes taken, EAGAIN or the like, or another error. */
  datatype SendResult = Sent(n: nat) | WouldBlock | Failed

  /** One connection: the bytes the kernel has taken, the bytes still to be given to it, and whether the
      loop watches for the socket to become writable. */
  datatype Link = Link(connected: bool, sent: seq<byte>, pending: seq<byte>, watched: bool) {
    function Stream(): seq<byte> { sent + pending }

    function Dropped(): Link { Link(false, sent, [], false) }

    function Took(n: nat): Link
      requires n <= |pending|
    {
      this.(sent := sent + pending[..n], pending := pending[n..])
    }

    /** Sending until the kernel stops taking; the results come from `kernel`, which blocks when it ends. When
        it blocks, the watched events are left as they are; when all is sent, only reading is watched. */
    function Flushed(kernel: seq<SendResult>): Link
      decreases |kernel|
    {
      if !connected then this
      else if pending == [] then this.(watched := false)
      else if kernel == [] || kernel[0].WouldBlock? then this
      else if kernel[0] == Failed || kernel[0] == Sent(0) then Dropped()
      else Took(if kernel[0].n < |pending| then kernel[0].n else |pending|).Flushed(kernel[1..])
    }

    predicate Accepts(data: seq<byte>) {
      connected && |pending| + |data| <= SEND_CAP
    }

    function Queued(data: seq<byte>, kernel: seq<SendResult>): Link {
      if Accepts(data) then this.(pending := pending + data).Flushed(kernel) else this
    }
  }

  lemma FlushStep(l: Link, kernel: seq<SendResult>)
    requires l.connected && l.pending != []
    ensures kernel == [] || kernel[0].WouldBlock? ==> l.Flushed(kernel) == l
    ensures kernel != [] && (kernel[0] == Failed || kernel[0] == Sent(0)) ==> l.Flushed(kernel) == l.Dropped()
    ensures kernel != [] && kernel[0].Sent? && kernel[0].n > 0 ==>
      var k := if kernel[0].n < |l.pending| then kernel[0].n else |l.pending|;
      l.Flushed(kernel) == l.Took(k).Flushed(kernel[1..])
  {
  }

  lemma FlushDone(l: Link, kernel: seq<SendResult>)
    requires !l.connected || l.pending == []
    ensures l.Flushed(kernel) == if l.connected then l.(watched := false) else l
  {
  }

  // ---- Conservation ----

  /** Flushing moves bytes from pending to sent and loses none, unless the connection goes down; then what
      was sent is a beginning of what should have been. */
  lemma {:induction false} FlushConserves(l: Link, kernel: seq<SendResult>)
    ensures l.sent <= l.Flushed(kernel).sent <= l.Stream()
    ensures l.Flushed(kernel).connected ==> l.connected && l.Flushed(kernel).Stream() == l.Stream()
    decreases |kernel|
  {
    if l.connected && l.pending != [] && kernel != [] && kernel[0].Sent? && kernel[0].n > 0 {
      var k := if kernel[0].n < |l.pending| then kernel[0].n else |l.pending|;
      FlushStep(l, kernel);
      FlushConserves(l.Took(k), kernel[1..]);
      hide Link.Flushed;
      TookKeeps(l, k, l.Flushed(kernel).sent);
    }
  }

  lemma TookKeeps(l: Link, k: nat, sent: seq<byte>)
    requires k <= |l.pending|
    ensures l.Took(k).Stream() == l.Stream() && l.Took(k).connected == l.connected
    ensures l.Took(k).sent <= sent ==> l.sent <= sent
  {
    assert l.sent <= l.Took(k).sent;
  }

  /** A kernel that takes at least a byte a call empties the queue. */
  lemma {:induction false} FlushEmpties(l: Link, kernel: seq<SendResult>)
    requires l.connected && |kernel| >= |l.pending|
    requires forall i | 0 <= i < |kernel| :: kernel[i].Sent? && kernel[i].n > 0
    ensures l.Flushed(kernel) == Link(true, l.Stream(), [], false)
    decreases |kernel|
  {
    if l.pending == [] {
      assert l.Stream() == l.sent;
    } else {
      var k := if kernel[0].n < |l.pending| then kernel[0].n else |l.pending|;
      assert l.Took(k).Stream() == l.Stream();
      FlushEmpties(l.Took(k), kernel[1..]);
    }
  }

  // ---- Runs ----

  /** The loop reports a writable socket only while it watches for that. */
  datatype Action = Respond(data: seq<byte>, kernel: seq<SendResult>) | Writable(kernel: seq<SendResult>) | Drop

  function Act(l: Link, a: Action): Link {
    match a
    case Respond(data, kernel) => l.Queued(data, kernel)
    case Writable(kernel) => if l.watched then l.Flushed(kernel) else l
    case Drop => l.Dropped()
  }

  function Run(l: Link, actions: seq<Action>): Link
    decreases |actions|
  {
    if actions == [] then l else Run(Act(l, actions[0]), actions[1..])
  }

  /** The answers that were accepted, end to end. */
  function Accepted(l: Link, actions: seq<Action>): seq<byte>
    decreases |actions|
  {
    if actions == [] then []
    else
      var a := actions[0];
      (if a.Respond? && l.Accepts(a.data) then a.data else []) + Accepted(Act(l, a), actions[1..])
  }

  lemma ActConserves(l: Link, a: Action)
    ensures var added := if a.Respond? && l.Accepts(a.data) then a.data else [];
      && (Act(l, a).connected ==> l.connected && Act(l, a).Stream() == l.Stream() + added)
      && l.sent <= Act(l, a).sent && (l.connected ==> Act(l, a).sent <= l.Stream() + added)
      && (!l.connected ==> Act(l, a).sent == l.sent)
      && (!l.connected ==> added == [])
  {
    match a
    case Drop =>
    case Writable(kernel) =>
      FlushConserves(l, kernel);
      assert l.Stream() + [] == l.Stream();
    case Respond(data, kernel) =>
      var grown := l.(pending := l.pending + data);
      assert grown.Stream() == l.Stream() + data;
      FlushConserves(grown, kernel);
      assert l.Stream() + [] == l.Stream();
  }

  lemma {:induction false} DisconnectedStays(l: Link, actions: seq<Action>)
    requires !l.connected
    ensures Run(l, actions).sent == l.sent && !Run(l, actions).connected && Accepted(l, actions) == []
    decreases |actions|
  {
    if actions != [] {
      ActConserves(l, actions[0]);
      DisconnectedStays(Act(l, actions[0]), actions[1..]);
    }
  }

  /** Over a whole connection, with any partial sends and refused answers: what was sent followed by what
      is pending is exactly the accepted answers end to end, each whole and in order. After the
      connection goes down, what was sent is a beginning of them. */
  lemma {:induction false} RunConserves(l: Link, actions: seq<Action>)
    requires l.connected
    ensures Run(l, actions).connected ==> Run(l, actions).Stream() == l.Stream() + Accepted(l, actions)
    ensures l.sent <= Run(l, actions).sent <= l.Stream() + Accepted(l, actions)
    decreases |actions|
  {
    if actions == [] {
      assert l.Stream() + [] == l.Stream();
    } else {
      var a, next := actions[0], Act(l, actions[0]);
      var added := if a.Respond? && l.Accepts(a.data) then a.data else [];
      ActConserves(l, a);
      if next.connected {
        RunConserves(next, actions[1..]);
      } else {
        DisconnectedStays(next, actions[1..]);
      }
      assert l.Stream() + added + Accepted(next, actions[1..]) == l.Stream() + (added + Accepted(next, actions[1..]));
    }
  }

  /** When an answer is refused: the connection is down, or it would not fit behind what is still to be sent. A
      refused answer changes nothing. */
  lemma RefusedWhen(l: Link, data: seq<byte>, kernel: seq<SendResult>)
    ensures l.Accepts(data) <==> l.connected && |l.pending| + |data| <= 36724
    ensures !l.Accepts(data) ==> Act(l, Respond(data, kernel)) == l
  {
  }

  lemma {:induction false} FlushShrinks(l: Link, kernel: seq<SendResult>)
    ensures |l.Flushed(kernel).pending| <= |l.pending|
    decreases |kernel|
  {
    if l.connected && l.pending != [] && kernel != [] && kernel[0].Sent? && kernel[0].n > 0 {
      FlushShrinks(l.Took(if kernel[0].n < |l.pending| then kernel[0].n else |l.pending|), kernel[1..]);
    }
  }

  /** Over any run the buffer holds what is pending, and one answer of at most 18,362 bytes, which is the longest
      there is, is never refused by a connection whose last such answer is all that it still holds. */
  lemma {:induction false} RunFits(l: Link, actions: seq<Action>, data: seq<byte>)
    requires |l.pending| <= 36724
    ensures |Run(l, actions).pending| <= 36724
    ensures Run(l, actions).connected && |Run(l, actions).pending| <= 18362 && |data| <= 18362 ==>
      Run(l, actions).Accepts(data)
    decreases |actions|
  {
    if actions != [] {
      match actions[0] {
        case Respond(d, kernel) => FlushShrinks(l.(pending := l.pending + d), kernel);
        case Writable(kernel) => FlushShrinks(l, kernel);
        case Drop =>
      }
      RunFits(Act(l, actions[0]), actions[1..], data);
    }
  }

  // ---- Nobody watches ----

  lemma {:induction false} FlushDoesNotWatch(l: Link, kernel: seq<SendResult>)
    requires !l.watched
    ensures !l.Flushed(kernel).watched
    decreases |kernel|
  {
    if l.connected && l.pending != [] && kernel != [] && kernel[0].Sent? && kernel[0].n > 0 {
      FlushDoesNotWatch(l.Took(if kernel[0].n < |l.pending| then kernel[0].n else |l.pending|), kernel[1..]);
    }
  }

  /** A new connection is watched for reading only, and writing is never added: by the time the events are
      set everything has been sent. */
  lemma {:induction false} NeverWatched(l: Link, actions: seq<Action>)
    requires !l.watched
    ensures !Run(l, actions).watched
    decreases |actions|
  {
    if actions != [] {
      var a := actions[0];
      match a {
        case Respond(data, kernel) =>
          FlushDoesNotWatch(l.(pending := l.pending + data), kernel);
        case Writable(_) =>
        case Drop =>
      }
      NeverWatched(Act(l, a), actions[1..]);
    }
  }

  /** So what the kernel did not take at once waits for the next answer, however often the socket becomes
      writable before that. */
  lemma {:induction false} PendingWaits(l: Link, actions: seq<Action>)
    requires !l.watched && forall i | 0 <= i < |actions| :: actions[i].Writable?
    ensures Run(l, actions) == l
    decreases |actions|
  {
    if actions != [] { PendingWaits(l, actions[1..]); }
  }

  // ---- The buffer ----

  class Sender {
    const buf: array<byte>
    var connected: bool
    var watched: bool   // ACU_LOOP_WRITE is among the loop's events
    var len: nat   // bytes held
    var off: nat   // of those, already sent

    ghost var sent: seq<byte>

    ghost predicate Valid()
      reads this
    {
      buf.Length == SEND_CAP && off <= len <= SEND_CAP && (!connected ==> len == 0)
    }

    ghost function State(): Link
      requires Valid()
      reads this, buf
    {
      Link(connected, sent, buf[off..len], watched)
    }

    constructor ()
      ensures Valid() && State() == Link(true, [], [], false) && fresh(buf)
    {
      buf := new byte[SEND_CAP](_ => 0);
      connected, watched, len, off := true, false, 0, 0;
      sent := [];
    }

    method DropClient()
      requires Valid()
      modifies this`connected, this`watched, this`len, this`off
      ensures Valid() && State() == old(State()).Dropped()
    {
      connected, watched, len, off := false, false, 0, 0;
    }

    method Advance(n: nat)
      requires Valid() && n <= len - off
      modifies this`off, this`sent
      ensures Valid() && State() == old(State()).Took(n)
      ensures off == old(off) + n
    {
      ghost var pending := buf[off..len];
      assert buf[off..off + n] == pending[..n];
      sent := sent + buf[off..off + n];
      off := off + n;
      assert buf[off..len] == pending[n..];
    }

    method FlushSend(kernel: seq<SendResult>)
      requires Valid()
      modifies this
      ensures Valid() && State() == old(State()).Flushed(kernel)
    {
      hide Link.Flushed, Link.Took;
      var i := 0;
      assert kernel[0..] == kernel;
      while connected && off < len
        invariant Valid() && i <= |kernel|
        invariant State().Flushed(kernel[i..]) == old(State()).Flushed(kernel)
        decreases |kernel| - i
      {
        FlushStep(State(), kernel[i..]);
        if i == |kernel| || kernel[i].WouldBlock? { return; }
        assert kernel[i..][0] == kernel[i] && kernel[i..][1..] == kernel[i + 1..];
        if kernel[i].Failed? || kernel[i].n == 0 {
          DropClient();
          return;
        }
        Advance(if kernel[i].n < len - off then kernel[i].n else len - off);
        i := i + 1;
      }
      FlushDone(State(), kernel[i..]);
      if off >= len {
        len, off := 0, 0;
      }
      if connected { watched := off < len; }
    }

    method QueueSend(data: seq<byte>, kernel: seq<SendResult>) returns (r: int)
      requires Valid()
      modifies this, buf
      ensures Valid() && State() == old(State()).Queued(data, kernel)
      ensures r == if old(State()).Accepts(data) then 0 else -1
    {
      if !connected { return -1; }
      Compact();
      if len + |data| > SEND_CAP { return -1; }
      Enqueue(data);
      FlushSend(kernel);
      r := 0;
    }

    method Enqueue(data: seq<byte>)
      requires Valid() && connected && len + |data| <= SEND_CAP
      modifies this`len, buf
      ensures Valid() && State() == old(State()).(pending := old(State()).pending + data)
    {
      Append(buf, len, data);
      len := len + |data|;
      assert buf[off..len] == buf[..len][off..];
    }

    method Compact()
      requires Valid()
      modifies this`len, this`off, buf
      ensures Valid() && off == 0 && State() == old(State())
    {
      if off > 0 {
        MoveToFront(buf, off, len);
        len, off := len - off, 0;
      }
    }
  }
}
