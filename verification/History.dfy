/** History delivery: the DM polls, the ACU answers with a batch of events and moves its read position
    as soon as the answer is queued; a DM that could not read an answer sets ReRequestEvent in its next
    request and gets the batch again.

    `Server` is handle_history_request over an `EventDb.Store`; `Poll` is what it computes. `World` adds
    the DM and a channel that loses requests and answers, and `NoGap` is the promise kept by every run. */
module History {
  import opened Bytes
  import opened EventLog
  import EventDb

  const BLOCKING_MAX := 100
  const NONBLOCKING_MAX := 1
  const BATCH_DEFAULT := 200
  const BATCH_MAX := 500
  const EVENT_INFO_LEN := 36

  const FOPT_BLOCKING := 0x0800
  const FOPT_RE_REQUEST_EVENT := 0x0020

  /** The block numbers of the answer's header, and the events it carries. */
  datatype Response = Response(start: u16, end: u16, count: u16, oneLen: u16, events: seq<Stored>)

  datatype Acu = Acu(log: Log, lastBatchFirst: int, eventBatch: int) {
    ghost predicate Valid() {
      log.Valid() && lastBatchFirst >= 0 && 1 <= eventBatch <= BATCH_MAX
    }
  }

  function ClampBatch(size: int): int {
    if size <= 0 then BATCH_DEFAULT else if size > BATCH_MAX then BATCH_MAX else size
  }

  function MaxFor(a: Acu, blocking: bool): int {
    if !blocking then NONBLOCKING_MAX else if a.eventBatch < BLOCKING_MAX then a.eventBatch else BLOCKING_MAX
  }

  /** The store before the fetch: put back in front of the last batch when that is asked for. */
  function Rewound(a: Acu, reRequest: bool): Acu {
    if reRequest && a.lastBatchFirst > 0 then a.(log := a.log.RewoundToSeq(a.lastBatchFirst)) else a
  }

  function Answer(log: Log, max: nat): Response
    requires log.Valid()
  {
    var b := log.Batch(max);
    var n := |b|;
    Response(if n > 0 then 1 else 0, if n > 0xFFFF then 0xFFFF else n,
             if log.Pending() > 0xFFFF then 0xFFFF else log.Pending(),
             if n > 0 then EVENT_INFO_LEN else 0, b)
  }

  /** One request. The read position moves only when the answer was accepted for sending. */
  function Poll(a: Acu, blocking: bool, reRequest: bool, sendAccepted: bool): (r: (Acu, Response))
    requires a.Valid()
  {
    var log := Rewound(a, reRequest).log;
    var resp := Answer(log, MaxFor(a, blocking));
    (AfterAnswer(a, log.AfterFetch(), resp.events, sendAccepted), resp)
  }

  function AfterAnswer(a: Acu, log: Log, batch: seq<Stored>, sendAccepted: bool): Acu {
    if sendAccepted && batch != [] then
      a.(log := log.Acked(batch[|batch| - 1].seqNo), lastBatchFirst := batch[0].seqNo)
    else a.(log := log)
  }

  /** The effect of a request in terms of event numbers. */
  lemma PollEffect(a: Acu, blocking: bool, reRequest: bool, sendAccepted: bool)
    requires a.Valid() && a.log.sent <= a.log.Newest()
    ensures var (a', resp) := Poll(a, blocking, reRequest, sendAccepted);
      var l := Rewound(a, reRequest).log;
      var n := |resp.events|;
      && a'.Valid()
      && a'.log.history == a.log.history && a'.log.trimmed == a.log.trimmed
      && a'.eventBatch == a.eventBatch
      && n == (if l.Pending() < MaxFor(a, blocking) then l.Pending() else MaxFor(a, blocking))
      && resp.events == l.Slice(l.ReadPosition(), n)
      && (if sendAccepted && n > 0 then
            a'.log.sent == l.ReadPosition() + n && a'.lastBatchFirst == l.ReadPosition() + 1
          else a'.log.sent == l.sent && a'.lastBatchFirst == a.lastBatchFirst)
  {
  }

  /** Who is answered how much: the batch, and the header that describes it. Count is how many events were
      waiting, counted one by one; End is how many of them are carried. */
  lemma AnswerHeader(a: Acu, blocking: bool, reRequest: bool, sendAccepted: bool)
    requires a.Valid()
    ensures var resp := Poll(a, blocking, reRequest, sendAccepted).1;
      var waiting := CountPending(Rewound(a, reRequest).log, 0);
      var n := |resp.events|;
      && n <= waiting && n <= 100 && (n > 1 ==> blocking && n <= a.eventBatch)
      && (n == waiting || n == 100 || (blocking && n == a.eventBatch) || (!blocking && n == 1))
      && resp.count == (if waiting > 0xFFFF then 0xFFFF else waiting)
      && resp.end == n
      && resp.start == (if n == 0 then 0 else 1) && resp.oneLen == (if n == 0 then 0 else 36)
  {
    PendingCounts(Rewound(a, reRequest).log, 0);
  }

  /** When the answer goes out, Count less End is what is still waiting. */
  lemma HeaderTellsRest(a: Acu, blocking: bool, reRequest: bool)
    requires a.Valid()
    ensures var (a', resp) := Poll(a, blocking, reRequest, true);
      resp.count < 0xFFFF ==> CountPending(a'.log, 0) == resp.count - resp.end
  {
    var (a', resp) := Poll(a, blocking, reRequest, true);
    PendingCounts(Rewound(a, reRequest).log, 0);
    PollKeepsValid(a, blocking, reRequest, true);
    PendingCounts(a'.log, 0);
  }

  lemma SameAnswer(l: Log, r: Log, max: nat)
    requires l.Valid() && r.Valid() && l.history == r.history && l.ReadPosition() == r.ReadPosition()
    ensures Answer(l, max) == Answer(r, max)
  {
    assert l.Batch(max) == r.Batch(max);
  }

  /** The answer that was lost comes again, header and all. */
  lemma ReplayIsSame(a: Acu, blocking: bool, reRequest: bool, sendAccepted: bool)
    requires a.Valid()
    ensures var (a', resp) := Poll(a, blocking, reRequest, true);
      resp.events != [] ==> Poll(a', blocking, true, sendAccepted).1 == resp
  {
    var (a', resp) := Poll(a, blocking, reRequest, true);
    if resp.events != [] {
      var l, r := Rewound(a, reRequest).log, Rewound(a', true).log;
      assert l.ReadPosition() == r.ReadPosition();
      SameAnswer(l, r, MaxFor(a, blocking));
      hide Answer;
    }
  }

  lemma PollKeepsValid(a: Acu, blocking: bool, reRequest: bool, sendAccepted: bool)
    requires a.Valid()
    ensures Poll(a, blocking, reRequest, sendAccepted).0.Valid()
  {
    var l := Rewound(a, reRequest).log;
    assert l.AfterFetch().Valid();
  }

  /** A request as the server goes about it: rewind, answer, advance. */
  lemma PollSteps(a: Acu, blocking: bool, reRequest: bool, sendAccepted: bool)
    requires a.Valid()
    ensures var s := Rewound(a, reRequest);
      var resp := Answer(s.log, MaxFor(a, blocking));
      var log := s.log.AfterFetch();
      Poll(a, blocking, reRequest, sendAccepted) == (AfterAnswer(s.(log := log), log, resp.events, sendAccepted), resp)
  {
    hide Answer, MaxFor;
  }

  class Server {
    const store: EventDb.Store
    var lastBatchFirst: int
    var eventBatch: int

    ghost function State(): Acu
      reads this, store
    {
      Acu(store.log, lastBatchFirst, eventBatch)
    }

    ghost predicate Valid()
      reads this, store
    {
      store.Valid() && State().Valid()
    }

    constructor (s: EventDb.Store, batchSize: int)
      requires s.Valid()
      ensures Valid() && store == s && State() == Acu(s.log, 0, ClampBatch(batchSize))
    {
      store := s;
      lastBatchFirst := 0;
      eventBatch := ClampBatch(batchSize);
    }

    method HandleHistoryRequest(frameOption: u16, sendAccepted: bool) returns (resp: Response)
      requires Valid()
      modifies this, store
      ensures Valid()
      ensures (State(), resp)
           == Poll(old(State()), HasBit(frameOption, 0x0800), HasBit(frameOption, 0x0020), sendAccepted)
    {
      hide Answer, Poll, Rewound, AfterAnswer, HasBit;
      PollSteps(State(), HasBit(frameOption, FOPT_BLOCKING), HasBit(frameOption, FOPT_RE_REQUEST_EVENT), sendAccepted);
      var blocking := HasBit(frameOption, FOPT_BLOCKING);
      var max := NONBLOCKING_MAX;
      if blocking { max := if eventBatch < BLOCKING_MAX then eventBatch else BLOCKING_MAX; }
      ReplayIfAsked(HasBit(frameOption, FOPT_RE_REQUEST_EVENT));
      resp := FetchAnswer(max);
      Advance(resp.events, sendAccepted);
    }

    method ReplayIfAsked(reRequest: bool)
      requires Valid()
      modifies store
      ensures Valid() && State() == Rewound(old(State()), reRequest)
    {
      if reRequest && lastBatchFirst > 0 {
        var rewound := store.RewindToSeq(lastBatchFirst);
      }
    }

    method FetchAnswer(max: int) returns (resp: Response)
      requires Valid() && max > 0
      modifies store
      ensures Valid()
      ensures resp == Answer(old(store.log), max)
      ensures State() == old(State()).(log := old(store.log).AfterFetch())
      ensures forall i | 0 <= i < |resp.events| :: resp.events[i].seqNo > 0
    {
      var fetched := store.Fetch(max);
      var batch := if fetched.Fetched? then fetched.events else [];
      var pendingBefore := store.Pending();
      var n := |batch|;
      if pendingBefore < n { pendingBefore := n; }
      resp := Response(if n > 0 then 1 else 0, if n > 0xFFFF then 0xFFFF else n,
                       if pendingBefore > 0xFFFF then 0xFFFF else pendingBefore,
                       if n > 0 then EVENT_INFO_LEN else 0, batch);
    }

    method Advance(batch: seq<Stored>, sendAccepted: bool)
      requires Valid() && forall i | 0 <= i < |batch| :: batch[i].seqNo > 0
      modifies this`lastBatchFirst, store
      ensures Valid()
      ensures State() == AfterAnswer(old(State()), old(store.log), batch, sendAccepted)
    {
      if !sendAccepted || batch == [] { return; }
      lastBatchFirst := batch[0].seqNo;
      var acked := store.Ack(batch[|batch| - 1].seqNo);
    }
  }

  // ---- The two parties ----

  /** What becomes of one exchange. */
  datatype Fate = RequestLost | SendRefused | ResponseLost | Delivered

  /** `received` is everything the DM has inserted, in order; `unread` says that it did not read an
      answer to its latest request. */
  datatype World = World(acu: Acu, received: seq<Stored>, unread: bool)

  datatype Action =
    | EventOccurs(e: Event)
    | DmPolls(blocking: bool, fate: Fate)
    | BatchSizeChanged(size: int)

  /** The DM sets ReRequestEvent exactly when it did not read the previous answer. */
  function Act(w: World, action: Action): World
    requires w.acu.Valid()
  {
    match action
    case EventOccurs(e) => w.(acu := w.acu.(log := w.acu.log.Appended(e)))
    case BatchSizeChanged(size) => w.(acu := w.acu.(eventBatch := ClampBatch(size)))
    case DmPolls(blocking, fate) =>
      match fate
      case RequestLost => w.(unread := true)
      case SendRefused => w.(acu := Poll(w.acu, blocking, w.unread, false).0, unread := true)
      case ResponseLost => w.(acu := Poll(w.acu, blocking, w.unread, true).0, unread := true)
      case Delivered =>
        var (a, resp) := Poll(w.acu, blocking, w.unread, true);
        World(a, w.received + resp.events, false)
  }

  ghost predicate Received(w: World, s: int) {
    1 <= s <= |w.acu.log.history| && w.acu.log.Entry(s - 1) in w.received
  }

  /** An event the DM has, or that the ring has given up. */
  ghost predicate Settled(w: World, s: int) {
    s <= w.acu.log.trimmed || Received(w, s)
  }

  /** In the last batch, which went unread: the next request replays it. */
  ghost predicate AwaitsReplay(w: World, s: int) {
    w.unread && 0 < w.acu.lastBatchFirst <= s
  }

  /** Every event from `base` up to the read position is settled or about to be replayed, and the DM
      holds nothing but genuine events. `base` is where the read position stood at the start. */
  ghost predicate NoGap(w: World, base: nat) {
    var l := w.acu.log;
    && w.acu.Valid()
    && base <= l.sent <= l.Newest()
    && (w.acu.lastBatchFirst > 0 ==> base < w.acu.lastBatchFirst <= l.Newest())
    && (forall s | base < s <= l.sent :: Settled(w, s) || AwaitsReplay(w, s))
    && (forall x | x in w.received :: 1 <= x.seqNo <= l.Newest() && x == l.Entry(x.seqNo - 1))
  }

  /** After the rewind nothing is left to replay: all that lies before the read position is settled. */
  lemma RewindSettles(w: World, base: nat)
    requires NoGap(w, base)
    ensures var a := Rewound(w.acu, w.unread);
      && a.Valid() && a.lastBatchFirst == w.acu.lastBatchFirst
      && a.log.history == w.acu.log.history && a.log.trimmed == w.acu.log.trimmed
      && base <= a.log.sent <= w.acu.log.sent
      && (forall s | base < s <= a.log.sent :: Settled(w, s))
  {
  }

  /** `l` is the store after the rewind, `a'` the ACU after answering from it with `batch`. */
  ghost predicate Answered(w: World, base: nat, l: Log, a': Acu, batch: seq<Stored>, queued: bool) {
    var n := |batch|;
    && l.Valid() && a'.Valid()
    && l.history == a'.log.history == w.acu.log.history
    && l.trimmed == a'.log.trimmed == w.acu.log.trimmed
    && base <= l.sent <= l.Newest()
    && (forall s | base < s <= l.sent :: Settled(w, s))
    && l.ReadPosition() + n <= l.Newest()
    && batch == l.Slice(l.ReadPosition(), n)
    && (if queued && n > 0 then
          a'.log.sent == l.ReadPosition() + n && a'.lastBatchFirst == l.ReadPosition() + 1
        else a'.log.sent == l.sent && a'.lastBatchFirst == w.acu.lastBatchFirst)
  }

  lemma BatchReceived(w: World, base: nat, l: Log, a': Acu, batch: seq<Stored>)
    requires NoGap(w, base) && Answered(w, base, l, a', batch, true)
    ensures NoGap(World(a', w.received + batch, false), base)
  {
    var w' := World(a', w.received + batch, false);
    forall s | base < s <= a'.log.sent ensures Settled(w', s) {
      if s <= l.sent {
        assert Settled(w, s);
      } else if s > l.trimmed {
        assert batch[s - 1 - l.ReadPosition()] == l.Entry(s - 1);
      }
    }
  }

  lemma BatchNotReceived(w: World, base: nat, l: Log, a': Acu, batch: seq<Stored>, queued: bool)
    requires NoGap(w, base) && Answered(w, base, l, a', batch, queued)
    ensures NoGap(World(a', w.received, true), base)
  {
    var w' := World(a', w.received, true);
    forall s | base < s <= a'.log.sent ensures Settled(w', s) || AwaitsReplay(w', s) {
      if s <= l.sent { assert Settled(w, s); }
    }
  }

  lemma PollAnswers(w: World, base: nat, blocking: bool, queued: bool)
    requires NoGap(w, base)
    ensures var (a', resp) := Poll(w.acu, blocking, w.unread, queued);
      Answered(w, base, Rewound(w.acu, w.unread).log, a', resp.events, queued)
  {
    RewindSettles(w, base);
    PollEffect(w.acu, blocking, w.unread, queued);
  }

  lemma PollKeepsNoGap(w: World, base: nat, blocking: bool, fate: Fate)
    requires NoGap(w, base)
    ensures NoGap(Act(w, DmPolls(blocking, fate)), base)
  {
    var l := Rewound(w.acu, w.unread).log;
    var (a', resp) := Poll(w.acu, blocking, w.unread, fate != SendRefused);
    match fate
    case RequestLost =>
      UnreadKeepsNoGap(w, base);
    case Delivered =>
      PollAnswers(w, base, blocking, true);
      BatchReceived(w, base, l, a', resp.events);
    case _ =>
      PollAnswers(w, base, blocking, fate != SendRefused);
      BatchNotReceived(w, base, l, a', resp.events, fate != SendRefused);
  }

  lemma UnreadKeepsNoGap(w: World, base: nat)
    requires NoGap(w, base)
    ensures NoGap(w.(unread := true), base)
  {
    var w' := w.(unread := true);
    forall s | base < s <= w'.acu.log.sent ensures Settled(w', s) || AwaitsReplay(w', s) {
      assert Settled(w, s) || AwaitsReplay(w, s);
    }
  }

  lemma {:induction false} AppendKeepsNoGap(w: World, base: nat, e: Event)
    requires NoGap(w, base)
    ensures NoGap(Act(w, EventOccurs(e)), base)
  {
    var w' := Act(w, EventOccurs(e));
    forall s | base < s <= w'.acu.log.sent ensures Settled(w', s) || AwaitsReplay(w', s) {
      assert Settled(w, s) || AwaitsReplay(w, s);
    }
  }

  function Perform(w: World, actions: seq<Action>): (r: World)
    requires w.acu.Valid()
    ensures r.acu.Valid()
  {
    if actions == [] then w
    else
      var w' := Perform(w, actions[..|actions| - 1]);
      ActKeepsValid(w', actions[|actions| - 1]);
      Act(w', actions[|actions| - 1])
  }

  lemma ActKeepsValid(w: World, action: Action)
    requires w.acu.Valid()
    ensures Act(w, action).acu.Valid()
  {
    if action.DmPolls? {
      PollKeepsValid(w.acu, action.blocking, w.unread, false);
      PollKeepsValid(w.acu, action.blocking, w.unread, true);
    }
  }

  /** The delivery promise, over every run: requests and answers may be lost and answers refused in any
      pattern, batches may be single or blocking, the ring may trim at any time. */
  lemma {:induction false} NoGapAlways(w: World, base: nat, actions: seq<Action>)
    requires NoGap(w, base)
    ensures NoGap(Perform(w, actions), base)
  {
    if actions != [] {
      var n := |actions| - 1;
      NoGapAlways(w, base, actions[..n]);
      var w' := Perform(w, actions[..n]);
      match actions[n]
      case EventOccurs(e) => AppendKeepsNoGap(w', base, e);
      case DmPolls(blocking, fate) => PollKeepsNoGap(w', base, blocking, fate);
      case BatchSizeChanged(_) =>
        var w2 := Act(w', actions[n]);
        forall s | base < s <= w2.acu.log.sent ensures Settled(w2, s) || AwaitsReplay(w2, s) {
          assert Settled(w', s) || AwaitsReplay(w', s);
        }
    }
  }

  /** The same promise from the moment a daemon starts on a store whose read position fits it. */
  lemma NoGapFromStart(log: Log, batchSize: int, unread: bool, actions: seq<Action>)
    requires log.Valid() && 0 <= log.sent <= log.Newest()
    ensures NoGap(Perform(World(Acu(log, 0, ClampBatch(batchSize)), [], unread), actions), log.sent)
  {
    NoGapAlways(World(Acu(log, 0, ClampBatch(batchSize)), [], unread), log.sent, actions);
  }

  /** Once an answer is read nothing awaits replay: every event before the read position has been
      received or trimmed. */
  lemma DeliverySettles(w: World, base: nat, blocking: bool)
    requires NoGap(w, base)
    ensures var w' := Act(w, DmPolls(blocking, Delivered));
      forall s | base < s <= w'.acu.log.sent :: Settled(w', s)
  {
    PollKeepsNoGap(w, base, blocking, Delivered);
    var w' := Act(w, DmPolls(blocking, Delivered));
    forall s | base < s <= w'.acu.log.sent ensures Settled(w', s) {
      assert Settled(w', s) || AwaitsReplay(w', s);
    }
  }

  function DeliveredPolls(k: nat): (r: seq<Action>)
    ensures |r| == k
  {
    seq(k, _ => DmPolls(true, Delivered))
  }

  lemma PollDrains(w: World, base: nat)
    requires NoGap(w, base) && !w.unread
    ensures var w' := Act(w, DmPolls(true, Delivered));
      var left := w.acu.log.Pending() - MaxFor(w.acu, true);
      && !w'.unread && w'.acu.eventBatch == w.acu.eventBatch
      && w'.acu.log.history == w.acu.log.history
      && w'.acu.log.Pending() == (if left > 0 then left else 0)
  {
    PollEffect(w.acu, true, false, true);
  }

  /** What is left of p after taking away m, k times. */
  function Left(p: nat, m: nat, k: nat): (l: nat) {
    if k == 0 then p else if Left(p, m, k - 1) > m then Left(p, m, k - 1) - m else 0
  }

  lemma {:induction false} LeftIs(p: nat, m: nat, k: nat)
    ensures Left(p, m, k) == if p > k * m then p - k * m else 0
  {
    if k > 0 {
      LeftIs(p, m, k - 1);
      assert k * m == (k - 1) * m + m;
    }
  }

  /** Every read blocking answer takes a full batch off what is pending. */
  lemma {:induction false} PollsDrain(w: World, base: nat, k: nat)
    requires NoGap(w, base) && !w.unread
    ensures var w' := Perform(w, DeliveredPolls(k));
      && !w'.unread && w'.acu.eventBatch == w.acu.eventBatch
      && w'.acu.log.history == w.acu.log.history
      && w'.acu.log.Pending() == Left(w.acu.log.Pending(), MaxFor(w.acu, true), k)
  {
    if k > 0 {
      assert DeliveredPolls(k)[..k - 1] == DeliveredPolls(k - 1);
      PollsDrain(w, base, k - 1);
      NoGapAlways(w, base, DeliveredPolls(k - 1));
      var w1 := Perform(w, DeliveredPolls(k - 1));
      PollDrains(w1, base);
    }
  }

  /** Left alone, the DM ends up with every event that the ring has not given up. */
  lemma EverythingArrives(w: World, base: nat, k: nat)
    requires NoGap(w, base) && !w.unread
    requires k * MaxFor(w.acu, true) >= w.acu.log.Pending()
    ensures var w' := Perform(w, DeliveredPolls(k));
      && w'.acu.log.history == w.acu.log.history
      && forall s | base < s <= w.acu.log.Newest() :: Settled(w', s)
  {
    PollsDrain(w, base, k);
    LeftIs(w.acu.log.Pending(), MaxFor(w.acu, true), k);
    NoGapAlways(w, base, DeliveredPolls(k));
    var w' := Perform(w, DeliveredPolls(k));
    forall s | base < s <= w.acu.log.Newest() ensures Settled(w', s) {
      assert w'.acu.log.sent == w'.acu.log.Newest();
      assert Settled(w', s) || AwaitsReplay(w', s);
    }
  }

  /** A batch size of 100 or more, or none, means 100; a smaller one means itself. */
  lemma PerPoll(a: Acu, size: int)
    requires a.eventBatch == ClampBatch(size)
    ensures MaxFor(a, true) == (if 1 <= size < 100 then size else 100) && MaxFor(a, false) == 1
  {
  }

  /** So many polls that are read, at that many events each, settle everything that waits. */
  lemma EnoughPolls(w: World, base: nat, k: nat, size: int)
    requires NoGap(w, base) && !w.unread && w.acu.eventBatch == ClampBatch(size)
    requires k * (if 1 <= size < 100 then size else 100) >= CountPending(w.acu.log, 0)
    ensures forall s | base < s <= |w.acu.log.history| :: Settled(Perform(w, DeliveredPolls(k)), s)
  {
    hide NoGap, Perform, Settled;
    PerPoll(w.acu, size);
    NoGapValid(w, base);
    PendingCounts(w.acu.log, 0);
    EverythingArrives(w, base, k);
  }

  lemma NoGapValid(w: World, base: nat)
    requires NoGap(w, base)
    ensures w.acu.Valid()
  {
  }

  // ---- Restarting forgets the last batch ----

  function Restarted(w: World, capacity: int, batchSize: int): World {
    w.(acu := Acu(w.acu.log.Reopened(capacity), 0, ClampBatch(batchSize)))
  }

  ghost predicate OnlyNewer(received: seq<Stored>, later: seq<Stored>, base: nat) {
    forall x | x in later :: x in received || x.seqNo > base
  }

  lemma ActReceives(w: World, base: nat, action: Action)
    requires NoGap(w, base)
    ensures var w' := Act(w, action);
      && w.received <= w'.received && OnlyNewer(w.received, w'.received, base)
      && w.acu.log.history <= w'.acu.log.history
  {
    NothingNew(w.received, base);
    if action.DmPolls? {
      hide NoGap, Poll, OnlyNewer;
      PollReceives(w, base, action.blocking, action.fate != SendRefused);
    }
  }

  lemma PollReceives(w: World, base: nat, blocking: bool, queued: bool)
    requires NoGap(w, base)
    ensures var (a, resp) := Poll(w.acu, blocking, w.unread, queued);
      && OnlyNewer(w.received, w.received + resp.events, base) && a.log.history == w.acu.log.history
  {
    hide NoGap, Poll;
    PollAnswers(w, base, blocking, queued);
  }

  lemma NothingNew(received: seq<Stored>, base: nat)
    ensures OnlyNewer(received, received, base)
  {
  }

  lemma {:induction false} ReceivesOnlyNewer(w: World, base: nat, actions: seq<Action>)
    requires NoGap(w, base)
    ensures w.received <= Perform(w, actions).received
    ensures OnlyNewer(w.received, Perform(w, actions).received, base)
    ensures w.acu.log.history <= Perform(w, actions).acu.log.history
  {
    if actions != [] {
      var n := |actions| - 1;
      ReceivesOnlyNewer(w, base, actions[..n]);
      NoGapAlways(w, base, actions[..n]);
      ActReceives(Perform(w, actions[..n]), base, actions[n]);
    }
  }

  /** A restart keeps the promise for the future but cannot replay: whatever lay before the read
      position is received later if and only if it had been received already. */
  lemma RestartForgets(w: World, base: nat, capacity: int, batchSize: int, actions: seq<Action>, s: int)
    requires NoGap(w, base) && 1 <= s <= w.acu.log.sent
    ensures var w' := Perform(Restarted(w, capacity, batchSize), actions);
      s <= w'.acu.log.Newest() && (Received(w', s) <==> Received(w, s))
  {
    var w1 := Restarted(w, capacity, batchSize);
    var at := w.acu.log.sent;
    NoGapFromRestart(w, base, capacity, batchSize);
    ReceivesOnlyNewer(w1, at, actions);
  }

  lemma NoGapFromRestart(w: World, base: nat, capacity: int, batchSize: int)
    requires NoGap(w, base)
    ensures NoGap(Restarted(w, capacity, batchSize), w.acu.log.sent)
  {
  }

  /** It keeps the promise for the past as well if and only if the last batch needs no replay: its answer
      was read, or there is none, or all of it was received or trimmed anyway. */
  lemma RestartKeepsNoGap(w: World, base: nat, capacity: int, batchSize: int)
    requires NoGap(w, base)
    ensures NoGap(Restarted(w, capacity, batchSize), base) <==>
      !w.unread || w.acu.lastBatchFirst == 0 || forall s | w.acu.lastBatchFirst <= s <= w.acu.log.sent :: Settled(w, s)
  {
    var w1 := Restarted(w, capacity, batchSize);
    var first := w.acu.lastBatchFirst;
    NoGapFromRestart(w, base, capacity, batchSize);
    assert forall s :: (Settled(w1, s) <==> Settled(w, s)) && !AwaitsReplay(w1, s);
    if forall s | base < s <= w.acu.log.sent :: Settled(w, s) {
      assert NoGap(w1, base);
      if w.unread && first != 0 { assert base < first; }
    } else {
      var s :| base < s <= w.acu.log.sent && !Settled(w, s);
      assert AwaitsReplay(w, s) && !NoGap(w1, base);
    }
  }

  /** A run in which that happens: one event, its answer lost, then a restart. */
  lemma RestartLosesUnreadBatch(e: Event)
    ensures var w := World(Acu(Fresh(0), 0, BATCH_DEFAULT), [], false);
      var w1 := Act(Act(w, EventOccurs(e)), DmPolls(true, ResponseLost));
      && NoGap(w1, 0) && AwaitsReplay(w1, 1) && w1.acu.log.sent == 1
      && !NoGap(Restarted(w1, 0, 0), 0)
  {
    var w := World(Acu(Fresh(0), 0, BATCH_DEFAULT), [], false);
    var w1 := Act(w, EventOccurs(e));
    NoGapAlways(w, 0, []);
    AppendKeepsNoGap(w, 0, e);
    PollKeepsNoGap(w1, 0, true, ResponseLost);
    PollEffect(w1.acu, true, false, true);
    var w2 := Restarted(Act(w1, DmPolls(true, ResponseLost)), 0, 0);
    assert !Settled(w2, 1) && !AwaitsReplay(w2, 1);
  }
}
