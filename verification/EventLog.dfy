/** What the event store means: the full history of appended events, of which a prefix has been
    trimmed, and a read position.

    `EventDb` keeps a table, an AUTOINCREMENT counter and a stored read position, and answers counts by
    MIN/MAX arithmetic. Its methods are proved to follow the functions here; the promises about whole
    runs (retention, self-repair of the read position, rewinding) are lemmas about these functions.
    Event number s (counted from 1) is history[s - 1].
 */
module EventLog {
  import opened Bytes

  const DEFAULT_CAPACITY := 10_000_000
  const TRIM_SLACK := 1000

  datatype Event = Event(
    eventCode: u32, opMode: byte, moduleAddr: byte, readerAddr: byte,
    doorStatus: byte, funcCode: byte, ts: int, id: seq<byte>)

  datatype Stored = Stored(seqNo: int, event: Event)

  datatype Log = Log(history: seq<Event>, trimmed: nat, sent: int, nextTrim: int, capacity: int) {

    /** A trim never reaches the newest event, so a store that ever held one still holds one. */
    ghost predicate Valid() {
      && capacity > 0
      && trimmed <= |history|
      && (history != [] ==> trimmed < |history|)
    }

    /** The newest event number; 0 when nothing was ever appended. */
    function Newest(): nat { |history| }

    predicate Retains(s: int) { trimmed < s <= Newest() }

    function Total(): int { Newest() - trimmed }

    /** The last event number that a fetch passes over. */
    function ReadPosition(): int {
      if sent < trimmed then trimmed else if sent > Newest() then Newest() else sent
    }

    function Pending(): int { Newest() - ReadPosition() }

    function Entry(i: nat): Stored
      requires i < |history|
    {
      Stored(i + 1, history[i])
    }

    /** Consecutive stored events, oldest first, starting after event number `after`. */
    function Slice(after: nat, n: nat): (b: seq<Stored>)
      requires after + n <= |history|
      ensures |b| == n
      ensures forall i | 0 <= i < n :: b[i] == Entry(after + i)
    {
      seq(n, i requires 0 <= i < n => Entry(after + i))
    }

    lemma SliceExtends(after: nat, n: nat)
      requires after + n < |history|
      ensures Slice(after, n + 1) == Slice(after, n) + [Entry(after + n)]
    {
    }

    /** What a fetch of at most `max` events returns. */
    function Batch(max: nat): seq<Stored>
      requires Valid()
    {
      Slice(ReadPosition(), if Pending() < max then Pending() else max)
    }

    // ---- Operations ----

    /** A read position beyond the newest event is pulled back to it. */
    function Repaired(): Log {
      if sent > Newest() then this.(sent := Newest()) else this
    }

    function Appended(e: Event): Log {
      var l := Repaired().(history := history + [e]);
      if l.Newest() >= nextTrim then l.Trimmed().(nextTrim := l.Newest() + TRIM_SLACK) else l
    }

    function Trimmed(): Log {
      if Total() <= capacity then this else this.(trimmed := if capacity < 0 then Newest() else Newest() - capacity)
    }

    /** An empty answer makes the store look at its read position. */
    function AfterFetch(): Log {
      if Pending() == 0 then Repaired() else this
    }

    function Acked(upto: int): Log {
      if upto > 0 && sent < upto then this.(sent := upto) else this
    }

    function RewoundToSeq(first: int): Log {
      if first > 0 && first - 1 < sent then this.(sent := first - 1) else this
    }

    function RewoundToTime(from: int): Log
      requires Valid()
    {
      this.(sent := FirstSince(from, trimmed) - 1)
    }

    /** The oldest event after number `after` whose time is not before `from`, or one past the newest. */
    function FirstSince(from: int, after: nat): (s: int)
      requires after <= |history|
      ensures after < s <= Newest() + 1
      ensures s <= Newest() ==> history[s - 1].ts >= from
      ensures forall i | after <= i < s - 1 :: history[i].ts < from
      decreases |history| - after
    {
      if after == |history| || history[after].ts >= from then after + 1 else FirstSince(from, after + 1)
    }

    function AllMarkedSent(): Log { this.(sent := Newest()) }

    /** Close and open again: only the tables survive, and the trim counter restarts. */
    function Reopened(newCapacity: int): Log {
      var c := if newCapacity > 0 then newCapacity else DEFAULT_CAPACITY;
      this.(capacity := c, nextTrim := c + TRIM_SLACK).Repaired()
    }
  }

  function Fresh(capacity: int): Log {
    Log([], 0, 0, 0, 0).Reopened(capacity)
  }

  // ---- Runs ----

  /** Everything that can happen to a store. `IndexDamaged` is the field fault of a read position
      that no longer matches the table. */
  datatype Step =
    | Append(e: Event)
    | Fetch
    | Ack(upto: int)
    | RewindToSeq(first: int)
    | RewindToTime(from: int)
    | MarkAllSent
    | Reopen(newCapacity: int)
    | IndexDamaged(value: int)

  function Next(l: Log, step: Step): Log
    requires l.Valid()
  {
    match step
    case Append(e) => l.Appended(e)
    case Fetch => l.AfterFetch()
    case Ack(upto) => l.Acked(upto)
    case RewindToSeq(first) => l.RewoundToSeq(first)
    case RewindToTime(from) => l.RewoundToTime(from)
    case MarkAllSent => l.AllMarkedSent()
    case Reopen(c) => l.Reopened(c)
    case IndexDamaged(v) => l.(sent := v)
  }

  /** Room until the next trim: without one, at most capacity + 999 events are held. */
  ghost predicate BoundedUntilTrim(l: Log) {
    l.Newest() >= l.nextTrim || l.Total() + (l.nextTrim - 1 - l.Newest()) <= l.capacity + TRIM_SLACK - 1
  }

  lemma NextKeeps(l: Log, step: Step)
    requires l.Valid() && BoundedUntilTrim(l)
    ensures var l' := Next(l, step);
      && l'.Valid() && BoundedUntilTrim(l')
      && l.trimmed <= l'.trimmed
      && l'.history == l.history + (if step.Append? then [step.e] else [])
  {
  }

  ghost predicate Run(trace: seq<Log>, steps: seq<Step>) {
    && |trace| == |steps| + 1
    && (forall i | 0 <= i < |trace| :: trace[i].Valid())
    && (forall i | 0 <= i < |steps| :: trace[i + 1] == Next(trace[i], steps[i]))
  }

  function AppendsOf(steps: seq<Step>): seq<Event> {
    if steps == [] then []
    else AppendsOf(steps[..|steps| - 1]) + (if steps[|steps| - 1].Append? then [steps[|steps| - 1].e] else [])
  }

  /** Retention over a whole run: whatever the steps, across reopening with any capacities, the store
      holds a suffix of everything ever appended, the newest event included; and right after an append
      it holds fewer than capacity + 1000 events. */
  lemma {:induction false} Retention(trace: seq<Log>, steps: seq<Step>, capacity: int)
    requires Run(trace, steps) && trace[0] == Fresh(capacity)
    ensures var l := trace[|steps|];
      && l.history == AppendsOf(steps)
      && BoundedUntilTrim(l)
      && (l.history != [] ==> l.Retains(l.Newest()))
      && (steps != [] && steps[|steps| - 1].Append? ==> l.Total() < l.capacity + 1000)
  {
    if steps != [] {
      var n := |steps| - 1;
      assert Run(trace[..n + 1], steps[..n]);
      Retention(trace[..n + 1], steps[..n], capacity);
      NextKeeps(trace[n], steps[n]);
    }
  }

  /** A trim leaves exactly the newest `capacity` events. */
  lemma TrimLeavesNewest(l: Log, e: Event)
    requires l.Valid() && l.Newest() + 1 >= l.nextTrim
    ensures var l' := l.Appended(e);
      l'.Total() == (if l.Total() + 1 > l.capacity then l.capacity else l.Total() + 1)
    ensures var l' := l.Appended(e);
      forall s :: l'.Retains(s) <==> l.trimmed < s <= l.Newest() + 1 && s > l.Newest() + 1 - l.capacity
  {
  }

  /** Whatever the stored read position was, the event just appended is pending, and a fetch of
      everything pending ends with it. */
  lemma AppendedIsPending(l: Log, e: Event, max: nat)
    requires l.Valid()
    ensures var l' := l.Appended(e);
      && l'.Valid()
      && l'.sent < l'.Newest() && l'.Pending() > 0
      && (max >= l'.Pending() ==>
            |l'.Batch(max)| == l'.Pending() && l'.Batch(max)[l'.Pending() - 1] == Stored(l'.Newest(), e))
  {
    var l' := l.Appended(e);
    assert l'.Newest() == l.Newest() + 1;
    assert max >= l'.Pending() ==> l'.Batch(max)[l'.Pending() - 1] == l'.Entry(l'.Newest() - 1);
  }

  /** What each operation does to the events that are still to be sent: an acknowledgement takes away those up
      to its number, a rewind to a number adds those from it on, and marking takes all away. */
  lemma ToBeSent(l: Log, s: int, n: int)
    requires l.Valid() && l.Retains(s)
    ensures s > l.Acked(n).sent <==> s > l.sent && s > n
    ensures s > l.RewoundToSeq(n).sent <==> s > l.sent || 1 <= n <= s
    ensures s <= l.AllMarkedSent().sent
    ensures l.Acked(n).Retains(s) && l.RewoundToSeq(n).Retains(s) && l.AllMarkedSent().Retains(s)
  {
  }

  /** After all are marked as sent nothing is pending, and the next event alone is. */
  lemma MarkedThenNext(l: Log, e: Event)
    requires l.Valid()
    ensures CountPending(l.AllMarkedSent(), 0) == 0
    ensures CountPending(l.AllMarkedSent().Appended(e), 0) == 1
  {
    PendingCounts(l.AllMarkedSent(), 0);
    PendingCounts(l.AllMarkedSent().Appended(e), 0);
  }

  /** An empty fetch repairs a read position beyond the newest event; any other fetch changes nothing. */
  lemma FetchRepairs(l: Log)
    requires l.Valid()
    ensures var r := l.AfterFetch();
      && CountPending(r, 0) == CountPending(l, 0)
      && (CountPending(l, 0) == 0 ==> r.sent <= r.Newest() && r == l.(sent := r.sent))
      && (CountPending(l, 0) > 0 ==> r == l)
      && (l.sent <= l.Newest() ==> r == l)
  {
    PendingCounts(l, 0);
    PendingCounts(l.AfterFetch(), 0);
  }

  /** Trims are rare: none before the store has seen capacity + 1000 events since it was opened, and after
      one none for 1000 events. The capacity is ten million when none is given. */
  lemma TrimsAreRare(l: Log, e: Event, capacity: int)
    requires l.Valid()
    ensures var r := l.Reopened(capacity);
      && r.trimmed == l.trimmed && r.history == l.history
      && r.capacity == (if capacity > 0 then capacity else 10_000_000) && r.nextTrim == r.capacity + 1000
    ensures var r := l.Appended(e);
      && (l.Newest() + 1 < l.nextTrim ==> r.trimmed == l.trimmed && r.nextTrim == l.nextTrim)
      && (l.Newest() + 1 >= l.nextTrim ==> r.nextTrim == r.Newest() + 1000)
  {
  }

  /** Pending is the number of retained events beyond the read position, counted one by one. */
  function CountPending(l: Log, from: nat): nat
    requires from <= |l.history|
    decreases |l.history| - from
  {
    if from == |l.history| then 0
    else (if l.Retains(from + 1) && from + 1 > l.sent then 1 else 0) + CountPending(l, from + 1)
  }

  lemma {:induction false} PendingCounts(l: Log, from: nat)
    requires l.Valid() && from <= |l.history|
    ensures CountPending(l, from) == l.Newest() - (if from < l.ReadPosition() then l.ReadPosition() else from)
    ensures from == 0 ==> CountPending(l, 0) == l.Pending()
    decreases |l.history| - from
  {
    if from < |l.history| { PendingCounts(l, from + 1); }
  }

  /** Rewinding to a time makes pending every retained event from that time on, whether or not the
      stored times ascend, and nothing older than the first of them. */
  lemma RewindCovers(l: Log, from: int)
    requires l.Valid()
    ensures var l' := l.RewoundToTime(from);
      && l'.Valid()
      && l'.Pending() == l'.Newest() - l'.sent
      && (forall s | l.Retains(s) && l.history[s - 1].ts >= from :: s > l'.sent)
      && (l'.Pending() > 0 ==> l.Retains(l'.sent + 1) && l.history[l'.sent].ts >= from)
      && (forall s | l.Retains(s) && s <= l'.sent :: l.history[s - 1].ts < from)
  {
  }
}
