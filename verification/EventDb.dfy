/** The SQLite event store of acud/events.c: a table keyed by an AUTOINCREMENT number, the stored read
    position, and the counter that spaces out trims. Every method is proved against `EventLog`. */
module EventDb {
  import opened OrderedTable
  import opened EventLog

  datatype FetchResult = Fetched(events: seq<Stored>) | FetchError

  class Store {
    var rows: map<int, Event>   // table events, by seq
    var autoincrement: int      // sqlite_sequence: the largest seq ever assigned
    var lastRowid: int          // sqlite3_last_insert_rowid
    var sentSeq: int            // event_state('sent_seq')
    var nextTrimCheck: int
    var capacity: int

    ghost var log: Log

    ghost predicate Valid()
      reads this
    {
      && log.Valid()
      && rows.Keys == Interval(log.trimmed, log.Newest())
      && (forall s | log.Retains(s) :: rows[s] == log.history[s - 1])
      && autoincrement == log.Newest()
      && sentSeq == log.sent
      && nextTrimCheck == log.nextTrim
      && capacity == log.capacity
    }

    constructor (cap: int)
      ensures Valid() && log == Fresh(cap)
    {
      rows, autoincrement, lastRowid, sentSeq := map[], 0, 0, 0;
      capacity := if cap > 0 then cap else DEFAULT_CAPACITY;
      nextTrimCheck := (if cap > 0 then cap else DEFAULT_CAPACITY) + TRIM_SLACK;
      log := Fresh(cap);
    }

    /** The tables stay; a new connection starts with a fresh trim counter and repairs the index. */
    method Reopen(cap: int)
      requires Valid()
      modifies this
      ensures Valid() && log == old(log).Reopened(cap)
    {
      capacity := if cap > 0 then cap else DEFAULT_CAPACITY;
      nextTrimCheck := capacity + TRIM_SLACK;
      lastRowid := 0;
      log := log.(capacity := capacity, nextTrim := nextTrimCheck);
      var repaired := RepairIndex();
    }

    /** The stored read position stops matching the table, as happened in the field. */
    method DamageIndex(value: int)
      requires Valid()
      modifies this
      ensures Valid() && log == old(log).(sent := value)
    {
      sentSeq := value;
      log := log.(sent := value);
    }

    // ---- Scalar queries ----

    function MinSeq(def: int): int
      reads this
    {
      if rows.Keys == {} then def else Min(rows.Keys)
    }

    function MaxSeq(def: int): int
      reads this
    {
      if rows.Keys == {} then def else Max(rows.Keys)
    }

    lemma Ends()
      requires Valid()
      ensures MaxSeq(0) == log.Newest()
      ensures log.Newest() > 0 ==> MinSeq(1) == log.trimmed + 1
    {
      if log.trimmed < log.Newest() { IntervalEnds(log.trimmed, log.Newest()); }
    }

    /** The MIN/MAX arithmetic is a row count: nothing is missing in the middle. */
    method Total() returns (n: int)
      requires Valid()
      ensures n == |rows| && n == log.Total()
    {
      Ends();
      IntervalSize(log.trimmed, log.Newest());
      assert |rows| == |rows.Keys|;
      var maxSeq := MaxSeq(0);
      if maxSeq == 0 { return 0; }
      var minSeq := MinSeq(1);
      n := maxSeq - minSeq + 1;
    }

    /** The number of rows beyond the stored read position, even when trims have overtaken it or it
        lies beyond the table. */
    method Pending() returns (n: int)
      requires Valid()
      ensures n == |Above(rows.Keys, sentSeq)| && n == log.Pending()
    {
      Ends();
      assert Above(rows.Keys, sentSeq) == Interval(log.ReadPosition(), log.Newest());
      IntervalSize(log.ReadPosition(), log.Newest());
      var maxSeq := MaxSeq(0);
      if maxSeq == 0 { return 0; }
      var minSeq := MinSeq(1);
      var sent := sentSeq;
      if sent < minSeq - 1 { sent := minSeq - 1; }
      var pending := maxSeq - sent;
      n := if pending > 0 then pending else 0;
    }

    // ---- Writing ----

    method RepairIndex() returns (repaired: bool)
      requires Valid()
      modifies this`sentSeq, this`log
      ensures Valid() && log == old(log).Repaired()
      ensures repaired <==> old(sentSeq) > MaxSeq(0)
    {
      Ends();
      var maxSeq := MaxSeq(0);
      if sentSeq <= maxSeq { return false; }
      sentSeq := maxSeq;
      log := log.Repaired();
      repaired := true;
    }

    method TrimIfNeeded()
      requires Valid() && log.history != []
      modifies this`rows, this`log
      ensures Valid() && log == old(log).Trimmed()
    {
      hide Interval;
      var total := Total();
      if total <= capacity { return; }
      Ends();
      var excess := total - capacity;
      var cut := MinSeq(1) + excess;
      rows := map s | s in rows && s >= cut :: rows[s];
      log := log.Trimmed();
      assert rows.Keys == Interval(log.trimmed, log.Newest());
    }

    method Insert(e: Event)
      requires Valid()
      modifies this`rows, this`autoincrement, this`lastRowid, this`log
      ensures Valid() && log == old(log).(history := old(log).history + [e])
      ensures lastRowid == log.Newest()
    {
      hide Interval;
      var s := autoincrement + 1;
      rows := rows[s := e];
      autoincrement := s;
      lastRowid := s;
      log := log.(history := log.history + [e]);
      assert rows.Keys == Interval(log.trimmed, log.Newest());
    }

    method Append(e: Event)
      requires Valid()
      modifies this
      ensures Valid() && log == old(log).Appended(e)
    {
      hide Interval, MaxSeq;
      var repaired := RepairIndex();
      Insert(e);
      if lastRowid >= nextTrimCheck {
        TrimIfNeeded();
        nextTrimCheck := lastRowid + TRIM_SLACK;
        log := log.(nextTrim := nextTrimCheck);
      }
    }

    /** Forward only. */
    method Ack(upto: int) returns (ok: bool)
      requires Valid()
      modifies this`sentSeq, this`log
      ensures Valid() && log == old(log).Acked(upto)
      ensures ok <==> upto > 0
    {
      if upto <= 0 { return false; }
      if sentSeq < upto { sentSeq := upto; }
      log := log.Acked(upto);
      ok := true;
    }

    /** Backward only. */
    method RewindToSeq(first: int) returns (ok: bool)
      requires Valid()
      modifies this`sentSeq, this`log
      ensures Valid() && log == old(log).RewoundToSeq(first)
      ensures ok <==> first > 0
    {
      if first <= 0 { return false; }
      log := log.RewoundToSeq(first);
      var target := first - 1;
      if target >= sentSeq { return true; }
      sentSeq := target;
      ok := true;
    }

    /** `SELECT MIN(seq) FROM events WHERE ts >= ?`, 0 when there is none. */
    function FirstSeqSince(from: int): int
      reads this
    {
      var since := set s | s in rows && rows[s].ts >= from;
      if since == {} then 0 else Min(since)
    }

    lemma FirstSince(from: int)
      requires Valid()
      ensures var first := log.FirstSince(from, log.trimmed);
        FirstSeqSince(from) == if first <= log.Newest() then first else 0
    {
      hide Interval, Min;
      var since := set s | s in rows && rows[s].ts >= from;
      var first := log.FirstSince(from, log.trimmed);
      if first <= log.Newest() { assert first in since; }
      forall s | s in since ensures first <= s { assert log.history[s - 1].ts >= from; }
    }

    method RewindToTime(from: int) returns (again: int)
      requires Valid()
      modifies this`sentSeq, this`log
      ensures Valid() && log == old(log).RewoundToTime(from)
      ensures again == log.Pending()
    {
      hide Interval, FirstSeqSince, MaxSeq;
      Ends();
      FirstSince(from);
      var first := FirstSeqSince(from);
      var maxSeq := MaxSeq(0);
      var target := if first > 0 then first - 1 else maxSeq;
      sentSeq := target;
      log := log.RewoundToTime(from);
      again := maxSeq - target;
    }

    method MarkAllSent()
      requires Valid()
      modifies this`sentSeq, this`log
      ensures Valid() && log == old(log).AllMarkedSent()
    {
      Ends();
      sentSeq := MaxSeq(0);
      log := log.AllMarkedSent();
    }

    // ---- Reading ----

    /** `SELECT ... WHERE seq > sent_seq ORDER BY seq LIMIT max`, stepped row by row. */
    method StepRows(max: nat) returns (out: seq<Stored>)
      requires Valid()
      ensures out == log.Batch(max)
    {
      hide Interval, Min;
      ghost var from := log.ReadPosition();
      ghost var n := |log.Batch(max)|;
      assert Above(rows.Keys, sentSeq) == Interval(from, log.Newest());
      out := [];
      var cursor := sentSeq;
      while |out| < max && Above(rows.Keys, cursor) != {}
        invariant |out| <= n
        invariant out == log.Slice(from, |out|)
        invariant Above(rows.Keys, cursor) == Interval(from + |out|, log.Newest())
        decreases max - |out|
      {
        IntervalEnds(from + |out|, log.Newest());
        log.SliceExtends(from, |out|);
        var s := Min(Above(rows.Keys, cursor));
        out := out + [Stored(s, rows[s])];
        cursor := s;
        assert Above(rows.Keys, cursor) == Interval(from + |out|, log.Newest());
      }
      assert from + |out| + 1 in Interval(from + |out|, log.Newest()) <==> from + |out| < log.Newest();
    }

    /** The oldest events beyond the read position. An empty answer repairs a read position that has
        run ahead and asks again; that happens at most once. */
    method Fetch(max: int) returns (r: FetchResult)
      requires Valid()
      modifies this`sentSeq, this`log
      ensures Valid()
      ensures max <= 0 ==> r == FetchError && log == old(log)
      ensures max > 0 ==> r == Fetched(old(log).Batch(max)) && log == old(log).AfterFetch()
      decreases if sentSeq > MaxSeq(0) then 1 else 0
    {
      if max <= 0 { return FetchError; }
      Ends();
      var out := StepRows(max);
      if out == [] {
        var repaired := RepairIndex();
        if repaired {
          r := Fetch(max);
          return;
        }
      }
      r := Fetched(out);
    }
  }

  /** The table follows every run of the store. */
  method Perform(store: Store, steps: seq<Step>) returns (ghost trace: seq<Log>)
    requires store.Valid()
    modifies store
    ensures store.Valid() && Run(trace, steps)
    ensures trace[0] == old(store.log) && trace[|steps|] == store.log
  {
    trace := [store.log];
    for i := 0 to |steps|
      invariant store.Valid() && Run(trace, steps[..i])
      invariant trace[0] == old(store.log) && trace[i] == store.log
    {
      PerformOne(store, steps[i]);
      trace := trace + [store.log];
    }
    assert steps[..|steps|] == steps;
  }

  method PerformOne(store: Store, step: Step)
    requires store.Valid()
    modifies store
    ensures store.Valid() && store.log == Next(old(store.log), step)
  {
    match step {
      case Append(e) => store.Append(e);
      case Fetch => var r := store.Fetch(1);
      case Ack(upto) => var ok := store.Ack(upto);
      case RewindToSeq(first) => var ok := store.RewindToSeq(first);
      case RewindToTime(from) => var again := store.RewindToTime(from);
      case MarkAllSent => store.MarkAllSent();
      case Reopen(c) => store.Reopen(c);
      case IndexDamaged(v) => store.DamageIndex(v);
    }
  }

  /** Retention of the table itself: after any run of a new store that ends with an append, fewer than
      capacity + 1000 rows are held, the newest event among them. */
  method Retained(capacity: int, steps: seq<Step>, e: Event) returns (store: Store)
    ensures fresh(store) && store.Valid()
    ensures store.log.history == AppendsOf(steps) + [e]
    ensures |store.rows| < store.capacity + 1000
    ensures store.autoincrement in store.rows && store.rows[store.autoincrement] == e
  {
    store := new Store(capacity);
    var all := steps + [Step.Append(e)];
    ghost var trace := Perform(store, all);
    Retention(trace, all, capacity);
    assert all[..|all| - 1] == steps;
    var total := store.Total();
  }
}
