/** Receiving a full roster (acud/userbin.c): a blob of announced size arrives in numbered chunks that
    ignore record boundaries. Bytes are gathered into records; complete records go to the staging tables
    and the roster is swapped when the last byte is in.

    `Slices` and `Leftover` are the batch view of a byte stream; the receiver is proved to follow it
    whatever the chunks were. */
module UserBin {
  import opened Bytes
  import opened UserRecord
  import opened Roster

  const OBJ_INFO := 0x01
  const OBJ_INFO_FINGER := 0x02

  const EVENT_USERFILE_PARTIAL := 0x101D0101
  const EVENT_USERFILE_SUCCESS := 0x101D0102
  const EVENT_USERFILE_FAIL := 0x101D0103

  // ---- The batch view ----

  /** Cutting a run of n-byte records gives the records back. */
  lemma {:induction false} SlicesOfConcat(parts: seq<seq<byte>>, n: nat)
    requires n > 0 && forall i | 0 <= i < |parts| :: |parts[i]| == n
    ensures Slices(Concat(parts), n) == parts && |Concat(parts)| == |parts| * n
  {
    if parts != [] {
      SlicesOfConcat(parts[1..], n);
      var blob := Concat(parts);
      assert blob[..n] == parts[0] && blob[n..] == Concat(parts[1..]);
      assert |parts| * n == (|parts| - 1) * n + n;
    }
  }

  /** The consecutive n-byte records of a blob. */
  function Slices(blob: seq<byte>, n: nat): (r: seq<seq<byte>>)
    requires n > 0
    ensures forall i | 0 <= i < |r| :: |r[i]| == n
  {
    if |blob| < n then [] else [blob[..n]] + Slices(blob[n..], n)
  }

  function Leftover(blob: seq<byte>, n: nat): (r: seq<byte>)
    requires n > 0
    ensures |r| < n
  {
    if |blob| < n then blob else Leftover(blob[n..], n)
  }

  lemma {:induction false} SliceCounts(blob: seq<byte>, n: nat)
    requires n > 0
    ensures |Slices(blob, n)| == |blob| / n && |Leftover(blob, n)| == |blob| % n
  {
    if |blob| >= n {
      SliceCounts(blob[n..], n);
      DivStep(|blob|, n);
    }
  }

  lemma DivStep(x: nat, n: nat)
    requires x >= n > 0
    ensures x / n == (x - n) / n + 1 && x % n == (x - n) % n
  {
    var q, r := (x - n) / n, (x - n) % n;
    assert (q + 1) * n == q * n + n;
    QuotientUnique(n, q + 1, r, x / n, x % n);
  }

  /** The streaming law: what has been cut off stays cut off, and the rest is cut with what follows. */
  lemma {:induction false} SlicesStream(s: seq<byte>, t: seq<byte>, n: nat)
    requires n > 0
    ensures Slices(s + t, n) == Slices(s, n) + Slices(Leftover(s, n) + t, n)
    ensures Leftover(s + t, n) == Leftover(Leftover(s, n) + t, n)
  {
    if |s| >= n {
      SlicesStream(s[n..], t, n);
      assert (s + t)[n..] == s[n..] + t && (s + t)[..n] == s[..n];
    }
  }

  lemma PartJoins(s: seq<byte>, part: seq<byte>, n: nat)
    requires n > 0 && |Leftover(s, n)| + |part| <= n
    ensures |Leftover(s, n)| + |part| < n ==>
      Slices(s + part, n) == Slices(s, n) && Leftover(s + part, n) == Leftover(s, n) + part
    ensures |Leftover(s, n)| + |part| == n ==>
      Slices(s + part, n) == Slices(s, n) + [Leftover(s, n) + part] && Leftover(s + part, n) == []
  {
    SlicesStream(s, part, n);
    var r := Leftover(s, n) + part;
    if |r| == n {
      assert r[..n] == r && r[n..] == [];
      assert Slices(r, n) == [r] + Slices([], n);
    }
  }

  /** The rows that store_record writes for one record. */
  function RowsOf(rec: seq<byte>): seq<Row>
    requires |rec| >= REC_INFO_LEN
  {
    if !Accepted(rec) then []
    else
      var e := Decode(rec);
      [UserRow(e.user)] + (if e.card == NO_ID then [] else [CardRow(CardOf(e))])
  }

  function Reversed(s: seq<byte>): (r: seq<byte>)
    ensures |r| == |s|
  {
    seq(|s|, i requires 0 <= i < |s| => s[|s| - 1 - i])
  }

  /** The card number as it stands in the record, and its reversed form as Proximity Data. */
  function CardOf(e: Entry): Card {
    Card(e.card, e.user.userId, Reversed(e.card) + Zeros(24))
  }

  function AllRows(recs: seq<seq<byte>>): seq<Row>
    requires forall i | 0 <= i < |recs| :: |recs[i]| >= REC_INFO_LEN
  {
    if recs == [] then [] else AllRows(recs[..|recs| - 1]) + RowsOf(recs[|recs| - 1])
  }

  function CountAccepted(recs: seq<seq<byte>>): (n: nat)
    requires forall i | 0 <= i < |recs| :: |recs[i]| >= REC_INFO_LEN
    ensures n <= |recs|
  {
    if recs == [] then 0 else CountAccepted(recs[..|recs| - 1]) + (if Accepted(recs[|recs| - 1]) then 1 else 0)
  }

  /** The roster that a blob describes. */
  function RosterOf(blob: seq<byte>, n: nat): Tables
    requires n >= REC_INFO_LEN
  {
    Fold(AllRows(Slices(blob, n)))
  }

  // ---- The receiver ----

  datatype Status = Ok | Complete | Failed

  /** What a Continue is judged by. */
  datatype Progress = Progress(active: bool, totalSize: nat, recordLen: nat, stream: seq<byte>,
                               haveIndex: bool, lastIndex: u16) {
    predicate Accepts(index: u16, data: seq<byte>) {
      && active
      && (haveIndex ==> index == Succ16(lastIndex))
      && |stream| + |data| <= totalSize
    }

    predicate IsRepeat(index: u16) {
      active && haveIndex && index == lastIndex
    }

    function After(index: u16, data: seq<byte>): Progress {
      if !Accepts(index, data) then this
      else Progress(|stream| + |data| < totalSize, totalSize, recordLen, stream + data, true, index)
    }

    function Verdict(index: u16, data: seq<byte>): Status {
      if IsRepeat(index) then Ok
      else if !Accepts(index, data) then Failed
      else if |stream| + |data| < totalSize then Ok
      else Complete
    }
  }

  function RecordLenFor(binaryObj: byte): nat {
    if binaryObj == OBJ_INFO then REC_INFO_LEN
    else if binaryObj == OBJ_INFO_FINGER then REC_INFO_FINGER_LEN
    else 0
  }

  predicate StartAccepted(totalSize: u32, binaryObj: byte) {
    RecordLenFor(binaryObj) > 0 && totalSize > 0 && totalSize % RecordLenFor(binaryObj) == 0
  }

  /** A Start names a kind of record and a positive whole number of such records. */
  lemma StartMeaning(size: u32, binaryObj: byte)
    ensures StartAccepted(size, binaryObj) <==>
      size > 0 && ((binaryObj == 1 && size % 128 == 0) || (binaryObj == 2 && size % 1808 == 0))
    ensures StartAccepted(size, binaryObj) ==> RecordLenFor(binaryObj) == (if binaryObj == 1 then 128 else 1808)
  {
  }

  /** One of the two record sizes, and a whole number of such records. */
  predicate WholeRecords(size: nat, n: nat) {
    || (n == REC_INFO_LEN && size % 128 == 0)
    || (n == REC_INFO_FINGER_LEN && size % 1808 == 0)
  }

  lemma RecordSizes(size: nat, n: nat)
    requires WholeRecords(size, n)
    ensures REC_INFO_LEN <= n <= REC_INFO_FINGER_LEN
  {
  }

  lemma Extend(s1: seq<byte>, s0: seq<byte>, data: seq<byte>, off: nat, take: nat)
    requires off + take <= |data| && s1 == s0 + data[..off]
    ensures s1 + data[off..off + take] == s0 + data[..off + take]
  {
  }

  lemma WholeBlob(blob: seq<byte>, n: nat)
    requires WholeRecords(|blob|, n)
    ensures Leftover(blob, n) == [] && |Slices(blob, n)| == |blob| / n
  {
    SliceCounts(blob, n);
  }

  lemma NothingYet(n: nat)
    requires n > 0
    ensures Slices([], n) == [] && Leftover([], n) == [] && CountAccepted([]) == 0 && AllRows([]) == []
  {
  }

  lemma OneMoreRecord(recs: seq<seq<byte>>, r: seq<byte>)
    requires forall i | 0 <= i < |recs| :: |recs[i]| >= REC_INFO_LEN
    requires |r| >= REC_INFO_LEN
    ensures forall i | 0 <= i < |recs + [r]| :: |(recs + [r])[i]| >= REC_INFO_LEN
    ensures CountAccepted(recs + [r]) == CountAccepted(recs) + (if Accepted(r) then 1 else 0)
    ensures AllRows(recs + [r]) == AllRows(recs) + RowsOf(r)
  {
    hide Accepted, RowsOf;
    assert (recs + [r])[..|recs|] == recs;
  }

  class Receiver {
    const db: UsersDb
    const rec: array<byte>    // the record being gathered
    var recLen: nat
    var active: bool
    var totalSize: u32
    var totalCount: u32
    var received: nat
    var recordLen: nat
    var haveIndex: bool
    var lastIndex: u16
    var parsedOk: nat
    var parsedBad: nat

    ghost var stream: seq<byte>   // every byte accepted since Start

    ghost function State(): Progress
      reads this
    {
      Progress(active, totalSize, recordLen, stream, haveIndex, lastIndex)
    }

    /** The partial record, the counters and the staged rows are those of the stream so far. */
    ghost predicate Gathering()
      requires recordLen >= REC_INFO_LEN
      reads this, rec, db
    {
      && recLen < recordLen <= rec.Length
      && rec[..recLen] == Leftover(stream, recordLen)
      && Counted(Slices(stream, recordLen))
    }

    ghost predicate Counted(recs: seq<seq<byte>>)
      requires forall i | 0 <= i < |recs| :: |recs[i]| >= REC_INFO_LEN
      reads this, db
    {
      parsedOk == CountAccepted(recs) && parsedOk + parsedBad == |recs| && db.accepted == AllRows(recs)
    }

    /** Every record of the stream has been counted once, and nothing is left over. */
    ghost predicate Tallied()
      requires recordLen >= REC_INFO_LEN
      reads this
    {
      && parsedOk == CountAccepted(Slices(stream, recordLen))
      && parsedOk + parsedBad == |stream| / recordLen
      && Leftover(stream, recordLen) == []
    }

    ghost predicate Valid()
      reads this, rec, db
    {
      && db.Valid()
      && rec.Length == REC_INFO_FINGER_LEN
      && (active <==> db.loading)
      && (active ==>
            && WholeRecords(totalSize, recordLen)
            && |stream| < totalSize
            && received == |stream|
            && Gathering())
    }

    constructor (users: UsersDb)
      requires users.Valid() && !users.loading
      ensures Valid() && db == users && !active && fresh(rec)
    {
      db := users;
      rec := new byte[REC_INFO_FINGER_LEN](_ => 0);
      recLen, active, totalSize, totalCount, received, recordLen := 0, false, 0, 0, 0, 0;
      haveIndex, lastIndex, parsedOk, parsedBad, stream := false, 0, 0, 0, [];
    }

    /** Also what a dropped connection does. */
    method Abort()
      requires Valid()
      modifies this, db
      ensures Valid() && !active
      ensures db.State() == if old(active) then old(db.State()).After(Roster.Abort) else old(db.State())
    {
      if !active { return; }
      db.LoadAbort();
      active, recLen, received, haveIndex := false, 0, 0, false;
    }

    /** A new Start drops a transfer in progress, even when it is itself refused. */
    method Start(size: u32, count: u32, binaryObj: byte) returns (ok: bool)
      requires Valid()
      modifies this, db
      ensures Valid()
      ensures db.Roster() == old(db.State()).Settled()
      ensures ok <==> StartAccepted(size, binaryObj)
      ensures ok ==> State() == Progress(true, size, RecordLenFor(binaryObj), [], false, 0)
      ensures !ok ==> !active
    {
      if active { Abort(); }
      var n := RecordLenFor(binaryObj);
      if n == 0 { return false; }
      if size == 0 || size % n != 0 { return false; }
      db.LoadBegin();
      Reset(size, count, n);
      ok := true;
    }

    method Reset(size: u32, count: u32, n: nat)
      requires db.Valid() && db.loading && db.accepted == [] && rec.Length == REC_INFO_FINGER_LEN
      requires WholeRecords(size, n) && size > 0
      modifies this
      ensures Valid() && State() == Progress(true, size, n, [], false, 0)
    {
      hide Slices, Leftover, CountAccepted, AllRows, Fold, UsersDb.Valid;
      RecordSizes(size, n);
      hide WholeRecords;
      active, totalSize, totalCount, recordLen := true, size, count, n;
      received, recLen, haveIndex, lastIndex, parsedOk, parsedBad := 0, 0, false, 0, 0, 0;
      stream := [];
      NothingYet(n);
      assert rec[..0] == [];
    }

    /** While a transfer is running: the bytes waiting and the records counted so far. */
    lemma Counts()
      requires Valid() && active
      ensures recLen == received % recordLen && parsedOk + parsedBad == received / recordLen
    {
      SliceCounts(stream, recordLen);
    }

    /** The event that tells the DM how the transfer went. */
    function ResultEvent(): (code: u32)
      reads this
      ensures code == 0x101D_0102 <==> parsedOk > 0 && parsedBad == 0
      ensures code == 0x101D_0103 <==> parsedOk == 0
      ensures code == 0x101D_0101 <==> parsedOk > 0 && parsedBad > 0
    {
      if parsedOk == 0 then EVENT_USERFILE_FAIL
      else if parsedBad > 0 then EVENT_USERFILE_PARTIAL
      else EVENT_USERFILE_SUCCESS
    }

    method StoreRecord(r: seq<byte>) returns (ok: bool)
      requires db.Valid() && db.loading && |r| >= REC_INFO_LEN
      modifies db
      ensures db.Valid() && db.loading && db.Roster() == old(db.Roster())
      ensures ok <==> Accepted(r)
      ensures db.accepted == old(db.accepted) + RowsOf(r)
    {
      hide Decode, CrcOk, CardOf, Fold;
      var crcOk := RecordCrcOk(r);
      if !crcOk { return false; }
      var e := Decode(r);
      if e.user.userId == NO_ID { return false; }
      ok := db.LoadPut(e.user);
      if e.card != NO_ID {
        ok := db.LoadPutCard(CardOf(e));
      }
    }

    method CopyIn(part: seq<byte>)
      requires recLen + |part| <= rec.Length
      modifies rec, this`recLen
      ensures recLen == old(recLen) + |part| && rec[..recLen] == old(rec[..recLen]) + part
    {
      Blit(rec, recLen, part);
      recLen := recLen + |part|;
    }

    /** Stores the record just completed. `s` is the stream before its last part came in. */
    method FinishRecord(ghost s: seq<byte>)
      requires db.Valid() && db.loading
      requires recordLen >= REC_INFO_LEN && recLen == recordLen <= rec.Length
      requires Slices(stream, recordLen) == Slices(s, recordLen) + [rec[..recLen]]
      requires Counted(Slices(s, recordLen))
      modifies db, this`recLen, this`parsedOk, this`parsedBad
      ensures db.Valid() && db.loading && db.Roster() == old(db.Roster())
      ensures recLen == 0 && Counted(Slices(stream, recordLen))
    {
      hide Slices, CountAccepted, AllRows, RowsOf, Accepted, Fold;
      var r := rec[..recLen];
      OneMoreRecord(Slices(s, recordLen), r);
      var ok := StoreRecord(r);
      if ok { parsedOk := parsedOk + 1; } else { parsedBad := parsedBad + 1; }
      recLen := 0;
    }

    /** One turn of the copy loop: part of the chunk joins the record being gathered, which is stored
        as soon as it is whole. */
    method Gather(part: seq<byte>)
      requires db.Valid() && db.loading && recordLen >= REC_INFO_LEN
      requires Gathering() && 0 < |part| <= recordLen - recLen
      modifies rec, db, this`recLen, this`parsedOk, this`parsedBad, this`stream
      ensures db.Valid() && db.loading && db.Roster() == old(db.Roster())
      ensures stream == old(stream) + part && Gathering()
    {
      ghost var s := stream;
      PartJoins(s, part, recordLen);
      CopyIn(part);
      stream := stream + part;
      if recLen == recordLen {
        FinishRecord(s);
        assert rec[..0] == [];
      }
    }

    /** Cuts the chunk at record boundaries. */
    method Consume(data: seq<byte>)
      requires db.Valid() && db.loading && recordLen >= REC_INFO_LEN && Gathering()
      modifies rec, db, this`recLen, this`parsedOk, this`parsedBad, this`stream
      ensures db.Valid() && db.loading && db.Roster() == old(db.Roster())
      ensures stream == old(stream) + data && Gathering()
    {
      var off := 0;
      while off < |data|
        invariant off <= |data|
        invariant db.Valid() && db.loading && db.Roster() == old(db.Roster())
        invariant stream == old(stream) + data[..off]
        invariant Gathering()
        decreases |data| - off
      {
        var need := recordLen - recLen;
        var take := if |data| - off < need then |data| - off else need;
        ghost var before := stream;
        Gather(data[off..off + take]);
        Extend(before, old(stream), data, off, take);
        off := off + take;
      }
      assert data[..off] == data;
    }

    /** The last byte is in: swap the roster. */
    method Finish() returns (status: Status)
      requires db.Valid() && db.loading && active
      modifies this`active, this`recLen, db
      ensures db.Valid() && !db.loading && !active && recLen == 0 && status == Complete
      ensures db.Roster() == Fold(old(db.accepted))
    {
      var ok := db.LoadCommit();
      active, recLen := false, 0;
      status := Complete;
    }

    /** A chunk is taken when it is the next one and fits; a repeat of the last one is answered without
        being taken again; anything else is refused, and neither of these changes anything. */
    method Continue(index: u16, data: seq<byte>) returns (status: Status)
      requires Valid()
      modifies this, rec, db
      ensures Valid()
      ensures State() == old(State()).After(index, data)
      ensures status == old(State()).Verdict(index, data)
      ensures !old(State()).Accepts(index, data) ==> unchanged(this) && unchanged(rec) && unchanged(db)
      ensures status == Complete ==> db.Roster() == RosterOf(stream, recordLen) && Tallied()
      ensures status != Complete ==> db.Roster() == old(db.Roster())
    {
      if !active { return Failed; }
      if haveIndex {
        if index == lastIndex { return Ok; }
        if index != Succ16(lastIndex) { return Failed; }
      }
      if received + |data| > totalSize { return Failed; }
      status := Take(index, data);
    }

    method Take(index: u16, data: seq<byte>) returns (status: Status)
      requires Valid() && active && |stream| + |data| <= totalSize
      modifies this, rec, db
      ensures Valid()
      ensures State() == Progress(|old(stream)| + |data| < totalSize, old(totalSize), old(recordLen),
                                  old(stream) + data, true, index)
      ensures status == if |old(stream)| + |data| < totalSize then Ok else Complete
      ensures status == Complete ==> db.Roster() == RosterOf(stream, recordLen) && Tallied()
      ensures status != Complete ==> db.Roster() == old(db.Roster())
    {
      hide Slices, Leftover, CountAccepted, AllRows, Fold;
      Consume(data);
      received := received + |data|;
      lastIndex, haveIndex := index, true;
      if received >= totalSize {
        WholeBlob(stream, recordLen);
        status := Finish();
      } else {
        status := Ok;
      }
    }
  }

  // ---- Whole transfers ----

  datatype Call = Call(index: u16, data: seq<byte>)

  function Replay(p: Progress, calls: seq<Call>): Progress
    decreases calls
  {
    if calls == [] then p else Replay(p.After(calls[0].index, calls[0].data), calls[1..])
  }

  // ---- A sender that numbers its pieces ----

  /** What can reach the receiver: a piece of the cut under its own number, or any other chunk. */
  datatype Arrival = Piece(i: nat) | Other(index: u16, data: seq<byte>)

  function Number(first: u16, i: nat): u16 {
    (first as int + i) % 0x1_0000
  }

  /** Chunk numbers tell the pieces apart, and the last piece is not empty. */
  predicate Numberable(cut: seq<seq<byte>>) {
    0 < |cut| <= 0x1_0000 && |cut[|cut| - 1]| > 0
  }

  /** How many pieces have been taken: those that came exactly when they were the next one. */
  function Taken(k: nat, arrivals: seq<Arrival>): nat
    decreases |arrivals|
  {
    if arrivals == [] then k
    else Taken(if arrivals[0] == Piece(k) then k + 1 else k, arrivals[1..])
  }

  /** Pieces in any order, repeated or skipped, after piece 0 has come first; among them chunks that are
      longer than what is still missing. */
  ghost predicate Sent(cut: seq<seq<byte>>, k: nat, arrivals: seq<Arrival>)
    requires k <= |cut|
    decreases |arrivals|
  {
    arrivals == [] ||
    match arrivals[0]
    case Piece(i) => i < |cut| && (k == 0 ==> i == 0) && Sent(cut, if i == k then k + 1 else k, arrivals[1..])
    case Other(_, data) =>
      (k < |cut| ==> |Concat(cut[..k])| + |data| > |Concat(cut)|) && Sent(cut, k, arrivals[1..])
  }

  function CallOf(cut: seq<seq<byte>>, first: u16, a: Arrival): Call
    requires a.Piece? ==> a.i < |cut|
  {
    match a
    case Piece(i) => Call(Number(first, i), cut[i])
    case Other(index, data) => Call(index, data)
  }

  /** A receiver that has taken the first k pieces. */
  ghost predicate HasTaken(p: Progress, cut: seq<seq<byte>>, first: u16, k: nat) {
    && k <= |cut|
    && p.totalSize == |Concat(cut)| && p.stream == Concat(cut[..k])
    && (p.active <==> k < |cut|)
    && (p.haveIndex <==> k > 0)
    && (k > 0 ==> p.lastIndex == Number(first, k - 1))
  }

  lemma Numbers(first: u16, i: nat, k: nat)
    requires i < 0x1_0000 && k < 0x1_0000
    ensures Number(first, i) == Number(first, k) <==> i == k
    ensures k > 0 ==> Succ16(Number(first, k - 1)) == Number(first, k)
  {
  }

  lemma {:induction false} NonEmptyTail(cut: seq<seq<byte>>, k: nat)
    requires k < |cut| && |cut[|cut| - 1]| > 0
    ensures |Concat(cut[k..])| > 0
    decreases |cut| - k
  {
    if k + 1 < |cut| {
      NonEmptyTail(cut, k + 1);
      assert cut[k..][1..] == cut[k + 1..];
    } else {
      assert cut[k..][0] == cut[k];
    }
  }

  lemma NextPiece(cut: seq<seq<byte>>, k: nat)
    requires k < |cut| && |cut[|cut| - 1]| > 0
    ensures Concat(cut[..k + 1]) == Concat(cut[..k]) + cut[k]
    ensures |Concat(cut[..k + 1])| <= |Concat(cut)|
    ensures |Concat(cut[..k + 1])| < |Concat(cut)| <==> k + 1 < |cut|
  {
    assert cut[..k + 1] == cut[..k] + [cut[k]];
    ConcatLast(cut[..k], cut[k]);
    ConcatAppend(cut[..k + 1], cut[k + 1..]);
    assert cut == cut[..k + 1] + cut[k + 1..];
    if k + 1 < |cut| { NonEmptyTail(cut, k + 1); }
  }

  /** The chunk number rule: of all the pieces exactly the next one is taken. */
  lemma OnlyNextPieceTaken(p: Progress, cut: seq<seq<byte>>, first: u16, k: nat, i: nat)
    requires Numberable(cut) && HasTaken(p, cut, first, k) && i < |cut| && (k == 0 ==> i == 0)
    ensures p.Accepts(Number(first, i), cut[i]) <==> i == k
  {
    if k < |cut| {
      Numbers(first, i, k);
      NextPiece(cut, k);
    }
  }

  lemma ArrivalTaken(p: Progress, cut: seq<seq<byte>>, first: u16, k: nat, arrivals: seq<Arrival>)
    requires Numberable(cut) && HasTaken(p, cut, first, k) && arrivals != [] && Sent(cut, k, arrivals)
    ensures var c := CallOf(cut, first, arrivals[0]);
      HasTaken(p.After(c.index, c.data), cut, first, if arrivals[0] == Piece(k) then k + 1 else k)
  {
    if arrivals[0].Piece? {
      OnlyNextPieceTaken(p, cut, first, k, arrivals[0].i);
      if arrivals[0].i == k { NextPiece(cut, k); }
    }
  }

  function Calls(cut: seq<seq<byte>>, first: u16, arrivals: seq<Arrival>): (r: seq<Call>)
    requires forall i | 0 <= i < |arrivals| && arrivals[i].Piece? :: arrivals[i].i < |cut|
    ensures |r| == |arrivals|
  {
    seq(|arrivals|, i requires 0 <= i < |arrivals| => CallOf(cut, first, arrivals[i]))
  }

  lemma {:induction false} SentPieces(cut: seq<seq<byte>>, k: nat, arrivals: seq<Arrival>)
    requires k <= |cut| && Sent(cut, k, arrivals)
    ensures forall i | 0 <= i < |arrivals| && arrivals[i].Piece? :: arrivals[i].i < |cut|
    decreases |arrivals|
  {
    if arrivals != [] {
      SentPieces(cut, if arrivals[0] == Piece(k) then k + 1 else k, arrivals[1..]);
      assert arrivals == [arrivals[0]] + arrivals[1..];
    }
  }

  /** Streaming equals batch. Whatever the cut, the order of arrival, the repeats, the gaps and the
      over-long chunks: the stream is always the pieces taken so far, end to end, and the transfer ends
      exactly when the last piece has been taken. */
  lemma {:induction false} StreamingEqualsBatch(p: Progress, cut: seq<seq<byte>>, first: u16, k: nat,
                                                arrivals: seq<Arrival>)
    requires Numberable(cut) && HasTaken(p, cut, first, k) && Sent(cut, k, arrivals)
    requires forall i | 0 <= i < |arrivals| && arrivals[i].Piece? :: arrivals[i].i < |cut|
    ensures HasTaken(Replay(p, Calls(cut, first, arrivals)), cut, first, Taken(k, arrivals))
    decreases |arrivals|
  {
    if arrivals != [] {
      hide HasTaken, Numberable;
      var c := CallOf(cut, first, arrivals[0]);
      ArrivalTaken(p, cut, first, k, arrivals);
      assert Calls(cut, first, arrivals)[1..] == Calls(cut, first, arrivals[1..]);
      var k' := if arrivals[0] == Piece(k) then k + 1 else k;
      StreamingEqualsBatch(p.After(c.index, c.data), cut, first, k', arrivals[1..]);
    }
  }

  /** 65,536 pieces is the limit: a repeat of piece 0 that comes after them is taken for the next piece. */
  lemma LateRepeatTaken(p: Progress, cut: seq<seq<byte>>, first: u16)
    requires |cut| > 0x1_0000 && HasTaken(p, cut, first, 0x1_0000)
    ensures p.Accepts(Number(first, 0), cut[0]) <==> |p.stream| + |cut[0]| <= p.totalSize
  {
    assert Succ16(Number(first, 0xFFFF)) == Number(first, 0);
  }

  /** Nothing says which number is the first: whatever piece comes first is taken as the beginning. */
  lemma FirstArrivalTaken(p: Progress, cut: seq<seq<byte>>, first: u16, i: nat)
    requires HasTaken(p, cut, first, 0) && i < |cut| && |cut[i]| <= |Concat(cut)|
    ensures p.After(Number(first, i), cut[i]).stream == cut[i]
  {
    assert p.stream + cut[i] == cut[i];
  }

  lemma {:induction false} InactiveStays(p: Progress, calls: seq<Call>)
    requires !p.active
    ensures Replay(p, calls) == p
    decreases calls
  {
    if calls != [] { InactiveStays(p, calls[1..]); }
  }

  /** The cut sent in order, numbered from any index (chunk numbers wrap at 65536). */
  function InOrder(cut: seq<seq<byte>>, first: u16): seq<Call>
    decreases cut
  {
    if cut == [] then [] else [Call(first, cut[0])] + InOrder(cut[1..], Succ16(first))
  }

  predicate Expects(p: Progress, index: u16) {
    p.haveIndex ==> index == Succ16(p.lastIndex)
  }

  /** Sending every chunk once, in order, completes the transfer, wherever the numbering starts. */
  lemma {:induction false} InOrderCompletes(p: Progress, cut: seq<seq<byte>>, blob: seq<byte>, first: u16)
    requires p.active && |p.stream| < p.totalSize == |blob|
    requires p.stream + Concat(cut) == blob && Expects(p, first)
    ensures var q := Replay(p, InOrder(cut, first)); !q.active && q.stream == blob
    decreases cut
  {
    assert cut != [];
    var p1 := p.After(first, cut[0]);
    assert blob == p1.stream + Concat(cut[1..]);
    assert InOrder(cut, first)[1..] == InOrder(cut[1..], Succ16(first));
    if p1.active {
      InOrderCompletes(p1, cut[1..], blob, Succ16(first));
    } else {
      InactiveStays(p1, InOrder(cut[1..], Succ16(first)));
    }
  }

  // ---- The receiver under such a sender ----

  /** What the DM is told about a blob's records. */
  function Outcome(recs: seq<seq<byte>>): u32
    requires forall i | 0 <= i < |recs| :: |recs[i]| >= REC_INFO_LEN
  {
    if CountAccepted(recs) == 0 then EVENT_USERFILE_FAIL
    else if CountAccepted(recs) < |recs| then EVENT_USERFILE_PARTIAL
    else EVENT_USERFILE_SUCCESS
  }

  ghost predicate Installed(r: Receiver, blob: seq<byte>, n: nat)
    requires n >= REC_INFO_LEN && r.db.Valid()
    reads r, r.db
  {
    r.db.Roster() == RosterOf(blob, n) && r.ResultEvent() == Outcome(Slices(blob, n))
  }

  /** Until the last piece is in, lookups are as they were; from then on the blob's roster serves them. */
  ghost predicate Serving(r: Receiver, cut: seq<seq<byte>>, first: u16, k: nat, before: Tables)
    reads r, r.rec, r.db
  {
    && r.Valid() && r.recordLen >= REC_INFO_LEN && k <= |cut| && HasTaken(r.State(), cut, first, k)
    && if k == |cut| then Installed(r, Concat(cut), r.recordLen) else r.db.Roster() == before
  }

  /** One chunk handed to the receiver. */
  method Arrive(r: Receiver, c: Call) returns (status: Status)
    requires r.Valid() && r.recordLen >= REC_INFO_LEN
    modifies r, r.rec, r.db
    ensures r.Valid() && r.recordLen == old(r.recordLen)
    ensures r.State() == old(r.State()).After(c.index, c.data)
    ensures status == old(r.State()).Verdict(c.index, c.data)
    ensures r.active ==> r.db.Roster() == old(r.db.Roster())
    ensures !r.active && old(r.active) ==> Installed(r, r.stream, r.recordLen)
    ensures !old(r.active) ==> unchanged(r) && unchanged(r.db)
  {
    status := r.Continue(c.index, c.data);
    if status == Complete {
      SliceCounts(r.stream, r.recordLen);
    }
  }

  method ArriveOne(r: Receiver, cut: seq<seq<byte>>, first: u16, ghost k: nat, ghost arrivals: seq<Arrival>, a: Arrival,
                   ghost before: Tables)
    returns (status: Status)
    requires Serving(r, cut, first, k, before) && Numberable(cut)
    requires arrivals != [] && arrivals[0] == a && Sent(cut, k, arrivals)
    modifies r, r.rec, r.db
    ensures Serving(r, cut, first, if a == Piece(k) then k + 1 else k, before) && r.recordLen == old(r.recordLen)
    ensures a.Piece? ==>
      && a.i < |cut|
      && status == old(r.State()).Verdict(Number(first, a.i), cut[a.i])
      && r.State() == old(r.State()).After(Number(first, a.i), cut[a.i])
  {
    hide Sent, Slices, RosterOf, CountAccepted, Receiver.Valid;
    ArrivalTaken(r.State(), cut, first, k, arrivals);
    PieceInCut(cut, k, arrivals);
    status := Arrive(r, CallOf(cut, first, a));
    assert cut[..|cut|] == cut;
  }

  lemma PieceInCut(cut: seq<seq<byte>>, k: nat, arrivals: seq<Arrival>)
    requires k <= |cut| && arrivals != [] && Sent(cut, k, arrivals)
    ensures arrivals[0].Piece? ==> arrivals[0].i < |cut|
    ensures var k' := if arrivals[0] == Piece(k) then k + 1 else k;
      k' <= |cut| && Sent(cut, k', arrivals[1..]) && Taken(k, arrivals) == Taken(k', arrivals[1..])
  {
  }

  /** A whole transfer after an accepted Start, over the class itself. */
  method Transfer(r: Receiver, cut: seq<seq<byte>>, first: u16, arrivals: seq<Arrival>)
    requires r.Valid() && Numberable(cut) && Sent(cut, 0, arrivals) && Serving(r, cut, first, 0, r.db.Roster())
    modifies r, r.rec, r.db
    ensures Serving(r, cut, first, Taken(0, arrivals), old(r.db.Roster())) && r.recordLen == old(r.recordLen)
  {
    hide Serving, Sent, Taken, Numberable;
    ghost var k := 0;
    ghost var before := r.db.Roster();
    assert arrivals[0..] == arrivals;
    for j := 0 to |arrivals|
      invariant k <= |cut| && Serving(r, cut, first, k, before) && r.recordLen == old(r.recordLen)
      invariant Sent(cut, k, arrivals[j..]) && Taken(k, arrivals[j..]) == Taken(0, arrivals)
    {
      PieceInCut(cut, k, arrivals[j..]);
      assert arrivals[j..][0] == arrivals[j] && arrivals[j..][1..] == arrivals[j + 1..];
      var status := ArriveOne(r, cut, first, k, arrivals[j..], arrivals[j], before);
      if arrivals[j] == Piece(k) { k := k + 1; }
    }
    NoMore(k, arrivals[|arrivals|..]);
  }

  lemma NoMore(k: nat, arrivals: seq<Arrival>)
    requires arrivals == []
    ensures Taken(k, arrivals) == k
  {
  }
}
