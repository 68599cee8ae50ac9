/** The two directions together: a roster read out chunk by chunk and sent to a receiver comes back as
    the same roster. */
module RosterTransfer {
  import opened Bytes
  import opened OrderedTable
  import opened UserRecord
  import opened Roster
  import opened RosterOrder
  import opened RosterSend
  import opened RosterPaging
  import opened UserBin

  /** A roster as the receiving side builds it: keys match their rows, dates fit their three wire bytes,
      cards belong to users and carry the reversed Proximity form. */
  ghost predicate Exportable(t: Tables) {
    && OneCardPerUser(t) && Pageable(t)
    && (forall id | id in t.users :: t.users[id].userId == id && t.users[id].expiredDate < 0x100_0000)
    && (forall c | c in t.cards :: c != NO_ID && t.cards[c].userId in t.users
                                   && t.cards[c].cardId == c && t.cards[c].proxRaw == Reversed(c) + Zeros(24))
  }

  ghost function Blob(t: Tables): (b: seq<byte>)
    requires OneCardPerUser(t) && Pageable(t)
    ensures |b| == |t.users| * REC_INFO_LEN
  {
    EncodeRows(Rows(t), 0)
  }

  // ---- The chunks make up the blob ----

  ghost function PageBytes(t: Tables, k: nat): seq<byte>
    requires OneCardPerUser(t) && k < 0x1_0000
  {
    EncodeRows(Rows(t)[Clip(k * PAGE, |t.users|)..Clip(k * PAGE + PAGE, |t.users|)], k * PAGE)
  }

  /** Record i of page k describes the user of row 113 k + i and carries that number, twice. */
  lemma RecordNumbers(t: Tables, k: nat, i: nat)
    requires OneCardPerUser(t) && k < 0x1_0000 && i < 113 && 113 * k + i < |t.users|
    ensures |PageBytes(t, k)| >= 128 * i + 128
    ensures var rec := PageBytes(t, k)[128 * i..128 * i + 128];
      rec == Encode(Rows(t)[113 * k + i], 113 * k + i) && rec[..4] == rec[4..8] == Be32(113 * k + i)
  {
    hide Encode, Rows, OneCardPerUser;
    var rows := Rows(t)[Clip(k * PAGE, |t.users|)..Clip(k * PAGE + PAGE, |t.users|)];
    PieceOfConcat(Encodings(rows, k * PAGE), 128, i);
    RecordSlices(Rows(t)[113 * k + i], 113 * k + i);
  }

  lemma {:induction false} PieceOfConcat(parts: seq<seq<byte>>, n: nat, i: nat)
    requires i < |parts| && forall k | 0 <= k < |parts| :: |parts[k]| == n
    ensures |Concat(parts)| >= n * i + n && n * i >= 0 && Concat(parts)[n * i..n * i + n] == parts[i]
  {
    if i > 0 {
      PieceOfConcat(parts[1..], n, i - 1);
      assert n * i == n * (i - 1) + n;
    }
  }

  ghost function PagesUpTo(t: Tables, m: nat): seq<seq<byte>>
    requires OneCardPerUser(t) && m <= 0x1_0000
  {
    seq(m, k requires 0 <= k < m => PageBytes(t, k))
  }

  lemma EncodeRowsAppend(a: seq<Entry>, b: seq<Entry>, first: nat)
    requires first + |a| + |b| <= 0x1_0000_0000
    ensures EncodeRows(a + b, first) == EncodeRows(a, first) + EncodeRows(b, first + |a|)
  {
    assert Encodings(a + b, first) == Encodings(a, first) + Encodings(b, first + |a|);
    ConcatAppend(Encodings(a, first), Encodings(b, first + |a|));
  }

  lemma RowsSplit(rows: seq<Entry>, i: nat, j: nat)
    requires i <= j <= |rows| <= 0x1_0000_0000
    ensures EncodeRows(rows[..j], 0) == EncodeRows(rows[..i], 0) + EncodeRows(rows[i..j], i)
  {
    assert rows[..i] + rows[i..j] == rows[..j];
    EncodeRowsAppend(rows[..i], rows[i..j], 0);
  }

  lemma NoRows(first: nat, other: nat)
    requires first <= 0x1_0000_0000 && other <= 0x1_0000_0000
    ensures EncodeRows([], first) == EncodeRows([], other) == []
  {
  }

  lemma NextPageRows(t: Tables, k: nat)
    requires OneCardPerUser(t) && Pageable(t) && k < 0x1_0000
    ensures EncodeRows(Rows(t)[..Clip(k * PAGE + PAGE, |t.users|)], 0)
         == EncodeRows(Rows(t)[..Clip(k * PAGE, |t.users|)], 0) + PageBytes(t, k)
  {
    var i, j := Clip(k * PAGE, |t.users|), Clip(k * PAGE + PAGE, |t.users|);
    RowsSplit(Rows(t), i, j);
    if i == j {
      assert Rows(t)[i..j] == [];
      NoRows(k * PAGE, i);
    }
  }

  lemma PagesLast(t: Tables, k: nat)
    requires OneCardPerUser(t) && k < 0x1_0000
    ensures Concat(PagesUpTo(t, k + 1)) == Concat(PagesUpTo(t, k)) + PageBytes(t, k)
  {
    assert PagesUpTo(t, k + 1) == PagesUpTo(t, k) + [PageBytes(t, k)];
    ConcatLast(PagesUpTo(t, k), PageBytes(t, k));
  }

  lemma {:induction false} PagesMakeRows(t: Tables, m: nat)
    requires OneCardPerUser(t) && Pageable(t) && m <= 0x1_0000
    ensures Concat(PagesUpTo(t, m)) == EncodeRows(Rows(t)[..Clip(m * PAGE, |t.users|)], 0)
  {
    if m == 0 {
      assert PagesUpTo(t, 0) == [] && Rows(t)[..0] == [];
      NoRows(0, 0);
    } else {
      PagesMakeRows(t, m - 1);
      PagesLast(t, m - 1);
      NextPageRows(t, m - 1);
    }
  }

  /** Read in order until a short page, the chunks are exactly the announced bytes. */
  lemma ChunksMakeBlob(t: Tables, m: nat)
    requires OneCardPerUser(t) && Pageable(t) && m <= 0x1_0000 && m * PAGE >= |t.users|
    ensures Concat(PagesUpTo(t, m)) == Blob(t)
  {
    PagesMakeRows(t, m);
    assert Rows(t)[..|t.users|] == Rows(t);
  }

  // ---- The blob makes up the roster ----

  /** The rows that a receiver writes for one user of a roster. */
  function EntryRows(e: Entry): seq<Row> {
    [UserRow(e.user)] + (if e.card == NO_ID then [] else [CardRow(CardOf(e))])
  }

  function Loaded(rows: seq<Entry>): Tables {
    if rows == [] then EMPTY
    else
      var e := rows[|rows| - 1];
      var t := Loaded(rows[..|rows| - 1]).Put(UserRow(e.user));
      if e.card == NO_ID then t else t.Put(CardRow(CardOf(e)))
  }

  ghost predicate Receivable(e: Entry) {
    e.user.userId != NO_ID && e.user.expiredDate < 0x100_0000
  }

  lemma EncodedRows(e: Entry, index: u32)
    requires Receivable(e)
    ensures RowsOf(Encode(e, index)) == EntryRows(e)
  {
    hide Encode, Decode, CrcOk, Accepted, CardOf;
    EncodeDecode(e, index);
  }

  lemma FoldPuts(rows: seq<Row>, e: Entry)
    ensures Fold(rows + EntryRows(e))
         == (var t := Fold(rows).Put(UserRow(e.user)); if e.card == NO_ID then t else t.Put(CardRow(CardOf(e))))
  {
    var one := rows + [UserRow(e.user)];
    assert one[..|rows|] == rows;
    if e.card == NO_ID {
      assert rows + EntryRows(e) == one;
    } else {
      var two := one + [CardRow(CardOf(e))];
      assert rows + EntryRows(e) == two && two[..|one|] == one;
    }
  }

  lemma {:induction false} LoadsRows(rows: seq<Entry>, first: nat)
    requires first + |rows| <= 0x1_0000_0000
    requires forall i | 0 <= i < |rows| :: Receivable(rows[i])
    ensures Fold(AllRows(Encodings(rows, first))) == Loaded(rows)
  {
    if rows != [] {
      var n := |rows| - 1;
      LoadsRows(rows[..n], first);
      assert Encodings(rows, first)[..n] == Encodings(rows[..n], first);
      EncodedRows(rows[n], first + n);
      FoldPuts(AllRows(Encodings(rows[..n], first)), rows[n]);
    }
  }

  /** The receiver of an encoded run of users ends up with those users and their cards. */
  lemma BlobLoads(rows: seq<Entry>, first: nat)
    requires first + |rows| <= 0x1_0000_0000
    requires forall i | 0 <= i < |rows| :: Receivable(rows[i])
    ensures RosterOf(EncodeRows(rows, first), REC_INFO_LEN) == Loaded(rows)
  {
    SlicesOfConcat(Encodings(rows, first), REC_INFO_LEN);
    LoadsRows(rows, first);
  }

  /** Part of a roster: every row of s is a row of t. */
  ghost predicate Within(s: Tables, t: Tables) {
    && (forall id | id in s.users :: id in t.users && s.users[id] == t.users[id])
    && (forall c | c in s.cards :: c in t.cards && s.cards[c] == t.cards[c])
  }

  ghost predicate IsRowOf(t: Tables, e: Entry)
    requires OneCardPerUser(t)
  {
    && e.user.userId in t.users && t.users[e.user.userId] == e.user
    && e.card == CardOfUser(t, e.user.userId)
  }

  lemma RowIsRow(t: Tables, i: nat)
    requires Exportable(t) && i < |t.users|
    ensures IsRowOf(t, Rows(t)[i]) && Receivable(Rows(t)[i])
  {
    SortedCount(t);
    SortedMembers(Keys(t));
    var k := Sorted(Keys(t))[i];
    assert k in Sorted(Keys(t));
    KeyNamesUser(t, k);
    assert Rows(t)[i] == RowAt(t, k);
  }

  lemma UserHasRow(t: Tables, id: Id) returns (i: nat)
    requires Exportable(t) && id in t.users
    ensures i < |t.users| && Rows(t)[i].user.userId == id
  {
    SortedCount(t);
    SortedMembers(Keys(t));
    UserHasKey(t, id);
    var ks := Sorted(Keys(t));
    i :| 0 <= i < |ks| && ks[i] == Key(id);
    assert Rows(t)[i] == RowAt(t, Key(id));
  }

  lemma RowLoads(t: Tables, s: Tables, e: Entry)
    requires Exportable(t) && Within(s, t) && IsRowOf(t, e)
    ensures var s1 := s.Put(UserRow(e.user));
      var s2 := if e.card == NO_ID then s1 else s1.Put(CardRow(CardOf(e)));
      && Within(s2, t) && e.user.userId in s2.users && (e.card == NO_ID || e.card in s2.cards)
      && s.users.Keys <= s2.users.Keys && s.cards.Keys <= s2.cards.Keys
  {
    if e.card != NO_ID {
      assert e.card in t.cards && t.cards[e.card].userId == e.user.userId;
      assert t.cards[e.card] == CardOf(e);
    }
  }

  ghost predicate Holds(s: Tables, e: Entry) {
    e.user.userId in s.users && (e.card == NO_ID || e.card in s.cards)
  }

  lemma {:induction false} LoadedWithin(t: Tables, rows: seq<Entry>)
    requires Exportable(t)
    requires forall i | 0 <= i < |rows| :: IsRowOf(t, rows[i])
    ensures Within(Loaded(rows), t)
    ensures forall i | 0 <= i < |rows| :: Holds(Loaded(rows), rows[i])
  {
    if rows != [] {
      var n := |rows| - 1;
      var init := rows[..n];
      LoadedWithin(t, init);
      RowLoads(t, Loaded(init), rows[n]);
      forall i | 0 <= i < |rows| ensures Holds(Loaded(rows), rows[i]) {
        if i < n { assert Holds(Loaded(init), init[i]); }
      }
    }
  }

  /** A part of the roster that holds every row is the whole of it. */
  lemma WholeRoster(t: Tables, s: Tables)
    requires Exportable(t) && Within(s, t)
    requires forall i | 0 <= i < |t.users| :: Holds(s, Rows(t)[i])
    ensures s == t
  {
    forall id | id in t.users ensures id in s.users {
      var i := UserHasRow(t, id);
      assert Holds(s, Rows(t)[i]);
    }
    forall c | c in t.cards ensures c in s.cards {
      var i := UserHasRow(t, t.cards[c].userId);
      RowIsRow(t, i);
      assert Holds(s, Rows(t)[i]);
    }
    assert s.users == t.users && s.cards == t.cards;
  }

  lemma BlobRoundTrip(t: Tables)
    requires Exportable(t)
    ensures RosterOf(Blob(t), REC_INFO_LEN) == t
  {
    var rows := Rows(t);
    forall i | 0 <= i < |rows| ensures IsRowOf(t, rows[i]) && Receivable(rows[i]) { RowIsRow(t, i); }
    BlobLoads(rows, 0);
    LoadedWithin(t, rows);
    WholeRoster(t, Loaded(rows));
  }

  /** What one controller hands out, chunk by chunk, another one takes in as exactly the same roster. */
  lemma TransferRoundTrip(t: Tables, m: nat)
    requires Exportable(t) && m <= 0x1_0000 && m * PAGE >= |t.users|
    ensures RosterOf(Concat(PagesUpTo(t, m)), REC_INFO_LEN) == t
    ensures |Concat(PagesUpTo(t, m))| == |t.users| * REC_INFO_LEN < 0x1_0000_0000
  {
    ChunksMakeBlob(t, m);
    BlobRoundTrip(t);
  }

  // ---- Two controllers ----

  /** A chunk of the join is a page of the roster. */
  lemma JoinedPage(t: Tables, joined: seq<Joined>, k: nat)
    requires IsJoin(t, joined) && OneCardPerUser(t) && k < 0x1_0000
    ensures forall i | 0 <= i < |Page(joined, k)| :: Page(joined, k)[i].userId in t.users
    ensures EncodeRows(EntriesOf(t, Page(joined, k)), k * PAGE) == PageBytes(t, k)
  {
    hide EncodeRows, Rows, IsJoin, EntryOf, OneCardPerUser;
    JoinIsRoster(t, joined);
    SliceEntries(t, joined, Rows(t), Clip(k * PAGE, |joined|), Clip(k * PAGE + PAGE, |joined|));
  }

  lemma SliceEntries(t: Tables, joined: seq<Joined>, rows: seq<Entry>, i: nat, j: nat)
    requires i <= j <= |joined| == |rows|
    requires forall x | 0 <= x < |joined| :: joined[x].userId in t.users && EntryOf(t, joined[x]) == rows[x]
    ensures forall x | 0 <= x < j - i :: joined[i..j][x].userId in t.users
    ensures EntriesOf(t, joined[i..j]) == rows[i..j]
  {
    hide EntryOf;
    assert forall x | 0 <= x < j - i :: joined[i..j][x] == joined[i + x];
  }

  /** A read that has begun, with its first chunk numbered `base`, or is about to begin. */
  ghost predicate Reading(from: Sender, joined: seq<Joined>, base: u16, begun: bool)
    reads from
  {
    var c := from.State();
    && c.active && CursorFits(joined, c)
    && if begun then c.haveBase && c.baseIndex == base else !c.haveBase && !c.haveLast
  }

  lemma ChunkRead(t: Tables, joined: seq<Joined>, c: Cursor, base: u16, begun: bool, index: u16)
    requires IsJoin(t, joined) && OneCardPerUser(t) && Pageable(t) && (begun || index == base)
    requires CursorFits(joined, c) && if begun then c.haveBase && c.baseIndex == base else !c.haveBase && !c.haveLast
    ensures var c1 := Based(c, index); var r := Reply(joined, c1, index);
      && Relative(c1, index) == Sub16(index, base) && c1.baseIndex == base && r == Page(joined, Sub16(index, base))
      && CursorFits(joined, Moved(c1, index, r))
  {
    JoinIsRoster(t, joined);
    ZeroIds(t, joined);
    hide IsJoin, OneCardPerUser, Rows, EntryOf, Sorted, Key;
    BasedFits(joined, c, index);
    ReplyIsPage(joined, Based(c, index), index);
    CursorMoves(joined, Based(c, index), index);
  }

  method ReadChunk(from: Sender, joined: seq<Joined>, base: u16, ghost begun: bool, index: u16, out: array<byte>)
    returns (chunk: seq<byte>)
    requires from.db.Valid() && IsJoin(from.db.Roster(), joined) && out.Length == SEND_CHUNK
    requires OneCardPerUser(from.db.Roster()) && Pageable(from.db.Roster())
    requires Reading(from, joined, base, begun) && (begun || index == base)
    modifies from, out
    ensures Reading(from, joined, base, true) && chunk == PageBytes(from.db.Roster(), Sub16(index, base))
  {
    hide Reply, CursorFits, EncodeRows, IsJoin, OneCardPerUser, Pageable, PageBytes;
    ChunkRead(from.db.Roster(), joined, from.State(), base, begun, index);
    JoinedPage(from.db.Roster(), joined, Sub16(index, base));
    var n := from.ReceiveChunk(index, out, joined);
    chunk := out[..n];
  }

  /** Any sequence of requests, in order, repeated or jumping: each is answered with the encoded records of
      the page it asks for. */
  method ReadAny(from: Sender, joined: seq<Joined>, indices: seq<u16>) returns (chunks: seq<seq<byte>>)
    requires from.db.Valid() && IsJoin(from.db.Roster(), joined) && indices != []
    requires OneCardPerUser(from.db.Roster()) && Pageable(from.db.Roster()) && Reading(from, joined, indices[0], false)
    modifies from
    ensures |chunks| == |indices|
    ensures forall i | 0 <= i < |indices| :: chunks[i] == PageBytes(from.db.Roster(), Sub16(indices[i], indices[0]))
  {
    hide Reading, IsJoin, OneCardPerUser, Pageable, PageBytes;
    var out := new byte[SEND_CHUNK](_ => 0);
    chunks := [];
    for i := 0 to |indices|
      invariant Reading(from, joined, indices[0], i > 0) && fresh(out) && |chunks| == i
      invariant forall k | 0 <= k < i :: chunks[k] == PageBytes(from.db.Roster(), Sub16(indices[k], indices[0]))
    {
      var chunk := ReadChunk(from, joined, indices[0], i > 0, indices[i], out);
      chunks := chunks + [chunk];
    }
  }

  /** The numbers of m chunks asked for in order. */
  function NumbersFrom(first: u16, m: nat): (r: seq<u16>)
    ensures |r| == m && forall k | 0 <= k < m :: r[k] == Number(first, k)
  {
    seq(m, k requires 0 <= k < m => Number(first, k))
  }

  lemma ChunkNumber(first: u16, k: nat)
    requires k < 0x1_0000
    ensures Sub16(Number(first, k), Number(first, 0)) == k && Number(first, 0) == first
  {
  }

  /** The first m chunks asked for in order, from any first number. */
  method ReadOut(from: Sender, joined: seq<Joined>, first: u16, m: nat) returns (chunks: seq<seq<byte>>)
    requires from.db.Valid() && IsJoin(from.db.Roster(), joined) && 0 < m <= 0x1_0000
    requires OneCardPerUser(from.db.Roster()) && Pageable(from.db.Roster()) && Reading(from, joined, first, false)
    modifies from
    ensures chunks == PagesUpTo(from.db.Roster(), m)
  {
    hide Reading, IsJoin, OneCardPerUser, Pageable, PageBytes, Number, Sub16;
    ChunkNumber(first, 0);
    chunks := ReadAny(from, joined, NumbersFrom(first, m));
    forall k | 0 <= k < m ensures chunks[k] == PageBytes(from.db.Roster(), k) { ChunkNumber(first, k); }
  }

  function InTurn(k: nat, n: nat): (r: seq<Arrival>)
    ensures |r| == n && forall i | 0 <= i < n :: r[i] == Piece(k + i)
  {
    seq(n, i requires 0 <= i < n => Piece(k + i))
  }

  /** Sending the pieces one after the other takes them all. */
  lemma {:induction false} InTurnTaken(cut: seq<seq<byte>>, k: nat)
    requires k <= |cut|
    ensures Sent(cut, k, InTurn(k, |cut| - k)) && Taken(k, InTurn(k, |cut| - k)) == |cut|
    decreases |cut| - k
  {
    if k < |cut| {
      InTurnTaken(cut, k + 1);
      assert InTurn(k, |cut| - k)[1..] == InTurn(k + 1, |cut| - k - 1);
    }
  }

  lemma ChunksNumberable(t: Tables, m: nat)
    requires OneCardPerUser(t) && 0 < m <= 0x1_0000 && (m - 1) * PAGE < |t.users| <= m * PAGE
    ensures Numberable(PagesUpTo(t, m))
  {
    assert PagesUpTo(t, m)[m - 1] == PageBytes(t, m - 1);
  }

  function ChunkCount(users: nat): (m: nat)
    requires 0 < users <= 0xFFFF * PAGE
    ensures 0 < m <= 0xFFFF && (m - 1) * PAGE < users <= m * PAGE
  {
    (users + PAGE - 1) / PAGE
  }

  lemma Announced(t: Tables)
    requires Exportable(t) && t.users != map[]
    ensures OneCardPerUser(t) && Pageable(t) && 0 < |t.users| <= 0xFFFF * PAGE
    ensures var size := |t.users| * REC_INFO_LEN; 0 < size < 0x1_0000_0000 && size % REC_INFO_LEN == 0
  {
  }

  /** A DM that reads one controller's roster and sends what it read to another one: the other one ends up
      serving exactly that roster. */
  method CopyRoster(from: Sender, to: Receiver, joined: seq<Joined>, first: u16)
    requires from.db.Valid() && IsJoin(from.db.Roster(), joined) && to.Valid() && from.db != to.db
    requires Exportable(from.db.Roster()) && from.db.Roster().users != map[]
    modifies from, to, to.rec, to.db
    ensures to.Valid() && !to.active
    ensures to.db.Roster() == from.db.Roster() == old(from.db.Roster())
  {
    hide Exportable, IsJoin, OneCardPerUser, Pageable, RosterOf, Receiver.Valid, Numberable;
    ghost var t := from.db.Roster();
    Announced(t);
    var users := |from.db.working.users.value|;
    var chunks, size, count := ReadAll(from, joined, first, users);
    SendIn(to, chunks, size, count, first);
  }

  method ReadAll(from: Sender, joined: seq<Joined>, first: u16, users: nat)
    returns (chunks: seq<seq<byte>>, size: u32, count: u32)
    requires from.db.Valid() && IsJoin(from.db.Roster(), joined)
    requires Exportable(from.db.Roster()) && users == |from.db.Roster().users| > 0
    modifies from
    ensures Numberable(chunks) && size == |Concat(chunks)| > 0 && size % REC_INFO_LEN == 0
    ensures RosterOf(Concat(chunks), REC_INFO_LEN) == from.db.Roster()
  {
    hide Exportable, IsJoin, OneCardPerUser, Pageable, RosterOf, Numberable, PagesUpTo;
    ghost var t := from.db.Roster();
    Announced(t);
    WholeRead(t, ChunkCount(users));
    var ok;
    ok, size, count := from.ReceiveStart(OBJ_INFO);
    var m := ChunkCount(users);
    chunks := ReadOut(from, joined, first, m);
  }

  lemma WholeRead(t: Tables, m: nat)
    requires Exportable(t) && 0 < m <= 0x1_0000 && (m - 1) * PAGE < |t.users| <= m * PAGE
    ensures OneCardPerUser(t) && Numberable(PagesUpTo(t, m))
    ensures |Concat(PagesUpTo(t, m))| == |t.users| * REC_INFO_LEN
    ensures RosterOf(Concat(PagesUpTo(t, m)), REC_INFO_LEN) == t
  {
    TransferRoundTrip(t, m);
    ChunksNumberable(t, m);
  }

  method SendIn(to: Receiver, chunks: seq<seq<byte>>, size: u32, count: u32, first: u16)
    requires to.Valid() && Numberable(chunks)
    requires size == |Concat(chunks)| && size > 0 && size % REC_INFO_LEN == 0
    modifies to, to.rec, to.db
    ensures to.Valid() && !to.active
    ensures to.db.Roster() == RosterOf(Concat(chunks), REC_INFO_LEN)
  {
    var started := to.Start(size, count, OBJ_INFO);
    assert chunks[..0] == [];
    InTurnTaken(chunks, 0);
    Transfer(to, chunks, first, InTurn(0, |chunks|));
  }
}
