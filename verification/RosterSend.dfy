/** Handing the roster out (acud/userbin.c, acud/users.c): the DM asks for numbered chunks of 113
    records. Requests in order are served from a cursor, a request for the first chunk from the start,
    any other one by OFFSET. The queries join users with their cards. */
module RosterSend {
  import opened Bytes
  import opened OrderedTable
  import opened UserRecord
  import opened Roster
  import opened RosterOrder
  import UserBin

  const PAGE: nat := 113            // records per chunk
  const SEND_CHUNK: nat := 14464    // bytes per chunk

  // ---- The two queries ----

  function Cut(rows: seq<Joined>, offset: nat, limit: nat): (r: seq<Joined>)
    ensures |r| <= limit
    ensures forall x | x in r :: x in rows
  {
    rows[Clip(offset, |rows|)..Clip(offset + limit, |rows|)]
  }

  /** How many leading rows have a user_id not above the key. */
  function Position(rows: seq<Joined>, key: nat): (n: nat)
    ensures n <= |rows|
    ensures forall i | 0 <= i < n :: Key(rows[i].userId) <= key
    ensures n < |rows| ==> Key(rows[n].userId) > key
  {
    if rows == [] || Key(rows[0].userId) > key then 0 else 1 + Position(rows[1..], key)
  }

  /** ... WHERE user_id > ? ORDER BY user_id LIMIT ? */
  function RowsAfter(rows: seq<Joined>, after: Id, limit: nat): seq<Joined> {
    Cut(rows, Position(rows, Key(after)), limit)
  }

  /** Chunk k of the joined rows. */
  function Page(rows: seq<Joined>, k: nat): seq<Joined> {
    Cut(rows, k * PAGE, PAGE)
  }

  // ---- The cursor ----

  datatype Cursor = Cursor(active: bool, haveBase: bool, baseIndex: u16, nextIndex: u16,
                           haveLast: bool, lastId: Id)

  const STARTED := Cursor(true, false, 0, 0, false, NO_ID)

  function Based(c: Cursor, index: u16): Cursor {
    if c.haveBase then c else c.(haveBase := true, baseIndex := index, nextIndex := index)
  }

  /** The chunk number counted from the first one asked for. */
  function Relative(c: Cursor, index: u16): (k: nat)
    ensures k < 0x1_0000
  {
    Sub16(index, c.baseIndex)
  }

  /** Which rows a request is answered with; `c` has its base. */
  function Reply(rows: seq<Joined>, c: Cursor, index: u16): (r: seq<Joined>)
    ensures |r| <= PAGE && forall x | x in r :: x in rows
  {
    if index == c.nextIndex && c.haveLast then RowsAfter(rows, c.lastId, PAGE)
    else if index == c.baseIndex then RowsAfter(rows, NO_ID, PAGE)
    else Cut(rows, Relative(c, index) * PAGE, PAGE)
  }

  function Moved(c: Cursor, index: u16, r: seq<Joined>): Cursor {
    if r == [] then c
    else c.(lastId := r[|r| - 1].userId, haveLast := true, nextIndex := Succ16(index))
  }

  /** The page number of the last reply. */
  function LastPage(c: Cursor): (k: nat)
    ensures k < 0x1_0000
  {
    Sub16(Pred16(c.nextIndex), c.baseIndex)
  }

  /** `lastId` is in the last row of page k, which is not empty. */
  ghost predicate EndsPage(rows: seq<Joined>, lastId: Id, k: nat) {
    k * PAGE < |rows| && lastId == rows[Clip(k * PAGE + PAGE, |rows|) - 1].userId
  }

  /** A cursor that has served something remembers the last user of the page it served last. */
  ghost predicate CursorFits(rows: seq<Joined>, c: Cursor) {
    c.haveLast ==> c.haveBase && EndsPage(rows, c.lastId, LastPage(c))
  }

  /** One row for each user. */
  ghost predicate OneRowEach(rows: seq<Joined>) {
    Ascending(KeysOf(rows))
  }

  /** Nobody has the all-zero id, and chunk numbers do not run out. */
  predicate Pageable(t: Tables) {
    NO_ID !in t.users && |t.users| <= 0xFFFF * 113
  }

  ghost predicate PageableRows(rows: seq<Joined>) {
    (forall i | 0 <= i < |rows| :: Key(rows[i].userId) > 0) && |rows| <= 0xFFFF * PAGE
  }

  lemma {:induction false} ZeroKey(s: seq<byte>)
    requires AllZero(s)
    ensures Key(s) == 0
  {
    if s != [] { ZeroKey(s[..|s| - 1]); }
  }

  lemma NoIdKey(id: Id)
    ensures Key(id) == 0 <==> id == NO_ID
  {
    ZeroKey(NO_ID);
    KeyOrder(id, NO_ID);
  }

  lemma PageNumbers(c: Cursor, index: u16)
    ensures index == c.nextIndex && LastPage(c) < 0xFFFF ==> Relative(c, index) == LastPage(c) + 1
    ensures index == c.baseIndex ==> Relative(c, index) == 0
  {
  }

  lemma MovedPage(c: Cursor, index: u16, r: seq<Joined>)
    ensures r != [] ==> LastPage(Moved(c, index, r)) == Relative(c, index)
  {
  }

  /** With one row each, the rows above the n-th user start right after it. */
  lemma PositionAfter(rows: seq<Joined>, n: nat)
    requires OneRowEach(rows) && 0 < n <= |rows|
    ensures Position(rows, Key(rows[n - 1].userId)) == n
  {
    var ks, p := KeysOf(rows), Position(rows, Key(rows[n - 1].userId));
    hide Key, Position;
    assert p > 0 ==> ks[p - 1] <= ks[n - 1];
    assert p < |rows| ==> ks[p] > ks[n - 1];
    hide KeysOf;
    Between(ks, n, p);
  }

  lemma Between(ks: seq<int>, n: nat, p: nat)
    requires Ascending(ks) && 0 < n <= |ks| && p <= |ks|
    requires (p > 0 ==> ks[p - 1] <= ks[n - 1]) && (p < |ks| ==> ks[p] > ks[n - 1])
    ensures p == n
  {
  }

  /** In order: the rows after the last user served are the next page. */
  lemma NextPage(rows: seq<Joined>, lastId: Id, k: nat)
    requires OneRowEach(rows) && EndsPage(rows, lastId, k)
    ensures RowsAfter(rows, lastId, PAGE) == Page(rows, k + 1)
  {
    hide Position, Key, OneRowEach;
    PositionAfter(rows, Clip(k * PAGE + PAGE, |rows|));
  }

  /** From the start: without an all-zero id every row comes after the all-zero key. */
  lemma FirstPage(rows: seq<Joined>)
    requires forall i | 0 <= i < |rows| :: Key(rows[i].userId) > 0
    ensures RowsAfter(rows, NO_ID, PAGE) == Page(rows, 0)
  {
    ZeroKey(NO_ID);
  }

  lemma PageEnd(rows: seq<Joined>, k: nat)
    ensures var r := Page(rows, k);
      (r != [] <==> k * PAGE < |rows|) && (r != [] ==> EndsPage(rows, r[|r| - 1].userId, k))
  {
  }

  /** One request: whichever query is used, the rows are those of the page asked for ... */
  lemma ReplyIsPage(rows: seq<Joined>, c: Cursor, index: u16)
    requires OneRowEach(rows) && PageableRows(rows) && CursorFits(rows, c) && c.haveBase
    ensures Reply(rows, c, index) == Page(rows, Relative(c, index))
  {
    PageNumbers(c, index);
    if index == c.nextIndex && c.haveLast {
      NextPage(rows, c.lastId, LastPage(c));
    } else if index == c.baseIndex {
      FirstPage(rows);
    }
  }

  /** ... and the cursor fits again. */
  lemma CursorMoves(rows: seq<Joined>, c: Cursor, index: u16)
    requires CursorFits(rows, c) && c.haveBase
    ensures CursorFits(rows, Moved(c, index, Page(rows, Relative(c, index))))
  {
    MovedPage(c, index, Page(rows, Relative(c, index)));
    PageEnd(rows, Relative(c, index));
  }

  // ---- Any sequence of requests ----

  /** The rows sent in reply to each request of a read. */
  function Replies(rows: seq<Joined>, c: Cursor, indices: seq<u16>): (r: seq<seq<Joined>>)
    ensures |r| == |indices|
    decreases |indices|
  {
    if indices == [] then []
    else
      var c1 := Based(c, indices[0]);
      var reply := Reply(rows, c1, indices[0]);
      [reply] + Replies(rows, Moved(c1, indices[0], reply), indices[1..])
  }

  lemma {:induction false} RepliesArePages(rows: seq<Joined>, c: Cursor, base: u16, indices: seq<u16>)
    requires OneRowEach(rows) && PageableRows(rows) && CursorFits(rows, c)
    requires if c.haveBase then base == c.baseIndex else !c.haveLast && (indices != [] ==> base == indices[0])
    ensures forall i | 0 <= i < |indices| :: Replies(rows, c, indices)[i] == Page(rows, Sub16(indices[i], base))
    decreases |indices|
  {
    if indices != [] {
      hide OneRowEach, PageableRows, CursorFits, Page, Reply;
      var c1 := Based(c, indices[0]);
      BasedFits(rows, c, indices[0]);
      ReplyIsPage(rows, c1, indices[0]);
      CursorMoves(rows, c1, indices[0]);
      var reply := Reply(rows, c1, indices[0]);
      RepliesArePages(rows, Moved(c1, indices[0], reply), base, indices[1..]);
    }
  }

  lemma BasedFits(rows: seq<Joined>, c: Cursor, index: u16)
    requires CursorFits(rows, c)
    ensures CursorFits(rows, Based(c, index))
  {
  }

  // ---- The bytes of a chunk ----

  function EntriesOf(t: Tables, rows: seq<Joined>): (r: seq<Entry>)
    requires forall i | 0 <= i < |rows| :: rows[i].userId in t.users
    ensures |r| == |rows|
  {
    seq(|rows|, i requires 0 <= i < |rows| => EntryOf(t, rows[i]))
  }

  function Encodings(rows: seq<Entry>, first: nat): (r: seq<seq<byte>>)
    requires first + |rows| <= 0x1_0000_0000
    ensures |r| == |rows|
    ensures forall i | 0 <= i < |r| :: |r[i]| == REC_INFO_LEN && r[i] == Encode(rows[i], first + i)
  {
    seq(|rows|, i requires 0 <= i < |rows| => Encode(rows[i], first + i))
  }

  /** The records of some rows, numbered from `first`, one after the other. */
  function EncodeRows(rows: seq<Entry>, first: nat): (b: seq<byte>)
    requires first + |rows| <= 0x1_0000_0000
    ensures |b| == |rows| * REC_INFO_LEN
  {
    UserBin.SlicesOfConcat(Encodings(rows, first), REC_INFO_LEN);
    Concat(Encodings(rows, first))
  }

  lemma EncodeNext(rows: seq<Entry>, first: nat, i: nat)
    requires first + |rows| <= 0x1_0000_0000 && i < |rows|
    ensures EncodeRows(rows[..i + 1], first) == EncodeRows(rows[..i], first) + Encode(rows[i], first + i)
  {
    assert Encodings(rows[..i + 1], first) == Encodings(rows[..i], first) + [Encode(rows[i], first + i)];
    ConcatLast(Encodings(rows[..i], first), Encode(rows[i], first + i));
  }

  class Sender {
    const db: UsersDb
    var active: bool
    var haveBase: bool
    var baseIndex: u16    // the number the DM gave its first chunk
    var nextIndex: u16
    var haveLast: bool
    var lastId: Id

    ghost function State(): Cursor
      reads this
    {
      Cursor(active, haveBase, baseIndex, nextIndex, haveLast, lastId)
    }

    constructor (users: UsersDb)
      ensures db == users && State() == STARTED.(active := false)
    {
      db := users;
      active, haveBase, baseIndex, nextIndex, haveLast, lastId := false, false, 0, 0, false, NO_ID;
    }

    /** Announces COUNT(*) of the users. */
    method ReceiveStart(binaryObj: byte) returns (ok: bool, size: u32, count: u32)
      requires db.Valid()
      modifies this
      ensures ok <==> binaryObj == 0x01
      ensures ok ==> State() == STARTED.(baseIndex := old(baseIndex))
      ensures ok ==> count == |db.Roster().users| % 0x1_0000_0000
      ensures ok ==> size == |db.Roster().users| * 128 % 0x1_0000_0000
      ensures !ok ==> unchanged(this)
    {
      if binaryObj != UserBin.OBJ_INFO { return false, 0, 0; }
      var n := |db.working.users.value|;
      active, haveBase, nextIndex, haveLast, lastId := true, false, 0, false, NO_ID;
      ok, size, count := true, n * REC_INFO_LEN % 0x1_0000_0000, n % 0x1_0000_0000;
    }

    /** Where the rows of the cursor query begin. */
    method Seek(joined: seq<Joined>, key: nat) returns (i: nat)
      ensures i == Position(joined, key)
    {
      i := 0;
      while i < |joined| && Key(joined[i].userId) <= key
        invariant i <= |joined| && Position(joined, key) == i + Position(joined[i..], key)
      {
        assert joined[i..][1..] == joined[i + 1..];
        i := i + 1;
      }
    }

    /** The cursor query, stepped row by row up to the limit. */
    method ReadAfter(joined: seq<Joined>, after: Id, limit: nat) returns (r: seq<Joined>)
      ensures r == RowsAfter(joined, after, limit)
    {
      hide Position, Key;
      var from := Seek(joined, Key(after));
      r := [];
      while |r| < limit && from + |r| < |joined|
        invariant |r| <= limit && from + |r| <= |joined| && r == joined[from..from + |r|]
      {
        r := r + [joined[from + |r|]];
      }
    }

    /** The query that serves a request; see `Reply`. */
    method Query(joined: seq<Joined>, index: u16) returns (r: seq<Joined>)
      ensures r == Reply(joined, State(), index)
    {
      if index == nextIndex && haveLast {
        r := ReadAfter(joined, lastId, PAGE);
      } else if index == baseIndex {
        r := ReadAfter(joined, NO_ID, PAGE);
      } else {
        r := Cut(joined, Sub16(index, baseIndex) * PAGE, PAGE);
      }
    }

    /** Fills `out` with the records of one chunk and returns how many bytes that is. `joined` is what the
        queries range over. */
    method ReceiveChunk(index: u16, out: array<byte>, joined: seq<Joined>) returns (n: int)
      requires db.Valid() && IsJoin(db.Roster(), joined)
      modifies this, out
      ensures n < 0 <==> out.Length < 14464 || !old(active)
      ensures n < 0 ==> State() == old(State()) && out[..] == old(out[..])
      ensures n >= 0 ==>
        var c := Based(old(State()), index);
        var r := Reply(joined, c, index);
        && n == |r| * 128 <= 14464
        && (forall i | 0 <= i < |r| :: r[i].userId in db.Roster().users)
        && State() == Moved(c, index, r)
        && out[..n] == EncodeRows(EntriesOf(db.Roster(), r), Relative(c, index) * PAGE)
    {
      if out.Length < SEND_CHUNK || !active { return -1; }
      TakeBase(index);
      var r := Query(joined, index);
      ReplyMembers(db.Roster(), joined, r);
      FillChunk(EntriesOf(db.working.Live(), r), Sub16(index, baseIndex) * PAGE, out);
      Remember(index, r);
      n := |r| * REC_INFO_LEN;
    }

    /** The first request decides where the numbering starts. */
    method TakeBase(index: u16)
      modifies this
      ensures State() == Based(old(State()), index)
    {
      if !haveBase {
        haveBase, baseIndex, nextIndex := true, index, index;
      }
    }

    method Remember(index: u16, r: seq<Joined>)
      modifies this
      ensures State() == Moved(old(State()), index, r)
    {
      if r != [] {
        lastId, haveLast, nextIndex := r[|r| - 1].userId, true, Succ16(index);
      }
    }

    method FillChunk(rows: seq<Entry>, first: nat, out: array<byte>)
      requires |rows| <= PAGE && first <= 0xFFFF * PAGE && out.Length >= SEND_CHUNK
      modifies out
      ensures out[..|rows| * REC_INFO_LEN] == EncodeRows(rows, first)
    {
      hide EncodeRows, Encode;
      var rec := new byte[REC_INFO_LEN];
      NoneYet(rows, first);
      for i := 0 to |rows|
        invariant fresh(rec)
        invariant out[..i * REC_INFO_LEN] == EncodeRows(rows[..i], first)
      {
        PutRecord(rows[i], first + i, rec, out, i * REC_INFO_LEN);
        EncodeNext(rows, first, i);
      }
      assert rows[..|rows|] == rows;
    }

    method PutRecord(e: Entry, index: u32, rec: array<byte>, out: array<byte>, off: nat)
      requires rec.Length == REC_INFO_LEN && off + REC_INFO_LEN <= out.Length && rec != out
      modifies rec, out
      ensures out[..off + REC_INFO_LEN] == old(out[..off]) + Encode(e, index)
    {
      BuildRecord(e, index, rec);
      Append(out, off, rec[..]);
    }
  }

  lemma NoneYet(rows: seq<Entry>, first: nat)
    requires first <= 0x1_0000_0000
    ensures EncodeRows(rows[..0], first) == []
  {
  }

  lemma ReplyMembers(t: Tables, joined: seq<Joined>, r: seq<Joined>)
    requires IsJoin(t, joined) && forall x | x in r :: x in joined
    ensures forall i | 0 <= i < |r| :: r[i].userId in t.users
  {
    forall i | 0 <= i < |r| ensures r[i].userId in t.users { assert r[i] in r; }
  }
}
