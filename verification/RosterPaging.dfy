/** When paging is exact. The reply to a request is compared, for every sequence of requests, with the users
    that its chunk number stands for. */
module RosterPaging {
  import opened Bytes
  import opened OrderedTable
  import opened UserRecord
  import opened Roster
  import opened RosterOrder
  import opened RosterSend

  /** Keys [113k, 113k + 113) of a list. */
  function KeyPage(ks: seq<int>, k: nat): seq<int> {
    ks[Clip(k * 113, |ks|)..Clip(k * 113 + 113, |ks|)]
  }

  /** Users [113k, 113k + 113) in user_id order, by key. */
  function UserPage(t: Tables, k: nat): seq<int> {
    KeyPage(Sorted(Keys(t)), k)
  }

  ghost predicate ExactFor(rows: seq<Joined>, ks: seq<int>) {
    forall indices: seq<u16>, i | 0 <= i < |indices| ::
      KeysOf(Replies(rows, STARTED, indices)[i]) == KeyPage(ks, Sub16(indices[i], indices[0]))
  }

  /** Every reply holds exactly the users of the page that was asked for. */
  ghost predicate Exact(t: Tables, rows: seq<Joined>) {
    ExactFor(rows, Sorted(Keys(t)))
  }

  lemma PageKeys(rows: seq<Joined>, k: nat)
    ensures KeysOf(Page(rows, k)) == KeyPage(KeysOf(rows), k)
  {
  }

  // ---- Single replies ----

  lemma FirstReply(rows: seq<Joined>, index: u16)
    ensures Replies(rows, STARTED, [index])[0] == RowsAfter(rows, NO_ID, PAGE)
  {
    hide RowsAfter;
  }

  lemma TwoReplies(rows: seq<Joined>, c: Cursor, i: u16, j: u16)
    ensures Replies(rows, c, [i, j])[1] == Reply(rows, Based(AfterReply(rows, Based(c, i), i), j), j)
  {
    hide Reply, Moved;
    assert [i, j][1..] == [j];
  }

  lemma ThreeReplies(rows: seq<Joined>, i: u16, j: u16, k: u16)
    ensures var c1 := AfterReply(rows, Based(STARTED, i), i);
      Replies(rows, STARTED, [i, j, k])[2] == Reply(rows, Based(AfterReply(rows, Based(c1, j), j), k), k)
  {
    hide Reply, Moved;
    var c1 := AfterReply(rows, Based(STARTED, i), i);
    assert [i, j, k][1..] == [j, k];
    TwoReplies(rows, c1, j, k);
    assert Replies(rows, STARTED, [i, j, k])[2] == Replies(rows, c1, [j, k])[1];
  }

  function AfterReply(rows: seq<Joined>, c: Cursor, index: u16): Cursor {
    Moved(c, index, Reply(rows, c, index))
  }

  ghost predicate NoZeroId(rows: seq<Joined>) {
    forall i | 0 <= i < |rows| :: Key(rows[i].userId) > 0
  }

  /** The cursor after the first chunk. */
  function Begun(rows: seq<Joined>, base: u16): Cursor
    requires rows != []
  {
    Cursor(true, true, base, Succ16(base), true, rows[Clip(PAGE, |rows|) - 1].userId)
  }

  lemma AfterFirst(rows: seq<Joined>, base: u16)
    requires rows != [] && NoZeroId(rows)
    ensures Reply(rows, Based(STARTED, base), base) == Page(rows, 0)
    ensures AfterReply(rows, Based(STARTED, base), base) == Begun(rows, base)
  {
    FirstPage(rows);
    PageEnd(rows, 0);
    hide RowsAfter, Page;
  }

  /** A jump past the second chunk is served by OFFSET. */
  lemma JumpReply(rows: seq<Joined>, k: u16)
    requires rows != [] && NoZeroId(rows) && k >= 2
    ensures Replies(rows, STARTED, [0, k])[1] == Page(rows, k)
  {
    AfterFirst(rows, 0);
    TwoReplies(rows, STARTED, 0, k);
    hide Replies, Page, RowsAfter;
  }

  /** So is the second chunk when it is asked for twice and the cursor has moved past it. */
  lemma RepeatReply(rows: seq<Joined>)
    requires rows != [] && NoZeroId(rows) && RowsAfter(rows, Begun(rows, 0).lastId, PAGE) != []
    ensures Replies(rows, STARTED, [0, 1, 1])[2] == Page(rows, 1)
  {
    AfterFirst(rows, 0);
    ThreeReplies(rows, 0, 1, 1);
    hide Replies, Page, RowsAfter;
  }

  /** Chunk 65535 is served by OFFSET, and the first chunk number is the next one then. */
  lemma LastChunk(rows: seq<Joined>)
    requires |rows| > 0xFFFF * PAGE
    ensures var c := AfterReply(rows, Begun(rows, 0), 0xFFFF);
      && c.haveBase && c.haveLast && c.nextIndex == 0
      && c.lastId == rows[Clip(0xFFFF * PAGE + PAGE, |rows|) - 1].userId
  {
    PageEnd(rows, 0xFFFF);
    assert Reply(rows, Begun(rows, 0), 0xFFFF) == Page(rows, 0xFFFF);
    hide Page, Reply;
  }

  /** Asking for the first chunk again after chunk 65535 reads on. */
  lemma WrapReply(rows: seq<Joined>)
    requires NoZeroId(rows) && |rows| > 0xFFFF * PAGE
    ensures var last := rows[Clip(0xFFFF * PAGE + PAGE, |rows|) - 1].userId;
      Replies(rows, STARTED, [0, 0xFFFF, 0])[2] == RowsAfter(rows, last, PAGE)
  {
    hide Replies, RowsAfter, Page, AfterReply, NoZeroId;
    AfterFirst(rows, 0);
    ThreeReplies(rows, 0, 0xFFFF, 0);
    LastChunk(rows);
  }

  /** The cursor goes past every row of the last user: a further card of that user that would start the next
      chunk is skipped. */
  lemma CursorSkipsUser(rows: seq<Joined>, after: Id)
    requires NonDescending(KeysOf(rows))
    ensures var r := RowsAfter(rows, after, PAGE);
      forall i | 0 <= i < |r| :: Key(r[i].userId) > Key(after)
  {
    hide Key;
    var n := Position(rows, Key(after));
    forall i | n <= i < |rows| ensures Key(rows[i].userId) > Key(after) {
      assert KeysOf(rows)[n] <= KeysOf(rows)[i];
    }
  }

  // ---- Where it goes wrong ----

  lemma Refutes(rows: seq<Joined>, s: seq<int>, indices: seq<u16>, i: nat)
    requires i < |indices| && KeysOf(Replies(rows, STARTED, indices)[i]) != KeyPage(s, Sub16(indices[i], indices[0]))
    ensures !ExactFor(rows, s)
  {
  }

  lemma LeastFirst(ks: seq<int>, s: seq<int>)
    requires NonDescending(ks) && Ascending(s) && ks != [] && Members(ks) == Members(s)
    ensures s != [] && s[0] == ks[0]
  {
    assert ks[0] in Members(s);
    assert s[0] in Members(ks);
  }

  /** The first page is read strictly after the all-zero key, so an all-zero user is left out. */
  lemma ZeroIdMissed(rows: seq<Joined>, s: seq<int>, i: nat)
    requires NonDescending(KeysOf(rows)) && Ascending(s) && Members(KeysOf(rows)) == Members(s)
    requires i < |rows| && Key(rows[i].userId) == 0
    ensures !ExactFor(rows, s)
  {
    FirstReply(rows, 0);
    NoIdKey(NO_ID);
    CursorSkipsUser(rows, NO_ID);
    LeastFirst(KeysOf(rows), s);
    hide Replies, RowsAfter, Key;
    assert KeysOf(rows)[0] <= KeysOf(rows)[i];
    var r := RowsAfter(rows, NO_ID, PAGE);
    assert r != [] ==> KeysOf(r)[0] > 0;
    assert KeyPage(s, 0)[0] == 0;
    Refutes(rows, s, [0], 0);
  }

  /** Beyond 65,535 full pages of rows the first chunk cannot be asked for again. */
  lemma WrapMissed(rows: seq<Joined>, s: seq<int>)
    requires NonDescending(KeysOf(rows)) && Ascending(s) && Members(KeysOf(rows)) == Members(s)
    requires NoZeroId(rows) && |rows| > 0xFFFF * PAGE
    ensures !ExactFor(rows, s)
  {
    WrapReply(rows);
    var n := Clip(0xFFFF * PAGE + PAGE, |rows|) - 1;
    CursorSkipsUser(rows, rows[n].userId);
    LeastFirst(KeysOf(rows), s);
    hide Replies, RowsAfter, Key, NoZeroId, ExactFor;
    assert KeysOf(rows)[0] <= KeysOf(rows)[n];
    var r := RowsAfter(rows, rows[n].userId, PAGE);
    assert r != [] ==> KeysOf(r)[0] > KeysOf(rows)[0];
    assert KeyPage(s, 0)[0] == KeysOf(rows)[0];
    hide KeysOf, NonDescending, Ascending, Members, KeyPage;
    Refutes(rows, s, [0, 0xFFFF, 0], 2);
  }

  /** Where a longer list leaves a shorter one. */
  ghost predicate LeavesAt(ks: seq<int>, s: seq<int>, j: nat) {
    && j < |ks| && j <= |s| && ks[..j] == s[..j] && (j < |s| ==> ks[j] != s[j])
  }

  lemma FirstDifference(ks: seq<int>, s: seq<int>) returns (j: nat)
    requires |ks| > |s|
    ensures LeavesAt(ks, s, j)
  {
    j := 0;
    while j < |s| && ks[j] == s[j]
      invariant j <= |s| && ks[..j] == s[..j]
    {
      j := j + 1;
    }
  }

  lemma PageDiffers(ks: seq<int>, s: seq<int>, j: nat, k: nat)
    requires LeavesAt(ks, s, j) && k * PAGE <= j < k * PAGE + PAGE
    ensures KeyPage(ks, k) != KeyPage(s, k)
  {
    assert KeyPage(ks, k)[j - k * PAGE] == ks[j];
    if j < |s| { assert KeyPage(s, k)[j - k * PAGE] == s[j]; }
  }

  /** The first difference lies in a page that some request gets by OFFSET, or by the first query. */
  lemma DifferenceShows(rows: seq<Joined>, s: seq<int>, j: nat, k: nat)
    requires NoZeroId(rows) && LeavesAt(KeysOf(rows), s, j) && k * PAGE <= j < k * PAGE + PAGE && k <= 0xFFFF
    requires k == 1 ==> RowsAfter(rows, Begun(rows, 0).lastId, PAGE) != []
    ensures !ExactFor(rows, s)
  {
    PageDiffers(KeysOf(rows), s, j, k);
    PageKeys(rows, k);
    if k == 0 {
      FirstReply(rows, 0);
      FirstPage(rows);
      hide Replies, RowsAfter, Page, KeyPage, LeavesAt;
      Refutes(rows, s, [0], 0);
    } else if k == 1 {
      RepeatReply(rows);
      hide Replies, RowsAfter, Page, KeyPage, LeavesAt;
      Refutes(rows, s, [0, 1, 1], 2);
    } else {
      JumpReply(rows, k);
      hide Replies, RowsAfter, Page, KeyPage, LeavesAt;
      Refutes(rows, s, [0, k], 1);
    }
  }

  // ---- The one roster with a second card that is paged exactly ----

  /** 113 users fill the first page, and all further cards, at most a page of them, belong to the last. */
  predicate LastHasMore(t: Tables, rows: seq<Joined>) {
    |t.users| == 113 < |rows| <= 226 && rows[112].userId == rows[|rows| - 1].userId
  }

  /** From the n-th row on there is one user only. */
  ghost predicate SameFrom(ks: seq<int>, n: nat) {
    0 < n <= |ks| && ks[n - 1] == ks[|ks| - 1]
  }

  lemma SameMembers(ks: seq<int>, n: nat)
    requires NonDescending(ks) && SameFrom(ks, n)
    ensures Members(ks[..n]) == Members(ks) && NonDescending(ks[..n])
  {
    forall k | k in Members(ks) ensures k in Members(ks[..n]) {
      var i :| 0 <= i < |ks| && ks[i] == k;
      var j := if i < n then i else n - 1;
      assert ks[..n][j] == k;
    }
    assert forall i | 0 <= i < n :: ks[..n][i] == ks[i];
    assert forall k | k in Members(ks[..n]) :: k in Members(ks);
  }

  /** The first n rows are then all the users there are, once each, if there are n users. */
  lemma FirstRowsAreUsers(ks: seq<int>, n: nat)
    requires NonDescending(ks) && SameFrom(ks, n) && |Members(ks)| == n
    ensures ks[..n] == Sorted(Members(ks))
  {
    SameMembers(ks, n);
    MemberCount(ks[..n]);
    hide NonDescending, Members;
    AscendingIsSorted(ks[..n]);
  }

  /** Such a read never leaves the first page: no user comes after the last one of it. */
  lemma NothingAfterLast(rows: seq<Joined>)
    requires NonDescending(KeysOf(rows)) && |rows| >= PAGE && SameFrom(KeysOf(rows), PAGE)
    ensures RowsAfter(rows, rows[PAGE - 1].userId, PAGE) == []
  {
    hide Key;
    var ks := KeysOf(rows);
    assert Key(rows[PAGE - 1].userId) == ks[|ks| - 1];
    assert forall i | 0 <= i < |rows| :: Key(rows[i].userId) == ks[i] <= ks[|ks| - 1];
  }

  lemma ReplyOnFirstPage(rows: seq<Joined>, base: u16, index: u16)
    requires NonDescending(KeysOf(rows)) && PAGE < |rows| <= 2 * PAGE && SameFrom(KeysOf(rows), PAGE) && NoZeroId(rows)
    ensures var c := Begun(rows, base);
      && Reply(rows, c, index) == (if index == base then Page(rows, 0) else [])
      && Moved(c, index, Reply(rows, c, index)) == c
  {
    var c := Begun(rows, base);
    NothingAfterLast(rows);
    FirstPage(rows);
    AfterFirst(rows, base);
    hide RowsAfter, Key, NoZeroId, SameFrom, NonDescending;
    if index != base && index != c.nextIndex {
      assert Relative(c, index) >= 2;
      assert Cut(rows, Relative(c, index) * PAGE, PAGE) == [];
    }
  }

  lemma {:induction false} StaysOnFirstPage(rows: seq<Joined>, base: u16, indices: seq<u16>)
    requires NonDescending(KeysOf(rows)) && PAGE < |rows| <= 2 * PAGE && SameFrom(KeysOf(rows), PAGE) && NoZeroId(rows)
    ensures forall i | 0 <= i < |indices| ::
      Replies(rows, Begun(rows, base), indices)[i] == if indices[i] == base then Page(rows, 0) else []
    decreases |indices|
  {
    if indices != [] {
      ReplyOnFirstPage(rows, base, indices[0]);
      StaysOnFirstPage(rows, base, indices[1..]);
      hide Reply, Moved, Page, SameFrom, NoZeroId, NonDescending;
    }
  }

  lemma FirstPageOnly(rows: seq<Joined>, s: seq<int>, k: nat)
    requires |rows| >= PAGE && s == KeysOf(rows)[..PAGE]
    ensures KeyPage(s, k) == KeysOf(if k == 0 then Page(rows, 0) else [])
  {
    hide Key;
  }

  lemma LastHasMoreExact(rows: seq<Joined>, s: seq<int>)
    requires NonDescending(KeysOf(rows)) && PAGE < |rows| <= 2 * PAGE && SameFrom(KeysOf(rows), PAGE) && NoZeroId(rows)
    requires s == KeysOf(rows)[..PAGE]
    ensures ExactFor(rows, s)
  {
    forall indices: seq<u16>, i | 0 <= i < |indices|
      ensures KeysOf(Replies(rows, STARTED, indices)[i]) == KeyPage(s, Sub16(indices[i], indices[0]))
    {
      AfterFirst(rows, indices[0]);
      StaysOnFirstPage(rows, indices[0], indices[1..]);
      FirstPageOnly(rows, s, Sub16(indices[i], indices[0]));
      hide SameFrom, NoZeroId, NonDescending, Page, RowsAfter, KeyPage, KeysOf, Replies;
      RestOfRead(rows, indices, i);
    }
  }

  lemma RestOfRead(rows: seq<Joined>, indices: seq<u16>, i: nat)
    requires rows != [] && i < |indices|
    requires Reply(rows, Based(STARTED, indices[0]), indices[0]) == Page(rows, 0)
    requires AfterReply(rows, Based(STARTED, indices[0]), indices[0]) == Begun(rows, indices[0])
    ensures Replies(rows, STARTED, indices)[i]
            == if i == 0 then Page(rows, 0) else Replies(rows, Begun(rows, indices[0]), indices[1..])[i - 1]
  {
    hide Reply, Page;
  }

  // ---- The exact condition ----

  lemma JoinFacts(t: Tables, rows: seq<Joined>)
    requires IsJoin(t, rows)
    ensures var ks := KeysOf(rows); var s := Sorted(Keys(t));
      && NonDescending(ks) && Members(ks) == Keys(t) && |ks| >= |t.users|
      && Ascending(s) && Members(s) == Keys(t) && |s| == |t.users|
    ensures |rows| == |t.users| <==> OneCardPerUser(t)
  {
    hide Key, InJoin, OneCardPerUser;
    JoinedKeys(t, rows);
    JoinCount(t, rows);
    SortedCount(t);
    SortedAscends(Keys(t));
    SortedMembers(Keys(t));
  }

  lemma ZeroIds(t: Tables, rows: seq<Joined>)
    requires IsJoin(t, rows)
    ensures NO_ID !in t.users ==> NoZeroId(rows)
    ensures NO_ID in t.users ==> exists i :: 0 <= i < |rows| && Key(rows[i].userId) == 0
  {
    hide Key;
    if NO_ID in t.users {
      var r := UserIsJoined(t, NO_ID);
      assert r in rows;
      var i :| 0 <= i < |rows| && rows[i] == r;
      NoIdKey(rows[i].userId);
    } else {
      JoinedIds(t, rows);
    }
  }

  lemma Unpageable(t: Tables, rows: seq<Joined>)
    requires IsJoin(t, rows) && (NO_ID in t.users || |rows| > 0xFFFF * PAGE)
    ensures !Exact(t, rows)
  {
    JoinFacts(t, rows);
    ZeroIds(t, rows);
    hide ExactFor, Key, IsJoin;
    if NO_ID in t.users {
      var i :| 0 <= i < |rows| && Key(rows[i].userId) == 0;
      ZeroIdMissed(rows, Sorted(Keys(t)), i);
    } else {
      WrapMissed(rows, Sorted(Keys(t)));
    }
  }

  lemma PagesExact(t: Tables, rows: seq<Joined>)
    requires IsJoin(t, rows) && OneCardPerUser(t) && Pageable(t)
    ensures Exact(t, rows)
    ensures forall indices: seq<u16>, i | 0 <= i < |indices| ::
      Replies(rows, STARTED, indices)[i] == Page(rows, Sub16(indices[i], indices[0]))
    ensures forall k: nat :: KeysOf(Page(rows, k)) == UserPage(t, k)
  {
    JoinIsRoster(t, rows);
    ZeroIds(t, rows);
    hide Replies, Page, KeyPage, Key, IsJoin, OneCardPerUser, Rows, EntryOf, Sorted;
    forall k: nat ensures KeysOf(Page(rows, k)) == UserPage(t, k) { PageKeys(rows, k); }
    forall indices: seq<u16>, i | 0 <= i < |indices|
      ensures Replies(rows, STARTED, indices)[i] == Page(rows, Sub16(indices[i], indices[0]))
    {
      RepliesArePages(rows, STARTED, indices[0], indices);
    }
  }

  lemma NoneAfter(rows: seq<Joined>, after: Id)
    requires RowsAfter(rows, after, PAGE) == []
    ensures forall i | 0 <= i < |rows| :: Key(rows[i].userId) <= Key(after)
  {
    hide Key;
    var n := Position(rows, Key(after));
    assert |RowsAfter(rows, after, PAGE)| == Clip(n + PAGE, |rows|) - Clip(n, |rows|);
  }

  lemma NothingLeft(rows: seq<Joined>)
    requires NonDescending(KeysOf(rows)) && |rows| >= PAGE && RowsAfter(rows, rows[PAGE - 1].userId, PAGE) == []
    ensures SameFrom(KeysOf(rows), PAGE) && rows[PAGE - 1].userId == rows[|rows| - 1].userId
  {
    var ks, n := KeysOf(rows), |rows| - 1;
    NoneAfter(rows, rows[PAGE - 1].userId);
    hide Key, RowsAfter;
    assert ks[n] == Key(rows[n].userId) <= Key(rows[PAGE - 1].userId) == ks[PAGE - 1] <= ks[n];
    KeyOrder(rows[PAGE - 1].userId, rows[n].userId);
  }

  lemma AscendingStart(s: seq<int>, n: nat)
    requires Ascending(s) && n <= |s|
    ensures Ascending(s[..n])
  {
    assert forall i | 0 <= i < n :: s[..n][i] == s[i];
  }

  /** Two lists of the same members that agree up to where one of them only repeats itself. */
  lemma OnlyRepeats(ks: seq<int>, s: seq<int>, j: nat, n: nat)
    requires NonDescending(ks) && Ascending(s) && Members(ks) == Members(s)
    requires LeavesAt(ks, s, j) && n <= j && SameFrom(ks, n)
    ensures |s| == n
  {
    hide NonDescending, Ascending, Members, SameFrom, Sorted, LeavesAt;
    SameMembers(ks, n);
    SameStart(ks, s, j, n);
    AscendingStart(s, n);
    AscendingIsSorted(s[..n]);
    AscendingIsSorted(s);
    assert |s[..n]| == n;
  }

  lemma SameStart(ks: seq<int>, s: seq<int>, j: nat, n: nat)
    requires LeavesAt(ks, s, j) && n <= j
    ensures n <= |s| && n <= |ks| && ks[..n] == s[..n]
  {
    assert ks[..n] == ks[..j][..n] && s[..n] == s[..j][..n];
  }

  /** When the cursor finds nothing after the first chunk although the lists part in the second one, there
      are only 113 users. */
  lemma OnlyLastLeft(rows: seq<Joined>, s: seq<int>, j: nat)
    requires NonDescending(KeysOf(rows)) && Ascending(s) && Members(KeysOf(rows)) == Members(s)
    requires LeavesAt(KeysOf(rows), s, j) && PAGE <= j && RowsAfter(rows, rows[PAGE - 1].userId, PAGE) == []
    ensures |s| == PAGE && rows[PAGE - 1].userId == rows[|rows| - 1].userId
  {
    NothingLeft(rows);
    OnlyRepeats(KeysOf(rows), s, j, PAGE);
  }

  /** Somebody has two cards, and it is not just the last of 113. */
  lemma TwoCardsShow(t: Tables, rows: seq<Joined>)
    requires IsJoin(t, rows) && NO_ID !in t.users && |t.users| < |rows| <= 0xFFFF * PAGE && !LastHasMore(t, rows)
    ensures !Exact(t, rows)
  {
    JoinFacts(t, rows);
    ZeroIds(t, rows);
    var s := Sorted(Keys(t));
    hide ExactFor, Key, IsJoin, NoZeroId, Sorted, RowsAfter, NonDescending, Ascending, Members, KeysOf, LeavesAt;
    var j := FirstDifference(KeysOf(rows), s);
    Differs(rows, s, j);
  }

  /** The lists part at j: some request shows it, but for 113 users and at most a page of further cards. */
  lemma Differs(rows: seq<Joined>, s: seq<int>, j: nat)
    requires NonDescending(KeysOf(rows)) && Ascending(s) && Members(KeysOf(rows)) == Members(s) && NoZeroId(rows)
    requires LeavesAt(KeysOf(rows), s, j) && |rows| <= 0xFFFF * PAGE
    requires !(|s| == PAGE < |rows| <= 2 * PAGE && rows[PAGE - 1].userId == rows[|rows| - 1].userId)
    ensures !ExactFor(rows, s)
  {
    hide ExactFor, NoZeroId, RowsAfter, NonDescending, Ascending, Members, KeysOf;
    var k := j / PAGE;
    DifferenceAt(KeysOf(rows), s, j);
    if k == 1 && RowsAfter(rows, Begun(rows, 0).lastId, PAGE) == [] {
      OnlyLastLeft(rows, s, j);
      ThirdPageShows(rows, s);
    } else {
      hide LeavesAt;
      DifferenceShows(rows, s, j, k);
    }
  }

  lemma DifferenceAt(ks: seq<int>, s: seq<int>, j: nat)
    requires LeavesAt(ks, s, j)
    ensures j < |ks| && j / PAGE * PAGE <= j < j / PAGE * PAGE + PAGE
  {
  }

  lemma ThirdPageShows(rows: seq<Joined>, s: seq<int>)
    requires |rows| > 2 * PAGE && |s| <= 2 * PAGE && NoZeroId(rows)
    ensures !ExactFor(rows, s)
  {
    JumpReply(rows, 2);
    assert KeyPage(s, 2) == [] && Page(rows, 2) != [];
    hide Replies, KeyPage, Page;
    Refutes(rows, s, [0, 2], 1);
  }

  lemma SameUserSameKey(rows: seq<Joined>, n: nat)
    requires 0 < n <= |rows| && rows[n - 1].userId == rows[|rows| - 1].userId
    ensures SameFrom(KeysOf(rows), n)
  {
    hide Key;
  }

  lemma LastHasMoreShows(t: Tables, rows: seq<Joined>)
    requires IsJoin(t, rows) && NO_ID !in t.users && LastHasMore(t, rows)
    ensures Exact(t, rows)
  {
    JoinFacts(t, rows);
    ZeroIds(t, rows);
    SameUserSameKey(rows, PAGE);
    hide ExactFor, Key, IsJoin, NoZeroId, NonDescending, Ascending, Members, KeysOf, SameFrom, Sorted;
    KeysMeaning(t);
    FirstRowsAreUsers(KeysOf(rows), PAGE);
    LastHasMoreExact(rows, Sorted(Keys(t)));
  }

  /** In-order, repeated and jumping requests alike get exactly the users of the pages they ask for if and
      only if nobody has the all-zero id, the roster fits the chunk numbers, and nobody has two cards,
      except that the last of exactly 113 users may have up to 114. */
  lemma PagingIsExact(t: Tables, rows: seq<Joined>)
    requires IsJoin(t, rows)
    ensures Exact(t, rows) <==> Pageable(t) && (OneCardPerUser(t) || LastHasMore(t, rows))
  {
    JoinFacts(t, rows);
    hide Exact, IsJoin, OneCardPerUser;
    if NO_ID in t.users || |rows| > 0xFFFF * PAGE {
      Unpageable(t, rows);
    } else if LastHasMore(t, rows) {
      LastHasMoreShows(t, rows);
    } else if OneCardPerUser(t) {
      PagesExact(t, rows);
    } else {
      TwoCardsShow(t, rows);
    }
  }

  /** Every reply is the whole page of joined rows, which are those of the page's users, one for each. */
  ghost predicate Complete(t: Tables, rows: seq<Joined>) {
    forall indices: seq<u16>, i | 0 <= i < |indices| ::
      && Replies(rows, STARTED, indices)[i] == Page(rows, Sub16(indices[i], indices[0]))
      && KeysOf(Page(rows, Sub16(indices[i], indices[0]))) == UserPage(t, Sub16(indices[i], indices[0]))
  }

  /** When no card is to be lost either, the exception goes: its last user's further cards are never sent. */
  lemma PagingIsComplete(t: Tables, rows: seq<Joined>)
    requires IsJoin(t, rows)
    ensures Complete(t, rows) <==> Pageable(t) && OneCardPerUser(t)
  {
    PagingIsExact(t, rows);
    JoinFacts(t, rows);
    hide Replies, IsJoin, OneCardPerUser, KeyPage, Key;
    if Pageable(t) && OneCardPerUser(t) {
      PagesExact(t, rows);
    } else if Pageable(t) && LastHasMore(t, rows) {
      SecondPageLost(t, rows);
    } else {
      CompleteIsExact(t, rows);
    }
  }

  lemma CompleteIsExact(t: Tables, rows: seq<Joined>)
    ensures Complete(t, rows) ==> Exact(t, rows)
  {
    hide Replies, Page, KeyPage;
  }

  lemma SecondPageLost(t: Tables, rows: seq<Joined>)
    requires LastHasMore(t, rows) && |Sorted(Keys(t))| == |t.users|
    ensures !Complete(t, rows)
  {
    assert KeyPage(Sorted(Keys(t)), 1) == [];
    assert |Page(rows, 1)| > 0;
    hide Replies, KeyPage, Page, Sorted;
    Incomplete(t, rows, [0, 1], 1);
  }

  lemma Incomplete(t: Tables, rows: seq<Joined>, indices: seq<u16>, i: nat)
    requires i < |indices|
    requires |Page(rows, Sub16(indices[i], indices[0]))| != |UserPage(t, Sub16(indices[i], indices[0]))|
    ensures !Complete(t, rows)
  {
    hide Replies, Page, UserPage;
  }

  /** A user with two cards is sent twice: already the first chunk of a small roster holds more records
      than were announced. */
  lemma TwoCardsSentTwice(t: Tables, rows: seq<Joined>)
    requires IsJoin(t, rows) && !OneCardPerUser(t) && NO_ID !in t.users && |rows| <= PAGE
    ensures Replies(rows, STARTED, [0])[0] == rows && |rows| > |t.users|
  {
    JoinCount(t, rows);
    JoinedIds(t, rows);
    hide Replies, Key, RowsAfter, IsJoin, OneCardPerUser;
    FirstPage(rows);
    FirstReply(rows, 0);
    assert rows[0..|rows|] == rows;
  }

  lemma JoinedIds(t: Tables, rows: seq<Joined>)
    requires IsJoin(t, rows) && NO_ID !in t.users
    ensures NoZeroId(rows)
  {
    hide Key;
    forall i | 0 <= i < |rows| ensures Key(rows[i].userId) > 0 {
      assert rows[i] in rows;
      NoIdKey(rows[i].userId);
    }
  }
}
