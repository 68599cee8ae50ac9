/** What a received roster means at the doors: whom each card lets in, in terms of the bytes of the records. */
module RosterDoors {
  import opened Bytes
  import opened Options
  import opened UserRecord
  import opened Roster
  import opened UserBin

  function UserBytes(rec: seq<byte>): Id
    requires |rec| >= REC_INFO_LEN
  {
    rec[8..16]
  }

  function CardBytes(rec: seq<byte>): Id
    requires |rec| >= REC_INFO_LEN
  {
    rec[40..48]
  }

  /** A record is kept if and only if its bytes 8 to 127 add up to zero and its user id is not all zero. */
  lemma KeptRecord(rec: seq<byte>)
    requires |rec| >= REC_INFO_LEN
    ensures Accepted(rec) <==> XorAll(rec[8..128]) == 0 && UserBytes(rec) != Zeros(8)
  {
    assert rec[8..128][..119] == rec[8..127];
    XorZero(XorAll(rec[8..127]), rec[127]);
    assert rec[8..40][..8] == rec[8..16];
    assert Zeros(8) == NO_ID;
  }

  /** The rows that a kept record writes: its user, and the card, when there is one, as a card of that user. */
  lemma RecordRows(rec: seq<byte>)
    requires |rec| >= REC_INFO_LEN && Accepted(rec)
    ensures var rows := RowsOf(rec);
      && |rows| == (if CardBytes(rec) == Zeros(8) then 1 else 2)
      && rows[0] == UserRow(Decode(rec).user) && Decode(rec).user.userId == UserBytes(rec)
      && (CardBytes(rec) != Zeros(8) ==>
            var c := rows[1].card;
            && rows[1] == CardRow(c) && c.cardId == CardBytes(rec) && c.userId == UserBytes(rec)
            && |c.proxRaw| == 32 && c.proxRaw[8..] == Zeros(24)
            && forall i | 0 <= i < 8 :: c.proxRaw[i] == rec[47 - i])
  {
    assert Zeros(8) == NO_ID;
    assert rec[8..40][..8] == rec[8..16];
  }

  // ---- The last record of a user and of a card ----

  ghost predicate LongEnough(recs: seq<seq<byte>>) {
    forall i | 0 <= i < |recs| :: |recs[i]| >= REC_INFO_LEN
  }

  ghost predicate ForUser(rec: seq<byte>, userId: Id)
    requires |rec| >= REC_INFO_LEN
  {
    Accepted(rec) && UserBytes(rec) == userId
  }

  ghost predicate ForCard(rec: seq<byte>, cardId: Id)
    requires |rec| >= REC_INFO_LEN
  {
    Accepted(rec) && cardId != Zeros(8) && CardBytes(rec) == cardId
  }

  ghost predicate LastForUser(recs: seq<seq<byte>>, i: nat, userId: Id)
    requires LongEnough(recs)
  {
    i < |recs| && ForUser(recs[i], userId) && forall j | i < j < |recs| :: !ForUser(recs[j], userId)
  }

  ghost predicate LastForCard(recs: seq<seq<byte>>, i: nat, cardId: Id)
    requires LongEnough(recs)
  {
    i < |recs| && ForCard(recs[i], cardId) && forall j | i < j < |recs| :: !ForCard(recs[j], cardId)
  }

  /** No intact record carries the card. */
  ghost predicate NoneFor(recs: seq<seq<byte>>, cardId: Id)
    requires LongEnough(recs)
  {
    forall i | 0 <= i < |recs| :: !ForCard(recs[i], cardId)
  }

  /** What one record does to the rows of a user and of a card. */
  ghost predicate Writes(s: Tables, rec: seq<byte>, t: Tables, userId: Id, cardId: Id)
    requires |rec| >= REC_INFO_LEN
  {
    && (if ForUser(rec, userId) then userId in t.users && t.users[userId] == Decode(rec).user
        else (userId in t.users <==> userId in s.users) && (userId in t.users ==> t.users[userId] == s.users[userId]))
    && (if ForCard(rec, cardId) then cardId in t.cards && t.cards[cardId].userId == UserBytes(rec)
        else (cardId in t.cards <==> cardId in s.cards) && (cardId in t.cards ==> t.cards[cardId] == s.cards[cardId]))
  }

  lemma KeptWrites(s: Tables, rec: seq<byte>, userId: Id, cardId: Id)
    requires |rec| >= REC_INFO_LEN && Accepted(rec)
    ensures var rows := RowsOf(rec);
      && 1 <= |rows| <= 2
      && Writes(s, rec, if |rows| == 1 then s.Put(rows[0]) else s.Put(rows[0]).Put(rows[1]), userId, cardId)
  {
    RecordRows(rec);
    hide Accepted, RowsOf, Decode, UserBytes, CardBytes, Zeros;
  }

  lemma NothingWritten(t: Tables, rec: seq<byte>, userId: Id, cardId: Id)
    requires |rec| >= REC_INFO_LEN && !Accepted(rec)
    ensures Writes(t, rec, t, userId, cardId)
  {
    hide Accepted, Decode, UserBytes, CardBytes;
  }

  lemma OneMore(recs: seq<seq<byte>>, userId: Id, cardId: Id)
    requires LongEnough(recs) && recs != []
    ensures Writes(Fold(AllRows(recs[..|recs| - 1])), recs[|recs| - 1], Fold(AllRows(recs)), userId, cardId)
  {
    var n := |recs| - 1;
    var before := AllRows(recs[..n]);
    RowsOfLast(recs);
    hide AllRows, Fold, RowsOf, Accepted, Writes;
    if Accepted(recs[n]) {
      KeptWrites(Fold(before), recs[n], userId, cardId);
      FoldRecord(before, recs[n]);
    } else {
      NothingWritten(Fold(before), recs[n], userId, cardId);
      assert AllRows(recs) == before;
    }
  }

  lemma RowsOfLast(recs: seq<seq<byte>>)
    requires LongEnough(recs) && recs != []
    ensures AllRows(recs) == AllRows(recs[..|recs| - 1]) + RowsOf(recs[|recs| - 1])
    ensures !Accepted(recs[|recs| - 1]) ==> RowsOf(recs[|recs| - 1]) == []
  {
    hide Accepted, Decode, CardOf;
  }

  lemma FoldRecord(before: seq<Row>, rec: seq<byte>)
    requires |rec| >= REC_INFO_LEN && 1 <= |RowsOf(rec)| <= 2
    ensures var rows := RowsOf(rec);
      Fold(before + rows) == (if |rows| == 1 then Fold(before).Put(rows[0]) else Fold(before).Put(rows[0]).Put(rows[1]))
  {
    hide RowsOf, Fold;
    var rows := RowsOf(rec);
    FoldOne(before, rows[0]);
    if |rows| == 1 {
      assert rows == [rows[0]];
    } else {
      FoldOne(before + [rows[0]], rows[1]);
      assert before + rows == before + [rows[0]] + [rows[1]];
    }
  }

  ghost predicate UsersAre(t: map<Id, User>, recs: seq<seq<byte>>, userId: Id)
    requires LongEnough(recs)
  {
    && (userId in t <==> exists i :: 0 <= i < |recs| && LastForUser(recs, i, userId))
    && (forall i | 0 <= i < |recs| && LastForUser(recs, i, userId) :: userId in t && t[userId] == Decode(recs[i]).user)
  }

  lemma UserReplaced(t: map<Id, User>, recs: seq<seq<byte>>, userId: Id)
    requires LongEnough(recs) && recs != [] && ForUser(recs[|recs| - 1], userId)
    requires userId in t && t[userId] == Decode(recs[|recs| - 1]).user
    ensures UsersAre(t, recs, userId)
  {
    hide ForUser, Decode;
    assert LastForUser(recs, |recs| - 1, userId);
  }

  lemma UserKept(s: map<Id, User>, t: map<Id, User>, recs: seq<seq<byte>>, userId: Id)
    requires LongEnough(recs) && recs != [] && !ForUser(recs[|recs| - 1], userId)
    requires UsersAre(s, recs[..|recs| - 1], userId)
    requires (userId in t <==> userId in s) && (userId in t ==> t[userId] == s[userId])
    ensures UsersAre(t, recs, userId)
  {
    hide ForUser, Decode;
    var n := |recs| - 1;
    assert forall i | 0 <= i < n :: LastForUser(recs, i, userId) <==> LastForUser(recs[..n], i, userId);
  }

  lemma {:induction false} LastUserRecord(recs: seq<seq<byte>>, userId: Id)
    requires LongEnough(recs)
    ensures UsersAre(Fold(AllRows(recs)).users, recs, userId)
  {
    if recs != [] {
      var n := |recs| - 1;
      var s, t := Fold(AllRows(recs[..n])), Fold(AllRows(recs));
      LastUserRecord(recs[..n], userId);
      OneMore(recs, userId, NO_ID);
      hide ForUser, UsersAre, Decode, Fold, AllRows;
      if ForUser(recs[n], userId) {
        UserReplaced(t.users, recs, userId);
      } else {
        UserKept(s.users, t.users, recs, userId);
      }
    }
  }

  ghost predicate CardsAre(t: map<Id, Card>, recs: seq<seq<byte>>, cardId: Id)
    requires LongEnough(recs)
  {
    && (cardId in t <==> exists i :: 0 <= i < |recs| && LastForCard(recs, i, cardId))
    && (forall i | 0 <= i < |recs| && LastForCard(recs, i, cardId) ::
          cardId in t && t[cardId].userId == UserBytes(recs[i]))
  }

  lemma CardReplaced(t: map<Id, Card>, recs: seq<seq<byte>>, cardId: Id)
    requires LongEnough(recs) && recs != [] && ForCard(recs[|recs| - 1], cardId)
    requires cardId in t && t[cardId].userId == UserBytes(recs[|recs| - 1])
    ensures CardsAre(t, recs, cardId)
  {
    hide ForCard, Decode;
    assert LastForCard(recs, |recs| - 1, cardId);
  }

  lemma CardKept(s: map<Id, Card>, t: map<Id, Card>, recs: seq<seq<byte>>, cardId: Id)
    requires LongEnough(recs) && recs != [] && !ForCard(recs[|recs| - 1], cardId)
    requires CardsAre(s, recs[..|recs| - 1], cardId)
    requires (cardId in t <==> cardId in s) && (cardId in t ==> t[cardId] == s[cardId])
    ensures CardsAre(t, recs, cardId)
  {
    hide ForCard, Decode;
    var n := |recs| - 1;
    assert forall i | 0 <= i < n :: LastForCard(recs, i, cardId) <==> LastForCard(recs[..n], i, cardId);
  }

  lemma {:induction false} LastCardRecord(recs: seq<seq<byte>>, cardId: Id)
    requires LongEnough(recs)
    ensures CardsAre(Fold(AllRows(recs)).cards, recs, cardId)
  {
    if recs != [] {
      var n := |recs| - 1;
      var s, t := Fold(AllRows(recs[..n])), Fold(AllRows(recs));
      LastCardRecord(recs[..n], cardId);
      OneMore(recs, NO_ID, cardId);
      hide ForCard, CardsAre, Decode, Fold, AllRows;
      if ForCard(recs[n], cardId) {
        CardReplaced(t.cards, recs, cardId);
      } else {
        CardKept(s.cards, t.cards, recs, cardId);
      }
    }
  }

  /** After a transfer a card lets somebody in if and only if an intact record carries it, and then it lets in
      the user whom the last such record names, as the last intact record of that user describes him. */
  lemma WhoGetsIn(recs: seq<seq<byte>>, cardId: Id, u: User)
    requires LongEnough(recs)
    ensures Fold(AllRows(recs)).LookupByCard(cardId) == Some(u) <==>
      exists i, j :: 0 <= i < |recs| && 0 <= j < |recs| && LastForCard(recs, i, cardId)
                     && LastForUser(recs, j, UserBytes(recs[i])) && Decode(recs[j]).user == u
    ensures Fold(AllRows(recs)).LookupByCard(cardId) == None <==> NoneFor(recs, cardId)
  {
    var t := Fold(AllRows(recs));
    LastCardRecord(recs, cardId);
    LookupFinds(t, cardId, u);
    if cardId in t.cards {
      var i :| 0 <= i < |recs| && LastForCard(recs, i, cardId);
      LastUserRecord(recs, UserBytes(recs[i]));
      SomeLastUser(recs, UserBytes(recs[i]), i);
    } else {
      NoneForCard(recs, cardId);
    }
  }

  lemma NobodyGetsIn(recs: seq<seq<byte>>, cardId: Id)
    requires LongEnough(recs)
    ensures Fold(AllRows(recs)).LookupByCard(cardId) == None <==> NoneFor(recs, cardId)
  {
    WhoGetsIn(recs, cardId, Decode(Zeros(REC_INFO_LEN)).user);
  }

  lemma {:induction false} SomeLastUser(recs: seq<seq<byte>>, userId: Id, i: nat)
    requires LongEnough(recs) && i < |recs| && ForUser(recs[i], userId)
    ensures exists j :: 0 <= j < |recs| && LastForUser(recs, j, userId)
    decreases |recs| - i
  {
    if !LastForUser(recs, i, userId) {
      var j :| i < j < |recs| && ForUser(recs[j], userId);
      SomeLastUser(recs, userId, j);
    }
  }

  lemma NoneForCard(recs: seq<seq<byte>>, cardId: Id)
    requires LongEnough(recs) && !exists i :: 0 <= i < |recs| && LastForCard(recs, i, cardId)
    ensures NoneFor(recs, cardId)
  {
    forall i | 0 <= i < |recs| ensures !ForCard(recs[i], cardId) { NotBefore(recs, cardId, i); }
  }

  lemma {:induction false} NotBefore(recs: seq<seq<byte>>, cardId: Id, i: nat)
    requires LongEnough(recs) && i < |recs| && !exists k :: 0 <= k < |recs| && LastForCard(recs, k, cardId)
    ensures !ForCard(recs[i], cardId)
    decreases |recs| - i
  {
    forall j | i < j < |recs| ensures !ForCard(recs[j], cardId) { NotBefore(recs, cardId, j); }
    assert !LastForCard(recs, i, cardId);
  }

  // ---- At the door, after a transfer ----

  /** A card is held to the reader after all pieces of a cut have come in, whatever else came with them. */
  method LookupAfterTransfer(r: Receiver, cut: seq<seq<byte>>, first: u16, arrivals: seq<Arrival>, cardId: Id)
    returns (found: Option<User>)
    requires r.Valid() && Numberable(cut) && Sent(cut, 0, arrivals) && Taken(0, arrivals) == |cut|
    requires Serving(r, cut, first, 0, r.db.Roster())
    modifies r, r.rec, r.db
    ensures r.recordLen == old(r.recordLen) >= REC_INFO_LEN
    ensures var recs := Slices(Concat(cut), r.recordLen);
      && (found == None <==> NoneFor(recs, cardId))
      && (found.Some? ==>
            exists i, j :: 0 <= i < |recs| && 0 <= j < |recs| && LastForCard(recs, i, cardId)
                           && LastForUser(recs, j, UserBytes(recs[i])) && Decode(recs[j]).user == found.value)
  {
    hide Sent, Taken, Numberable, Slices, Decode, ForCard, LastForCard, LastForUser, NoneFor;
    hide AllRows, Fold, Tables.LookupByCard;
    ghost var n := r.recordLen;
    Transfer(r, cut, first, arrivals);
    assert r.db.Roster() == RosterOf(Concat(cut), n);
    found := r.db.LookupByCard(cardId);
    ghost var recs := Slices(Concat(cut), n);
    assert found == Fold(AllRows(recs)).LookupByCard(cardId);
    NobodyGetsIn(recs, cardId);
    if found.Some? { WhoGetsIn(recs, cardId, found.value); }
    assert r.recordLen == n;
  }
}
